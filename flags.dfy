/** cbuild.h's FlagParse: `cbuild_flag_new` registers flags from spec
    strings, `cbuild_flag_parse` walks argv against them, and the getters
    read the results back. The library keeps one static context; here it is
    a `FlagContext` object. */
module FlagParse {
  import opened Wrappers
  import opened Bytes
  import opened StringView
  import opened FlagSpecs

  /** How a call ends: normally, or by `exit(code)` (1 for a syntax or usage
      error, 0 after printing help or the version). */
  datatype Status = Ok | Exit(code: int)

  /** `__cbuild_int_flag_get_lopt`'s test: a flag with a long option
      (type 0 or 1) named `opt`. */
  predicate IsLopt(s: FlagSpec, opt: Bytes) {
    (GetType(s.kind) == 0 || GetType(s.kind) == 1) && s.opt == opt
  }

  /** `__cbuild_int_flag_get_lopt_aliased`'s test: the long option or one of
      the aliases. */
  predicate IsAliased(s: FlagSpec, opt: Bytes) {
    IsLopt(s, opt) || opt in s.aliases
  }

  /** `__cbuild_int_flag_get_sopt`'s test: a flag of type 1 with short
      option `c`. */
  predicate IsSopt(s: FlagSpec, c: Byte) {
    GetType(s.kind) == 1 && s.sopt == c
  }

  /** `i` is the first flag with a long option named `opt`. */
  predicate FirstLopt(flags: seq<FlagSpec>, opt: Bytes, i: nat) {
    i < |flags| && IsLopt(flags[i], opt) && forall j :: 0 <= j < i ==> !IsLopt(flags[j], opt)
  }

  /** The lookup of `__cbuild_int_flag_get_lopt`: the first match, or None. */
  method GetLopt(flags: seq<FlagSpec>, opt: Bytes) returns (r: Option<nat>)
    ensures r.Some? ==> FirstLopt(flags, opt, r.value)
    ensures r.None? ==> forall j :: 0 <= j < |flags| ==> !IsLopt(flags[j], opt)
  {
    for i := 0 to |flags|
      invariant forall j :: 0 <= j < i ==> !IsLopt(flags[j], opt)
    {
      var t := GetType(flags[i].kind);
      if (t == 0 || t == 1) && Cmp(flags[i].opt, opt) == 0 {
        return Some(i);
      }
    }
    return None;
  }

  /** `__cbuild_int_flag_get_lopt_aliased`: the first flag whose long option
      or one of whose aliases is `opt`. */
  method GetLoptAliased(flags: seq<FlagSpec>, opt: Bytes) returns (r: Option<nat>)
    ensures r.Some? ==>
      r.value < |flags| && IsAliased(flags[r.value], opt)
      && forall j :: 0 <= j < r.value ==> !IsAliased(flags[j], opt)
    ensures r.None? ==> forall j :: 0 <= j < |flags| ==> !IsAliased(flags[j], opt)
    ensures r == AliasedFrom(flags, opt, 0)
  {
    for i := 0 to |flags|
      invariant forall j :: 0 <= j < i ==> !IsAliased(flags[j], opt)
    {
      var t := GetType(flags[i].kind);
      if (t == 0 || t == 1) && Cmp(flags[i].opt, opt) == 0 {
        return Some(i);
      }
      var aliases := flags[i].aliases;
      for k := 0 to |aliases|
        invariant forall m :: 0 <= m < k ==> aliases[m] != opt
      {
        if Cmp(aliases[k], opt) == 0 {
          return Some(i);
        }
      }
    }
    return None;
  }

  /** `__cbuild_int_flag_get_sopt`: the first flag of type 1 with short
      option `c`. */
  method GetSopt(flags: seq<FlagSpec>, c: Byte) returns (r: Option<nat>)
    ensures r.Some? ==>
      r.value < |flags| && IsSopt(flags[r.value], c)
      && forall j :: 0 <= j < r.value ==> !IsSopt(flags[j], c)
    ensures r.None? ==> forall j :: 0 <= j < |flags| ==> !IsSopt(flags[j], c)
    ensures r == SoptFrom(flags, c, 0)
  {
    for i := 0 to |flags|
      invariant forall j :: 0 <= j < i ==> !IsSopt(flags[j], c)
    {
      if GetType(flags[i].kind) == 1 && flags[i].sopt == c {
        return Some(i);
      }
    }
    return None;
  }

  /** `__cbuild_int_flag_first_delim_func`: the separators after a flag's
      name ('\t' for a short option, '\n' for none, '\r' which is refused).
      Index |sv| stands for the terminating NUL. */
  predicate FirstDelimAt(sv: Bytes, i: nat) {
    i < |sv| && (sv[i] == '\t' || sv[i] == '\n' || sv[i] == '\r')
  }

  /** The index of the first separator, or |spec|. */
  function FirstDelim(spec: Bytes): (i: nat)
    ensures i <= |spec|
    ensures i < |spec| ==> FirstDelimAt(spec, i)
    ensures forall j :: 0 <= j < i ==> !FirstDelimAt(spec, j)
  {
    if spec == [] || FirstDelimAt(spec, 0) then 0
    else
      var k := 1 + FirstDelim(spec[1..]);
      assert forall j :: 1 <= j < k ==> (FirstDelimAt(spec, j) <==> FirstDelimAt(spec[1..], j - 1));
      k
  }

  /** A spec string starting with '-' is a command, not a flag. */
  predicate IsCommand(spec: Bytes) {
    spec != [] && spec[0] == '-'
  }

  /** The part of `cbuild_flag_new` before the metadata: the name up to the
      first separator, then either '\n', or '\t' with a one-byte short option
      and another '\t'. Yields the spec so far and the metadata text. */
  function Head(spec: Bytes): (h: Option<(FlagSpec, Bytes)>)
    ensures h.Some? ==> var i := FirstDelim(spec);
      i < |spec| && h.value.0.opt == spec[..i] && !h.value.0.found && h.value.0.args == []
      && h.value.0.aliases == [] && |h.value.1| < |spec|
  {
    var i := FirstDelim(spec);
    var name := spec[..i];
    if i == |spec| || spec[i] == '\r' then None
    else if spec[i] == '\t' then
      var rest := spec[i + 1..];
      if |rest| < 2 || rest[1] != '\t' then None
      else Some((Blank.(kind := SetType(0, 1), sopt := rest[0], opt := name), rest[2..]))
    else Some((Blank.(opt := name), spec[i + 1..]))
  }

  /** The flag a non-command spec string declares, or None for a syntax
      error: `name\tS\tMETA\tDESC` (long option with short option S) or
      `name\nMETA\tDESC` (long option only); the metadata section is read
      by `Metadata`. */
  function Declare(spec: Bytes): Option<FlagSpec> {
    var h := Head(spec);
    if h.None? then None else Described(Metadata(h.value.0, h.value.1))
  }

  /** The spec with the description that follows the metadata. */
  function Described(m: Option<(FlagSpec, Bytes)>): Option<FlagSpec> {
    if m.None? then None else Some(m.value.0.(description := m.value.1))
  }

  /** A long-option-only flag with an empty metadata section:
      `name\n\tDESC` declares `name` with description DESC and no
      argument. */
  lemma DeclareLongOnly(spec: Bytes, name: Bytes, desc: Bytes)
    requires spec == name + ['\n', '\t'] + desc
    requires forall j :: 0 <= j < |name| ==> !FirstDelimAt(name, j)
    ensures Declare(spec) == Some(Blank.(opt := name, description := desc))
  {
    assert FirstDelim(spec) == |name| by { DelimAfterName(spec, name, '\n', ['\t'] + desc); }
    assert spec[..|name|] == name;
    var meta := spec[|name| + 1..];
    assert meta == ['\t'] + desc;
    assert MetaDelim(meta) == 0;
    assert meta[1..] == desc;
  }

  /** A flag with a short option and an empty metadata section:
      `name\tc\t\tDESC`. */
  lemma DeclareWithShort(spec: Bytes, name: Bytes, c: Byte, desc: Bytes)
    requires spec == name + ['\t', c, '\t', '\t'] + desc
    requires forall j :: 0 <= j < |name| ==> !FirstDelimAt(name, j)
    ensures Declare(spec) == Some(Blank.(kind := SetType(0, 1), sopt := c, opt := name, description := desc))
  {
    assert FirstDelim(spec) == |name| by { DelimAfterName(spec, name, '\t', [c, '\t', '\t'] + desc); }
    assert spec[..|name|] == name;
    var rest := spec[|name| + 1..];
    assert rest == [c, '\t', '\t'] + desc;
    var meta := rest[2..];
    assert meta == ['\t'] + desc;
    assert MetaDelim(meta) == 0;
    assert meta[1..] == desc;
  }

  lemma DelimAfterName(spec: Bytes, name: Bytes, d: Byte, rest: Bytes)
    requires spec == name + [d] + rest && (d == '\t' || d == '\n')
    requires forall j :: 0 <= j < |name| ==> !FirstDelimAt(name, j)
    ensures FirstDelim(spec) == |name|
  {
    assert FirstDelimAt(spec, |name|);
    forall j | 0 <= j < |name| ensures !FirstDelimAt(spec, j) {
      assert spec[j] == name[j] && !FirstDelimAt(name, j);
    }
  }

  /** A declared flag has the name before the first separator, starts
      unparsed and without aliases, and has a short option exactly when the
      name was followed by a tab. */
  lemma DeclareShape(spec: Bytes)
    requires Declare(spec).Some?
    ensures var f := Declare(spec).value; var i := FirstDelim(spec);
      i < |spec| && f.opt == spec[..i] && !f.found && f.args == [] && f.aliases == []
      && (GetType(f.kind) == 1 <==> spec[i] == '\t')
  {
    var h := Head(spec).value;
    MetadataKeeps(h.0, h.1);
    var i := FirstDelim(spec);
    if spec[i] == '\t' {
      SetTypeFields(0, 1);
    }
  }

  /** Splits `s` at each ',', as the `alias` command's do-while loop does:
      a chop is taken at least once and the loop stops when nothing is left
      after a chop; an empty alias is a syntax error. */
  function Aliases(s: Bytes): Option<seq<Bytes>>
    decreases |s|
  {
    var c := ChopByDelim(s, ',');
    if c.taken == [] then None
    else if c.rest == [] then Some([c.taken])
    else Prepend([c.taken], Aliases(c.rest))
  }

  /** One chop of `Aliases`, stated without unfolding it further. */
  lemma AliasesUnfold(spec: Bytes, c: Chopped)
    requires c == ChopByDelim(spec, ',')
    ensures c.taken == [] ==> Aliases(spec).None?
    ensures c.taken != [] ==> |c.rest| < |spec|
    ensures c.taken != [] && c.rest == [] ==> Aliases(spec) == Some([c.taken])
    ensures c.taken != [] && c.rest != [] ==> Aliases(spec) == Prepend([c.taken], Aliases(c.rest))
  {
  }

  lemma PrependSnoc(xs: seq<Bytes>, x: Bytes, o: Option<seq<Bytes>>)
    ensures Prepend(xs, Prepend([x], o)) == Prepend(xs + [x], o)
    ensures Prepend(xs, Some([x])) == Some(xs + [x])
  {
    if o.Some? {
      assert xs + ([x] + o.value) == (xs + [x]) + o.value;
    }
  }

  /** `xs` in front of a list that may be missing. */
  function Prepend(xs: seq<Bytes>, o: Option<seq<Bytes>>): Option<seq<Bytes>> {
    if o.None? then None else Some(xs + o.value)
  }

  /** Aliases joined by ','. */
  function JoinCommas(xs: seq<Bytes>): Bytes {
    if |xs| <= 1 then (if xs == [] then [] else xs[0])
    else xs[0] + [','] + JoinCommas(xs[1..])
  }

  /** Non-empty aliases without ',' joined by ',' split back into themselves. */
  lemma {:induction false} AliasesJoin(xs: seq<Bytes>, s: Bytes)
    requires xs != [] && s == JoinCommas(xs)
    requires forall k :: 0 <= k < |xs| ==> xs[k] != [] && ',' !in xs[k]
    ensures Aliases(s) == Some(xs)
    decreases |xs|
  {
    if |xs| == 1 {
      assert s == xs[0] && xs == [xs[0]];
      AliasesOne(xs[0]);
    } else {
      var x, rest := xs[0], xs[1..];
      var tail := JoinCommas(rest);
      assert s == x + [','] + tail;
      assert tail != [] by { JoinCommasLength(rest); }
      assert x != [] && ',' !in x;
      forall k | 0 <= k < |rest|
        ensures rest[k] != [] && ',' !in rest[k]
      {
        assert rest[k] == xs[k + 1];
      }
      AliasesCons(x, tail);
      AliasesJoin(rest, tail);
      assert [x] + rest == xs;
    }
  }

  /** One alias without ',' is the whole list. */
  lemma AliasesOne(x: Bytes)
    requires x != [] && ',' !in x
    ensures Aliases(x) == Some([x])
  {
    AliasesUnfold(x, ChopByDelim(x, ','));
  }

  /** A first alias without ',' followed by a ',' and more text. */
  lemma AliasesCons(x: Bytes, tail: Bytes)
    requires x != [] && ',' !in x && tail != []
    ensures Aliases(x + [','] + tail) == Prepend([x], Aliases(tail))
  {
    ChopFirstComma(x + [','] + tail, x, tail);
    AliasesUnfold(x + [','] + tail, Chopped(x, tail));
  }

  lemma {:induction false} JoinCommasLength(xs: seq<Bytes>)
    requires xs != []
    ensures |JoinCommas(xs)| >= |xs[0]|
  {
  }

  lemma ChopFirstComma(s: Bytes, a: Bytes, b: Bytes)
    requires s == a + [','] + b && ',' !in a
    ensures ChopByDelim(s, ',') == Chopped(a, b)
  {
    assert s[|a|] == ',';
    var r := ChopByDelim(s, ',');
    assert r.taken + [','] + r.rest == s;
    assert r.taken == s[..|a|] == a;
  }

  /** The `group` command's two halves, name and description. */
  function GroupEntry(spec: Bytes): seq<Bytes> {
    var afterCmd := ChopByDelim(spec, ':').rest;
    var g := ChopByDelim(afterCmd, ':');
    [g.taken, g.rest]
  }

  /** An argument starting with '-' (an empty C string starts with NUL). */
  predicate StartsDash(a: Bytes) {
    a != [] && a[0] == '-'
  }

  /** `(char)PRM2`, the terminator of a terminated list. */
  function Terminator(s: FlagSpec): Byte {
    (GetPrm2(s.kind) as int) as char
  }

  /** What ends a list: an option for a list, the terminator argument for
      a terminated list. */
  predicate StopsList(s: FlagSpec, a: Bytes) {
    (ArgKind(s) == 2 && StartsDash(a)) || (ArgKind(s) == 3 && |a| == 1 && a[0] == Terminator(s))
  }

  /** The index of the first argument from `from` on that ends the list,
      or |argv|. */
  function ListEnd(s: FlagSpec, argv: seq<Bytes>, from: nat): (k: nat)
    requires from <= |argv|
    ensures from <= k <= |argv|
    ensures forall j :: from <= j < k ==> !StopsList(s, argv[j])
    ensures k < |argv| ==> StopsList(s, argv[k])
    decreases |argv| - from
  {
    if from == |argv| || StopsList(s, argv[from]) then from else ListEnd(s, argv, from + 1)
  }

  /** `__cbuild_int_parse_flag_args` for one flag: `ptr` is the index after
      the flag; `next` is the index of the last argument consumed (the
      caller's loop then steps past it). */
  method ParseFlagArgs(s: FlagSpec, argv: seq<Bytes>, ptr: nat) returns (st: Status, r: FlagSpec, next: nat)
    requires 1 <= ptr <= |argv|
    ensures ptr - 1 <= next <= |argv|
    ensures r.(args := s.args) == s
    ensures st == Ok || st == Exit(1)
    ensures ArgKind(s) == 0 ==> st == Ok && r == s && next == ptr - 1
    ensures ArgKind(s) != 0 && ptr == |argv| ==> r == s && next == ptr && (st == Ok <==> Optional(s))
    ensures ArgKind(s) == 1 && ptr < |argv| ==>
      if StartsDash(argv[ptr]) then r == s && next == ptr - 1 && (st == Ok <==> Optional(s))
      else st == Ok && r == s.(args := [argv[ptr]]) && next == ptr
    ensures ArgKind(s) >= 2 && ptr < |argv| ==>
      var k := ListEnd(s, argv, ptr);
      r == s.(args := s.args + argv[ptr..k])
      && next == (if ArgKind(s) == 2 && k < |argv| then k - 1 else k)
      && (st == Ok <==> GetPrm1(s.kind) == 0 || GetPrm1(s.kind) as int == |r.args|)
    ensures FlagArgs(s, argv, ptr) == ArgsRead(st, r, next)
  {
    r := s;
    if ArgKind(s) == 0 {
      return Ok, r, ptr - 1;
    }
    if ptr == |argv| {
      st := if Optional(s) then Ok else Exit(1);
      return st, r, ptr;
    }
    if ArgKind(s) == 1 {
      var arg := argv[ptr];
      if StartsDash(arg) {
        st := if Optional(s) then Ok else Exit(1);
        return st, r, ptr - 1;
      }
      r := s.(args := [arg]);
      return Ok, r, ptr;
    }
    var p := ptr;
    var stopped := false;
    while p < |argv| && !stopped
      invariant ptr <= p <= |argv|
      invariant forall j :: ptr <= j < p ==> !StopsList(s, argv[j])
      invariant stopped ==> p < |argv| && StopsList(s, argv[p])
      invariant r == s.(args := s.args + argv[ptr..p])
      decreases |argv| - p, if stopped then 0 else 1
    {
      var arg := argv[p];
      if (ArgKind(s) == 2 && StartsDash(arg)) || (ArgKind(s) == 3 && |arg| == 1 && Terminator(s) == arg[0]) {
        stopped := true;
      } else {
        assert argv[ptr..p + 1] == argv[ptr..p] + [arg];
        r := r.(args := r.args + [arg]);
        p := p + 1;
      }
    }
    assert p == ListEnd(s, argv, ptr) by { ListEndIs(s, argv, ptr, p); }
    next := if ArgKind(s) == 2 && p < |argv| then p - 1 else p;
    st := if GetPrm1(s.kind) != 0 && GetPrm1(s.kind) as int != |r.args| then Exit(1) else Ok;
  }

  lemma ListEndIs(s: FlagSpec, argv: seq<Bytes>, from: nat, p: nat)
    requires from <= p <= |argv|
    requires forall j :: from <= j < p ==> !StopsList(s, argv[j])
    requires p < |argv| ==> StopsList(s, argv[p])
    ensures ListEnd(s, argv, from) == p
  {
  }

  /** What `__cbuild_int_parse_flag_args` leaves behind: the status, the
      flag with the arguments it read, and the index of the last argument
      consumed. */
  datatype ArgsRead = ArgsRead(st: Status, flag: FlagSpec, last: nat)

  /** The reference reading of flag `s`'s arguments from `argv[ptr..]`: none
      for a flag without arguments; one argument that does not start with
      '-'; or a list up to the first option (kind 2) or the terminator
      (kind 3), checked against the required count. A missing mandatory
      argument or a wrong count is `exit(1)`. */
  function FlagArgs(s: FlagSpec, argv: seq<Bytes>, ptr: nat): (a: ArgsRead)
    requires 1 <= ptr <= |argv|
    ensures ptr - 1 <= a.last <= |argv|
    ensures a.flag.(args := s.args) == s
    ensures a.st == Ok || a.st == Exit(1)
  {
    if ArgKind(s) == 0 then ArgsRead(Ok, s, ptr - 1)
    else if ptr == |argv| then ArgsRead(if Optional(s) then Ok else Exit(1), s, ptr)
    else if ArgKind(s) == 1 then
      if StartsDash(argv[ptr]) then ArgsRead(if Optional(s) then Ok else Exit(1), s, ptr - 1)
      else ArgsRead(Ok, s.(args := [argv[ptr]]), ptr)
    else
      var k := ListEnd(s, argv, ptr);
      var r := s.(args := s.args + argv[ptr..k]);
      var st := if GetPrm1(s.kind) != 0 && GetPrm1(s.kind) as int != |r.args| then Exit(1) else Ok;
      ArgsRead(st, r, if ArgKind(s) == 2 && k < |argv| then k - 1 else k)
  }

  /** The first flag from `from` on with long option or alias `opt`. */
  function AliasedFrom(flags: seq<FlagSpec>, opt: Bytes, from: nat): (r: Option<nat>)
    requires from <= |flags|
    ensures r.Some? ==> (from <= r.value < |flags| && IsAliased(flags[r.value], opt)
      && forall j :: from <= j < r.value ==> !IsAliased(flags[j], opt))
    ensures r.None? ==> forall j :: from <= j < |flags| ==> !IsAliased(flags[j], opt)
    decreases |flags| - from
  {
    if from == |flags| then None
    else if IsAliased(flags[from], opt) then Some(from)
    else AliasedFrom(flags, opt, from + 1)
  }

  /** The first flag from `from` on with short option `c`. */
  function SoptFrom(flags: seq<FlagSpec>, c: Byte, from: nat): (r: Option<nat>)
    requires from <= |flags|
    ensures r.Some? ==> (from <= r.value < |flags| && IsSopt(flags[r.value], c)
      && forall j :: from <= j < r.value ==> !IsSopt(flags[j], c))
    ensures r.None? ==> forall j :: from <= j < |flags| ==> !IsSopt(flags[j], c)
    decreases |flags| - from
  {
    if from == |flags| then None
    else if IsSopt(flags[from], c) then Some(from)
    else SoptFrom(flags, c, from + 1)
  }

  /** How one option token ends: the status, the flags, and the index the
      loop continues from. */
  datatype Visit = Visit(st: Status, flags: seq<FlagSpec>, next: nat)

  /** The reference effect of the long option `argv[i]` ("--NAME"): help
      and version exit with 0, an unknown NAME with 1; otherwise the first
      flag named NAME is marked found and reads its arguments from
      `argv[i + 1..]`. */
  function LongStep(flags: seq<FlagSpec>, argv: seq<Bytes>, i: nat): (v: Visit)
    requires 1 <= i < |argv| && |argv[i]| > 2
    ensures i < v.next <= |argv| + 1
    ensures v.st == Ok || v.st == Exit(0) || v.st == Exit(1)
  {
    var name := argv[i][2..];
    if name == "help" || name == "version" then Visit(Exit(0), flags, i + 1)
    else match AliasedFrom(flags, name, 0)
      case None => Visit(Exit(1), flags, i + 1)
      case Some(k) =>
        var a := FlagArgs(flags[k].(found := true), argv, i + 1);
        Visit(a.st, flags[k := a.flag], a.last + 1)
  }

  /** The reference effect of the short options `argv[i][j..]` of a cluster
      "-abc": 'h' and 'V' exit with 0 and an unknown option with 1; a known
      option marks its first flag found; the last option reads the flag's
      arguments, and an earlier one whose flag needs an argument exits
      with 1. */
  function ClusterStep(flags: seq<FlagSpec>, argv: seq<Bytes>, i: nat, j: nat): (v: Visit)
    requires 1 <= i < |argv| && 1 <= j <= |argv[i]|
    ensures i < v.next <= |argv| + 1
    ensures v.st == Ok || v.st == Exit(0) || v.st == Exit(1)
    decreases |argv[i]| - j
  {
    var a := argv[i];
    if j == |a| then Visit(Ok, flags, i + 1)
    else if a[j] == 'h' || a[j] == 'V' then Visit(Exit(0), flags, i + 1)
    else match SoptFrom(flags, a[j], 0)
      case None => Visit(Exit(1), flags, i + 1)
      case Some(k) =>
        var f := flags[k := flags[k].(found := true)];
        if j == |a| - 1 then
          var r := FlagArgs(f[k], argv, i + 1);
          Visit(r.st, f[k := r.flag], if r.st == Ok then r.last + 1 else i + 1)
        else if ArgKind(f[k]) != 0 && !Optional(f[k]) then Visit(Exit(1), f, i + 1)
        else ClusterStep(f, argv, i, j + 1)
  }

  /** `LongStep` for a known long option. */
  lemma LongStepKnown(flags: seq<FlagSpec>, argv: seq<Bytes>, i: nat, k: nat)
    requires 1 <= i < |argv| && |argv[i]| > 2
    requires argv[i][2..] != "help" && argv[i][2..] != "version"
    requires AliasedFrom(flags, argv[i][2..], 0) == Some(k)
    ensures var a := FlagArgs(flags[k].(found := true), argv, i + 1);
      LongStep(flags, argv, i) == Visit(a.st, flags[k := a.flag], a.last + 1)
  {
  }

  /** `ClusterStep` at a known option `argv[i][j]`. */
  lemma ClusterStepKnown(flags: seq<FlagSpec>, argv: seq<Bytes>, i: nat, j: nat, k: nat)
    requires 1 <= i < |argv| && 1 <= j < |argv[i]|
    requires argv[i][j] != 'h' && argv[i][j] != 'V' && SoptFrom(flags, argv[i][j], 0) == Some(k)
    ensures var f := flags[k := flags[k].(found := true)];
      ClusterStep(flags, argv, i, j) ==
        if j == |argv[i]| - 1 then
          var r := FlagArgs(f[k], argv, i + 1);
          Visit(r.st, f[k := r.flag], if r.st == Ok then r.last + 1 else i + 1)
        else if ArgKind(f[k]) != 0 && !Optional(f[k]) then Visit(Exit(1), f, i + 1)
        else ClusterStep(f, argv, i, j + 1)
  {
  }

  /** How one pass of the parse loop ends: also the positional arguments
      and whether options have ended. */
  datatype Pass = Pass(st: Status, flags: seq<FlagSpec>, pargs: seq<Bytes>, next: nat, noFlags: bool)

  /** The reference pass of `cbuild_flag_parse` at `argv[i]`. */
  function ArgStep(flags: seq<FlagSpec>, pargs: seq<Bytes>, sep: bool, argv: seq<Bytes>, i: nat, noFlags: bool): (p: Pass)
    requires 1 <= i < |argv|
    ensures i < p.next <= |argv| + 1
  {
    var a := argv[i];
    if !noFlags && Prefix(a, "--") then
      if |a| == 2 then Pass(Ok, flags, pargs + (if sep then ["--"] else []), i + 1, true)
      else
        var v := LongStep(flags, argv, i);
        Pass(v.st, v.flags, pargs, v.next, noFlags)
    else if !noFlags && Prefix(a, "-") then
      var v := ClusterStep(flags, argv, i, 1);
      Pass(v.st, v.flags, if |a| == 1 then pargs + [a] else pargs, v.next, noFlags)
    else Pass(Ok, flags, pargs + [a], i + 1, noFlags)
  }

  /** The outcome of the whole parse, with the indices of the option
      tokens the loop interpreted (not those read as arguments, nor any
      after "--"). */
  datatype Parsed = Parsed(st: Status, flags: seq<FlagSpec>, pargs: seq<Bytes>, options: seq<nat>)

  /** The reference loop of `cbuild_flag_parse` from `argv[i]`. */
  function ParseAll(flags: seq<FlagSpec>, pargs: seq<Bytes>, sep: bool, argv: seq<Bytes>, i: nat, noFlags: bool): (r: Parsed)
    requires 1 <= i <= |argv| + 1
    ensures forall m :: 0 <= m < |r.options| ==> i <= r.options[m] < |argv|
    decreases |argv| + 1 - i
  {
    if i >= |argv| then Parsed(Ok, flags, pargs, [])
    else
      var p := ArgStep(flags, pargs, sep, argv, i, noFlags);
      var here := if !noFlags && StartsDash(argv[i]) && argv[i] != "--" then [i] else [];
      if p.st != Ok then Parsed(p.st, p.flags, p.pargs, here)
      else
        var rest := ParseAll(p.flags, p.pargs, sep, argv, p.next, p.noFlags);
        Parsed(rest.st, rest.flags, rest.pargs, here + rest.options)
  }

  /** Flags only gain found bits and arguments: the declarations stay and
      a found flag stays found. */
  predicate Grown(f0: seq<FlagSpec>, f1: seq<FlagSpec>) {
    |f1| == |f0|
    && (forall k :: 0 <= k < |f0| ==> f1[k].(found := f0[k].found, args := f0[k].args) == f0[k])
    && (forall k :: 0 <= k < |f0| ==> f0[k].found ==> f1[k].found)
  }

  lemma GrownTrans(f0: seq<FlagSpec>, f1: seq<FlagSpec>, f2: seq<FlagSpec>)
    requires Grown(f0, f1) && Grown(f1, f2)
    ensures Grown(f0, f2)
  {
    forall k | 0 <= k < |f0|
      ensures f2[k].(found := f0[k].found, args := f0[k].args) == f0[k]
    {
      assert f2[k].(found := f1[k].found, args := f1[k].args) == f1[k];
    }
  }

  /** The lookups depend only on the declarations. */
  lemma {:induction false} LookupsKept(f0: seq<FlagSpec>, f1: seq<FlagSpec>, from: nat)
    requires Grown(f0, f1) && from <= |f0|
    ensures forall opt :: AliasedFrom(f0, opt, from) == AliasedFrom(f1, opt, from)
    ensures forall c :: SoptFrom(f0, c, from) == SoptFrom(f1, c, from)
    decreases |f0| - from
  {
    if from < |f0| {
      LookupsKept(f0, f1, from + 1);
      assert f1[from].(found := f0[from].found, args := f0[from].args) == f0[from];
      forall opt ensures IsAliased(f0[from], opt) == IsAliased(f1[from], opt) {
      }
      forall c ensures IsSopt(f0[from], c) == IsSopt(f1[from], c) {
      }
    }
  }

  /** The token `a` names flag `k` as the loop reads it: "--NAME" whose
      first match is `k`, or a cluster one of whose options has `k` as its
      first match. */
  predicate Names(flags: seq<FlagSpec>, a: Bytes, k: nat) {
    if |a| >= 2 && a[..2] == "--" then |a| > 2 && AliasedFrom(flags, a[2..], 0) == Some(k)
    else StartsDash(a) && exists j :: 1 <= j < |a| && SoptFrom(flags, a[j], 0) == Some(k)
  }

  /** Every option of a cluster that ends normally is known and has its
      flag marked found; the flags only grow. */
  lemma {:induction false} ClusterFinds(flags: seq<FlagSpec>, argv: seq<Bytes>, i: nat, j: nat)
    requires 1 <= i < |argv| && 1 <= j <= |argv[i]|
    ensures var v := ClusterStep(flags, argv, i, j); Grown(flags, v.flags)
    ensures var v := ClusterStep(flags, argv, i, j);
      v.st == Ok ==> forall m :: j <= m < |argv[i]| ==>
        argv[i][m] != 'h' && argv[i][m] != 'V' && SoptFrom(flags, argv[i][m], 0).Some?
        && v.flags[SoptFrom(flags, argv[i][m], 0).value].found
    decreases |argv[i]| - j
  {
    var a := argv[i];
    if j < |a| && a[j] != 'h' && a[j] != 'V' && SoptFrom(flags, a[j], 0).Some? {
      var k := SoptFrom(flags, a[j], 0).value;
      var f := flags[k := flags[k].(found := true)];
      ClusterStepKnown(flags, argv, i, j, k);
      assert Grown(flags, f);
      if j == |a| - 1 {
        var r := FlagArgs(f[k], argv, i + 1);
        assert Grown(f, f[k := r.flag]);
        GrownTrans(flags, f, f[k := r.flag]);
      } else if !(ArgKind(f[k]) != 0 && !Optional(f[k])) {
        ClusterFindsOn(flags, f, argv, i, j, k);
      }
    }
  }

  /** `ClusterFinds` past a known option that needs no argument. */
  lemma {:induction false} ClusterFindsOn(flags: seq<FlagSpec>, f: seq<FlagSpec>, argv: seq<Bytes>, i: nat, j: nat, k: nat)
    requires 1 <= i < |argv| && 1 <= j < |argv[i]| - 1
    requires argv[i][j] != 'h' && argv[i][j] != 'V' && SoptFrom(flags, argv[i][j], 0) == Some(k)
    requires f == flags[k := flags[k].(found := true)]
    requires ClusterStep(flags, argv, i, j) == ClusterStep(f, argv, i, j + 1)
    ensures var v := ClusterStep(flags, argv, i, j); Grown(flags, v.flags)
    ensures var v := ClusterStep(flags, argv, i, j);
      v.st == Ok ==> forall m :: j <= m < |argv[i]| ==>
        argv[i][m] != 'h' && argv[i][m] != 'V' && SoptFrom(flags, argv[i][m], 0).Some?
        && v.flags[SoptFrom(flags, argv[i][m], 0).value].found
    decreases |argv[i]| - j, 0
  {
    assert Grown(flags, f);
    ClusterFinds(f, argv, i, j + 1);
    LookupsKept(flags, f, 0);
    var v := ClusterStep(f, argv, i, j + 1);
    GrownTrans(flags, f, v.flags);
    assert k < |v.flags| && v.flags[k].found;
  }

  /** The exit that option `a[m]` of a cluster forces, or `Ok`: 0 for 'h'
      or 'V'; 1 for an unknown option, or for one before the last whose
      flag requires an argument. */
  function OptionFailure(flags: seq<FlagSpec>, a: Bytes, m: nat): (st: Status)
    requires m < |a|
    ensures st == Ok || st == Exit(0) || st == Exit(1)
  {
    if a[m] == 'h' || a[m] == 'V' then Exit(0)
    else match SoptFrom(flags, a[m], 0)
      case None => Exit(1)
      case Some(k) => if m < |a| - 1 && ArgKind(flags[k]) != 0 && !Optional(flags[k]) then Exit(1) else Ok
  }

  /** What an option forces depends only on the declarations. */
  lemma OptionFailureKept(f0: seq<FlagSpec>, f1: seq<FlagSpec>, a: Bytes, m: nat)
    requires Grown(f0, f1) && m < |a|
    ensures OptionFailure(f0, a, m) == OptionFailure(f1, a, m)
  {
    LookupsKept(f0, f1, 0);
    var k := SoptFrom(f0, a[m], 0);
    if k.Some? {
      assert f1[k.value].(found := f0[k.value].found, args := f0[k.value].args) == f0[k.value];
      assert f1[k.value].kind == f0[k.value].kind;
    }
  }

  /** Within a cluster, the first option that forces an exit decides the
      status: 0 for 'h' or 'V', 1 for an unknown option or for one before
      the last that requires an argument. */
  lemma {:induction false} ClusterFails(flags: seq<FlagSpec>, argv: seq<Bytes>, i: nat, j: nat, m: nat)
    requires 1 <= i < |argv| && 1 <= j <= m < |argv[i]|
    requires forall q :: j <= q < m ==> OptionFailure(flags, argv[i], q) == Ok
    ensures OptionFailure(flags, argv[i], m) != Ok ==>
      ClusterStep(flags, argv, i, j).st == OptionFailure(flags, argv[i], m)
    decreases m - j
  {
    var a := argv[i];
    if j < m {
      assert OptionFailure(flags, a, j) == Ok;
      var k := SoptFrom(flags, a[j], 0).value;
      var f := flags[k := flags[k].(found := true)];
      ClusterStepKnown(flags, argv, i, j, k);
      assert f[k].kind == flags[k].kind;
      assert ClusterStep(flags, argv, i, j) == ClusterStep(f, argv, i, j + 1);
      assert Grown(flags, f);
      forall q | j + 1 <= q < m
        ensures OptionFailure(f, a, q) == Ok
      {
        OptionFailureKept(flags, f, a, q);
      }
      ClusterFails(f, argv, i, j + 1, m);
      OptionFailureKept(flags, f, a, m);
    } else if a[m] != 'h' && a[m] != 'V' && SoptFrom(flags, a[m], 0).Some? {
      ClusterStepKnown(flags, argv, i, m, SoptFrom(flags, a[m], 0).value);
    }
  }

  /** A long option that ends normally was known, and its flag is found
      with the arguments read for it and no other flag changed; an unknown
      name exits with 1 and changes nothing. */
  lemma LongFinds(flags: seq<FlagSpec>, argv: seq<Bytes>, i: nat)
    requires 1 <= i < |argv| && |argv[i]| > 2
    ensures Grown(flags, LongStep(flags, argv, i).flags)
    ensures var v := LongStep(flags, argv, i);
      v.st == Ok ==> (AliasedFrom(flags, argv[i][2..], 0).Some?
        && v.flags[AliasedFrom(flags, argv[i][2..], 0).value].found)
    ensures var name := argv[i][2..]; var v := LongStep(flags, argv, i);
      name != "help" && name != "version" && AliasedFrom(flags, name, 0).None? ==>
        v.st == Exit(1) && v.flags == flags
    ensures var name := argv[i][2..]; var v := LongStep(flags, argv, i);
      name != "help" && name != "version" && AliasedFrom(flags, name, 0).Some? ==>
        var k := AliasedFrom(flags, name, 0).value;
        v.flags[k].found && v.flags[k].args == FlagArgs(flags[k].(found := true), argv, i + 1).flag.args
        && forall m :: 0 <= m < |flags| && m != k ==> v.flags[m] == flags[m]
  {
  }

  /** A pass that ends normally marks every flag its option token names,
      and the flags only grow. */
  lemma ArgStepFinds(flags: seq<FlagSpec>, pargs: seq<Bytes>, sep: bool, argv: seq<Bytes>, i: nat, noFlags: bool)
    requires 1 <= i < |argv|
    ensures Grown(flags, ArgStep(flags, pargs, sep, argv, i, noFlags).flags)
    ensures var p := ArgStep(flags, pargs, sep, argv, i, noFlags);
      p.st == Ok && !noFlags ==> forall k: nat :: Names(flags, argv[i], k) ==> k < |p.flags| && p.flags[k].found
  {
    var a := argv[i];
    if !noFlags && Prefix(a, "--") {
      assert a[..2] == "--";
      if |a| > 2 {
        LongFinds(flags, argv, i);
      }
    } else if !noFlags && Prefix(a, "-") {
      ClusterFinds(flags, argv, i, 1);
      assert !(|a| >= 2 && a[..2] == "--");
    } else if !noFlags {
      assert !(|a| >= 2 && a[..2] == "--");
      assert !StartsDash(a);
    }
  }

  /** Naming depends only on the declarations. */
  lemma NamesKept(f0: seq<FlagSpec>, f1: seq<FlagSpec>, a: Bytes, k: nat)
    requires Grown(f0, f1) && Names(f0, a, k)
    ensures Names(f1, a, k)
  {
    LookupsKept(f0, f1, 0);
    if !(|a| >= 2 && a[..2] == "--") {
      var j :| 1 <= j < |a| && SoptFrom(f0, a[j], 0) == Some(k);
      assert SoptFrom(f1, a[j], 0) == Some(k);
    }
  }

  /** One unfolding of `ParseAll` at a pass that ends normally. */
  lemma ParseAllUnfold(flags: seq<FlagSpec>, pargs: seq<Bytes>, sep: bool, argv: seq<Bytes>, i: nat, noFlags: bool, p: Pass)
    requires 1 <= i < |argv| && p == ArgStep(flags, pargs, sep, argv, i, noFlags) && p.st == Ok
    ensures var r := ParseAll(flags, pargs, sep, argv, i, noFlags);
      var rest := ParseAll(p.flags, p.pargs, sep, argv, p.next, p.noFlags);
      r.st == rest.st && r.flags == rest.flags && r.pargs == rest.pargs
      && r.options == (if !noFlags && StartsDash(argv[i]) && argv[i] != "--" then [i] else []) + rest.options
  {
  }

  /** Two parses end with the same status, flags and positional
      arguments. */
  predicate SameOutcome(r0: Parsed, r1: Parsed) {
    r0.st == r1.st && r0.flags == r1.flags && r0.pargs == r1.pargs
  }

  /** `ParseAll` at a pass that ends the parse. */
  lemma ParseAllStops(flags: seq<FlagSpec>, pargs: seq<Bytes>, sep: bool, argv: seq<Bytes>, i: nat, noFlags: bool, p: Pass)
    requires 1 <= i < |argv| && p == ArgStep(flags, pargs, sep, argv, i, noFlags) && p.st != Ok
    ensures var r := ParseAll(flags, pargs, sep, argv, i, noFlags);
      r.st == p.st && r.flags == p.flags && r.pargs == p.pargs
  {
  }

  /** After "--", or when no argument looks like an option, every
      remaining argument is positional. */
  lemma {:induction false} ParseAllPositional(flags: seq<FlagSpec>, pargs: seq<Bytes>, sep: bool, argv: seq<Bytes>, i: nat, noFlags: bool)
    requires 1 <= i <= |argv|
    requires noFlags || forall k :: i <= k < |argv| ==> !StartsDash(argv[k])
    ensures ParseAll(flags, pargs, sep, argv, i, noFlags) == Parsed(Ok, flags, pargs + argv[i..], [])
    decreases |argv| - i
  {
    if i == |argv| {
      assert pargs + argv[i..] == pargs;
    } else {
      var a := argv[i];
      if !noFlags {
        assert !Prefix(a, "-") && !Prefix(a, "--") && !StartsDash(a);
      }
      assert ArgStep(flags, pargs, sep, argv, i, noFlags) == Pass(Ok, flags, pargs + [a], i + 1, noFlags);
      ParseAllPositional(flags, pargs + [a], sep, argv, i + 1, noFlags);
      assert pargs + [a] + argv[i + 1..] == pargs + argv[i..];
    }
  }

  /** A leading "--" ends the options: the rest is positional, after a
      "--" of its own when the separator is on. */
  lemma ParseAllSeparator(flags: seq<FlagSpec>, pargs: seq<Bytes>, sep: bool, argv: seq<Bytes>)
    requires |argv| >= 2 && argv[1] == "--"
    ensures ParseAll(flags, pargs, sep, argv, 1, false)
      == Parsed(Ok, flags, pargs + (if sep then ["--"] else []) + argv[2..], [])
  {
    assert Prefix(argv[1], "--");
    var p := ArgStep(flags, pargs, sep, argv, 1, false);
    assert p == Pass(Ok, flags, pargs + (if sep then ["--"] else []), 2, true);
    ParseAllPositional(flags, p.pargs, sep, argv, 2, true);
  }

  /** "--help", "--version" or a cluster starting with 'h' or 'V' as the
      first argument exits with 0. */
  lemma ParseAllBuiltIn(flags: seq<FlagSpec>, pargs: seq<Bytes>, sep: bool, argv: seq<Bytes>)
    requires |argv| >= 2 && BuiltIn(argv[1])
    ensures ParseAll(flags, pargs, sep, argv, 1, false).st == Exit(0)
  {
    var a := argv[1];
    if a == "--help" || a == "--version" {
      assert Prefix(a, "--") && a[2..] in {"help", "version"};
    } else {
      assert Prefix(a, "-");
    }
  }

  /** Every flag that token `a` names in `f0` is found in `f`. */
  ghost predicate TokenFound(f0: seq<FlagSpec>, f: seq<FlagSpec>, a: Bytes) {
    forall k: nat :: Names(f0, a, k) ==> k < |f| && f[k].found
  }

  /** Every option token at one of `options` has its flags found. */
  ghost predicate FoundAll(f0: seq<FlagSpec>, f: seq<FlagSpec>, argv: seq<Bytes>, options: seq<nat>) {
    forall m :: 0 <= m < |options| && options[m] < |argv| ==> TokenFound(f0, f, argv[options[m]])
  }

  /** `FoundAll` over a concatenation of option lists. */
  lemma FoundAlong(f0: seq<FlagSpec>, f1: seq<FlagSpec>, f2: seq<FlagSpec>, argv: seq<Bytes>,
                   here: seq<nat>, opts: seq<nat>)
    requires Grown(f0, f1) && Grown(f1, f2)
    requires FoundAll(f0, f1, argv, here) && FoundAll(f1, f2, argv, opts)
    ensures FoundAll(f0, f2, argv, here + opts)
  {
    var all := here + opts;
    forall m | 0 <= m < |all| && all[m] < |argv|
      ensures TokenFound(f0, f2, argv[all[m]])
    {
      var a := argv[all[m]];
      if m < |here| {
        assert all[m] == here[m];
        assert TokenFound(f0, f1, a);
      } else {
        assert all[m] == opts[m - |here|];
        assert TokenFound(f1, f2, a);
        forall k: nat | Names(f0, a, k) ensures k < |f2| && f2[k].found {
          NamesKept(f0, f1, a, k);
        }
      }
    }
  }

  /** A parse that ends normally has found every flag named by an option
      token the loop interpreted, and the flags only grow. */
  lemma {:induction false} ParseAllFinds(flags: seq<FlagSpec>, pargs: seq<Bytes>, sep: bool, argv: seq<Bytes>, i: nat, noFlags: bool)
    requires 1 <= i <= |argv| + 1
    ensures Grown(flags, ParseAll(flags, pargs, sep, argv, i, noFlags).flags)
    ensures ParseAll(flags, pargs, sep, argv, i, noFlags).st == Ok ==>
      var r := ParseAll(flags, pargs, sep, argv, i, noFlags); FoundAll(flags, r.flags, argv, r.options)
    decreases |argv| + 1 - i
  {
    if i < |argv| {
      var p := ArgStep(flags, pargs, sep, argv, i, noFlags);
      ArgStepFinds(flags, pargs, sep, argv, i, noFlags);
      if p.st == Ok {
        ParseAllFinds(p.flags, p.pargs, sep, argv, p.next, p.noFlags);
        ParseAllUnfold(flags, pargs, sep, argv, i, noFlags, p);
        var rest := ParseAll(p.flags, p.pargs, sep, argv, p.next, p.noFlags);
        var here := if !noFlags && StartsDash(argv[i]) && argv[i] != "--" then [i] else [];
        if rest.st == Ok {
          FoundAlong(flags, p.flags, rest.flags, argv, here, rest.options);
        }
        GrownTrans(flags, p.flags, rest.flags);
      }
    }
  }

  /** The argument `a` can mark flag `f` as found: `--` and one of its long
      names, or a cluster of short options containing its short option. */
  predicate NamedBy(f: FlagSpec, a: Bytes) {
    (|a| >= 2 && a[..2] == "--" && IsAliased(f, a[2..]))
    || (StartsDash(a) && exists j :: 1 <= j < |a| && IsSopt(f, a[j]))
  }

  /** How the flag list may change while argv is parsed: the declarations
      stay, a found flag stays found, and a flag newly found was named by
      some argument. */
  predicate Evolved(f0: seq<FlagSpec>, f1: seq<FlagSpec>, argv: seq<Bytes>) {
    |f1| == |f0|
    && (forall k :: 0 <= k < |f0| ==> f1[k].(found := f0[k].found, args := f0[k].args) == f0[k])
    && (forall k :: 0 <= k < |f0| ==> f0[k].found ==> f1[k].found)
    && (forall k :: 0 <= k < |f0| ==> f1[k].found && !f0[k].found ==>
          exists j :: 1 <= j < |argv| && NamedBy(f1[k], argv[j]))
  }

  lemma EvolvedTrans(f0: seq<FlagSpec>, f1: seq<FlagSpec>, f2: seq<FlagSpec>, argv: seq<Bytes>)
    requires Evolved(f0, f1, argv) && Evolved(f1, f2, argv)
    ensures Evolved(f0, f2, argv)
  {
    forall k | 0 <= k < |f0| && f2[k].found && !f0[k].found
      ensures exists j :: 1 <= j < |argv| && NamedBy(f2[k], argv[j])
    {
      if !f1[k].found {
        assert exists j :: 1 <= j < |argv| && NamedBy(f2[k], argv[j]);
      } else {
        var j :| 1 <= j < |argv| && NamedBy(f1[k], argv[j]);
        assert f2[k].(found := f1[k].found, args := f1[k].args) == f1[k];
        NamedByDeclared(f1[k], f2[k], argv[j]);
      }
    }
  }

  /** Naming depends only on the declaration. */
  lemma NamedByDeclared(f: FlagSpec, g: FlagSpec, a: Bytes)
    requires g.(found := f.found, args := f.args) == f && NamedBy(f, a)
    ensures NamedBy(g, a)
  {
    if !(|a| >= 2 && a[..2] == "--" && IsAliased(f, a[2..])) {
      var j :| 1 <= j < |a| && IsSopt(f, a[j]);
      assert IsSopt(g, a[j]);
    }
  }

  /** Positional arguments only grow, and what is added is "--" or an
      argument from argv. */
  predicate PargsGrew(p0: seq<Bytes>, p1: seq<Bytes>, argv: seq<Bytes>) {
    |p0| <= |p1| && p1[..|p0|] == p0
    && forall k :: |p0| <= k < |p1| ==> p1[k] == "--" || exists j :: 1 <= j < |argv| && p1[k] == argv[j]
  }

  lemma PargsGrewTrans(p0: seq<Bytes>, p1: seq<Bytes>, p2: seq<Bytes>, argv: seq<Bytes>)
    requires PargsGrew(p0, p1, argv) && PargsGrew(p1, p2, argv)
    ensures PargsGrew(p0, p2, argv)
  {
    assert p2[..|p0|] == p1[..|p1|][..|p0|];
    forall k | |p0| <= k < |p2|
      ensures p2[k] == "--" || exists j :: 1 <= j < |argv| && p2[k] == argv[j]
    {
      if k < |p1| {
        assert p2[k] == p1[k];
      }
    }
  }

  lemma PargsPush(p0: seq<Bytes>, p1: seq<Bytes>, argv: seq<Bytes>, a: Bytes)
    requires PargsGrew(p0, p1, argv)
    requires a == "--" || exists j :: 1 <= j < |argv| && a == argv[j]
    ensures PargsGrew(p0, p1 + [a], argv)
  {
    assert (p1 + [a])[..|p0|] == p1[..|p0|];
    forall k | |p0| <= k < |p1| + 1
      ensures (p1 + [a])[k] == "--" || exists j :: 1 <= j < |argv| && (p1 + [a])[k] == argv[j]
    {
      if k < |p1| {
        assert (p1 + [a])[k] == p1[k];
      }
    }
  }

  /** No argument after the program name looks like an option. */
  predicate NoOptions(argv: seq<Bytes>) {
    forall k :: 1 <= k < |argv| ==> !StartsDash(argv[k])
  }

  /** An argument that prints help or the version and exits: "--help",
      "--version", or a short cluster starting with 'h' or 'V'. */
  predicate BuiltIn(a: Bytes) {
    a == "--help" || a == "--version" || (|a| >= 2 && a[0] == '-' && (a[1] == 'h' || a[1] == 'V'))
  }

  /** A C string: no NUL inside. */
  predicate CString(a: Bytes) {
    '\0' !in a
  }

  /** What a command spec (after its '-') does to the context:
      `separator…` turns on the separator; `alias:FLAG:A,B,…` appends the
      aliases to the first flag with long option FLAG, and is an error when
      there is none or an alias is empty; `group:NAME:DESC` appends the
      pair; anything else changes nothing. */
  ghost predicate CmdEffect(sep0: bool, flags0: seq<FlagSpec>, gd0: seq<Bytes>, spec: Bytes, st: Status,
                      sep1: bool, flags1: seq<FlagSpec>, gd1: seq<Bytes>) {
    (st == Ok || st == Exit(1))
    && (Prefix(spec, "separator") ==> st == Ok && sep1 && flags1 == flags0 && gd1 == gd0)
    && (!Prefix(spec, "separator") && Prefix(spec, "alias") ==>
        sep1 == sep0 && gd1 == gd0 && AliasEffect(flags0, spec, st, flags1))
    && (!Prefix(spec, "separator") && !Prefix(spec, "alias") && Prefix(spec, "group") ==>
        st == Ok && sep1 == sep0 && flags1 == flags0 && gd1 == gd0 + GroupEntry(spec))
    && (!Prefix(spec, "separator") && !Prefix(spec, "alias") && !Prefix(spec, "group") ==>
        st == Ok && sep1 == sep0 && flags1 == flags0 && gd1 == gd0)
  }

  /** The `alias:FLAG:A,B,…` command: Ok exactly when some flag has long
      option FLAG and every alias is non-empty, and then the first such
      flag has the aliases appended. */
  ghost predicate AliasEffect(flags0: seq<FlagSpec>, spec: Bytes, st: Status, flags1: seq<FlagSpec>) {
    var afterCmd := ChopByDelim(spec, ':').rest;
    var name := ChopByDelim(afterCmd, ':');
    var aliases := Aliases(name.rest);
    (st == Ok || st == Exit(1))
    && (st == Ok <==> aliases.Some? && exists i: nat :: FirstLopt(flags0, name.taken, i))
    && (st == Ok ==> aliases.Some? && exists i: nat ::
          FirstLopt(flags0, name.taken, i)
          && flags1 == flags0[i := flags0[i].(aliases := flags0[i].aliases + aliases.value)])
  }

  /** The name and type-delimiter step of `cbuild_flag_new`. */
  method ChopHead(spec: Bytes) returns (h: Option<(FlagSpec, Bytes)>)
    ensures h == Head(spec)
  {
    var isDelim := (sv: Bytes, i: nat) => FirstDelimAt(sv, i);
    var c := ChopByFunc(spec, isDelim);
    var i := FirstDelim(spec);
    if i < |spec| {
      assert isDelim(spec, i);
      assert |c.taken| == i;
    } else {
      assert forall j :: 0 <= j < |spec| ==> !isDelim(spec, j);
      assert c.taken == spec;
    }
    var name := c.taken;
    var typeDelim: Byte := if |name| < |spec| then spec[|name|] else '\0';
    var rest := c.rest;
    var s := Blank.(opt := name);
    if typeDelim == '\t' {
      if |rest| < 2 {
        return None;
      }
      s := s.(kind := SetType(s.kind, 1), sopt := rest[0]);
      if rest[1] != '\t' {
        return None;
      }
      rest := rest[2..];
    } else if typeDelim != '\n' {
      return None;
    }
    // SET_TYPE(0b00) ORs in nothing
    return Some((s, rest));
  }

  /** The library's static flag context. */
  class FlagContext {
    /** Bit 0 of the context metadata: push "--" to the positional
        arguments when it ends the options. */
    var separator: bool
    var appName: Bytes
    /** Group name and description pairs, flattened. */
    var groupDesc: seq<Bytes>
    var pargs: seq<Bytes>
    var flags: seq<FlagSpec>

    /** The zero-initialised static context. */
    constructor ()
      ensures !separator && appName == [] && groupDesc == [] && pargs == [] && flags == []
    {
      separator := false;
      appName := [];
      groupDesc := [];
      pargs := [];
      flags := [];
    }

    /** `__cbuild_int_flag_parse_cmd`: a command spec after its '-'.
        `separator…` turns on the separator, `alias:FLAG:A,B,…` adds aliases
        to the flag with long option FLAG, `group:NAME:DESC` records a group;
        anything else is ignored. */
    method ParseCmd(spec: Bytes) returns (st: Status)
      modifies this`separator, this`flags, this`groupDesc
      ensures CmdEffect(old(separator), old(flags), old(groupDesc), spec, st, separator, flags, groupDesc)
    {
      if Prefix(spec, "separator") {
        separator := true;
        return Ok;
      } else if Prefix(spec, "alias") {
        st := ParseAlias(spec);
        return;
      } else if Prefix(spec, "group") {
        var afterCmd := ChopByDelim(spec, ':').rest;
        var g := ChopByDelim(afterCmd, ':');
        groupDesc := groupDesc + [g.taken, g.rest];
        return Ok;
      }
      return Ok;
    }

    /** The alias branch of `__cbuild_int_flag_parse_cmd`. */
    method ParseAlias(spec: Bytes) returns (st: Status)
      modifies this`flags
      ensures AliasEffect(old(flags), spec, st, flags)
    {
      var afterCmd := ChopByDelim(spec, ':').rest;
      var name := ChopByDelim(afterCmd, ':');
      var found := GetLopt(flags, name.taken);
      if found.None? {
        return Exit(1);
      }
      var i := found.value;
      var added, ok := SplitAliases(name.rest);
      if !ok {
        return Exit(1);
      }
      flags := flags[i := flags[i].(aliases := flags[i].aliases + added)];
      return Ok;
    }

    /** `cbuild_flag_new`: a command, or a flag declaration appended to the
        flag list. */
    method FlagNew(spec: Bytes) returns (st: Status)
      modifies this`separator, this`flags, this`groupDesc
      ensures st == Ok || st == Exit(1)
      ensures IsCommand(spec) ==>
        CmdEffect(old(separator), old(flags), old(groupDesc), spec[1..], st, separator, flags, groupDesc)
      ensures !IsCommand(spec) ==>
        separator == old(separator) && groupDesc == old(groupDesc)
        && (st == Ok <==> Declare(spec).Some?)
        && (st == Ok ==> flags == old(flags) + [Declare(spec).value])
    {
      if IsCommand(spec) {
        st := ParseCmd(spec[1..]);
        return;
      }
      var h := ChopHead(spec);
      if h.None? {
        return Exit(1);
      }
      var s, rest := h.value.0, h.value.1;
      var m, description := ParseMetadataSpec(s, rest);
      if m.None? {
        return Exit(1);
      }
      var f := m.value.(description := description, found := false, args := []);
      assert Some(f) == Declare(spec) by {
        MetadataKeeps(s, rest);
        assert f == m.value.(description := description);
      }
      flags := flags + [f];
      return Ok;
    }

    /** `cbuild_flag_parse`: walks argv from index 1. Long options start with
        "--" (a bare "--" ends the options), clusters of short options with
        '-' (a bare "-" is positional), and everything else is positional.
        Each flag found is marked and its arguments are read by
        `ParseFlagArgs`. */
    method FlagParse(argv: seq<Bytes>) returns (st: Status)
      requires |argv| >= 1 && forall k :: 0 <= k < |argv| ==> CString(argv[k])
      modifies this`appName, this`flags, this`pargs
      ensures appName == argv[0]
      ensures st == Ok || st == Exit(0) || st == Exit(1)
      ensures Evolved(old(flags), flags, argv)
      ensures PargsGrew(old(pargs), pargs, argv)
      ensures NoOptions(argv) ==> st == Ok && flags == old(flags) && pargs == old(pargs) + argv[1..]
      ensures |argv| >= 2 && argv[1] == "--" ==>
        st == Ok && flags == old(flags)
        && pargs == old(pargs) + (if separator then ["--"] else []) + argv[2..]
      ensures |argv| >= 2 && BuiltIn(argv[1]) ==> st == Exit(0)
      ensures var r := ParseAll(old(flags), old(pargs), separator, argv, 1, false);
        st == r.st && flags == r.flags && pargs == r.pargs
      ensures st == Ok ==> FoundAll(old(flags), flags, argv, ParseAll(old(flags), old(pargs), separator, argv, 1, false).options)
    {
      appName := argv[0];
      ghost var f0, p0 := flags, pargs;
      ParseAllFinds(f0, p0, separator, argv, 1, false);
      if NoOptions(argv) {
        ParseAllPositional(f0, p0, separator, argv, 1, false);
      }
      if |argv| >= 2 && argv[1] == "--" {
        ParseAllSeparator(f0, p0, separator, argv);
      }
      if |argv| >= 2 && BuiltIn(argv[1]) {
        ParseAllBuiltIn(f0, p0, separator, argv);
      }
      var noFlags := false;
      var i := 1;
      st := Ok;
      ghost var r0 := ParseAll(f0, p0, separator, argv, 1, false);
      while i < |argv| && st == Ok
        invariant 1 <= i <= |argv| + 1
        invariant appName == argv[0]
        invariant Evolved(f0, flags, argv) && PargsGrew(p0, pargs, argv)
        invariant i == 1 ==> st == Ok && !noFlags && flags == f0 && pargs == p0
        invariant st == Ok || st == Exit(0) || st == Exit(1)
        invariant st == Ok ==> SameOutcome(r0, ParseAll(flags, pargs, separator, argv, i, noFlags))
        invariant st != Ok ==> r0.st == st && r0.flags == flags && r0.pargs == pargs
        decreases |argv| + 1 - i
      {
        ghost var f1, p1, noFlags0 := flags, pargs, noFlags;
        var next;
        st, next, noFlags := ParseArg(argv, i, noFlags);
        EvolvedTrans(f0, f1, flags, argv);
        PargsGrewTrans(p0, p1, pargs, argv);
        if st != Ok {
          ParseAllStops(f1, p1, separator, argv, i, noFlags0, Pass(st, flags, pargs, next, noFlags));
        } else {
          ParseAllUnfold(f1, p1, separator, argv, i, noFlags0, Pass(st, flags, pargs, next, noFlags));
        }
        i := next;
      }
    }

    /** One pass of the loop of `cbuild_flag_parse` at `argv[i]`: the status,
        the index the loop continues from, and whether options have ended. */
    method ParseArg(argv: seq<Bytes>, i: nat, noFlags: bool) returns (st: Status, next: nat, noFlags': bool)
      requires 1 <= i < |argv| && CString(argv[i])
      modifies this`flags, this`pargs
      ensures st == Ok || st == Exit(0) || st == Exit(1)
      ensures i < next <= |argv| + 1
      ensures noFlags' == (noFlags || argv[i] == "--")
      ensures Evolved(old(flags), flags, argv)
      ensures PargsGrew(old(pargs), pargs, argv)
      ensures noFlags || !StartsDash(argv[i]) ==>
        st == Ok && next == i + 1 && flags == old(flags) && pargs == old(pargs) + [argv[i]]
      ensures !noFlags && argv[i] == "--" ==>
        st == Ok && next == i + 1 && flags == old(flags)
        && pargs == old(pargs) + (if separator then ["--"] else [])
      ensures !noFlags && BuiltIn(argv[i]) ==> st == Exit(0)
      ensures ArgStep(old(flags), old(pargs), separator, argv, i, noFlags) == Pass(st, flags, pargs, next, noFlags')
    {
      var arg := argv[i];
      noFlags' := noFlags;
      if !noFlags && Prefix(arg, "--") {
        if |arg| == 2 {
          assert arg == "--";
          noFlags' := true;
          if separator {
            PargsPush(pargs, pargs, argv, "--");
            pargs := pargs + ["--"];
          }
          return Ok, i + 1, noFlags';
        }
        st, next := LongFlag(argv, i);
      } else if !noFlags && Prefix(arg, "-") {
        assert StartsDash(arg);
        if |arg| == 1 {
          PargsPush(pargs, pargs, argv, arg);
          pargs := pargs + [arg];
        }
        st, next := ShortFlags(argv, i);
      } else {
        PargsPush(pargs, pargs, argv, arg);
        pargs := pargs + [arg];
        return Ok, i + 1, noFlags';
      }
    }

    /** `spec->found = true` for the flag at `k`, named by `argv[j]`. */
    method MarkFound(k: nat, argv: seq<Bytes>, j: nat)
      requires k < |flags| && 1 <= j < |argv| && NamedBy(flags[k], argv[j])
      modifies this`flags
      ensures flags == old(flags)[k := old(flags)[k].(found := true)]
      ensures Evolved(old(flags), flags, argv)
    {
      flags := flags[k := flags[k].(found := true)];
      assert NamedBy(flags[k], argv[j]) by {
        NamedByDeclared(old(flags)[k], flags[k], argv[j]);
      }
    }

    /** `__cbuild_int_parse_flag_args` on the flag at `k`, storing what it
        read. */
    method ReadArgs(k: nat, argv: seq<Bytes>, ptr: nat) returns (st: Status, last: nat)
      requires k < |flags| && 1 <= ptr <= |argv|
      modifies this`flags
      ensures st == Ok || st == Exit(1)
      ensures ptr - 1 <= last <= |argv|
      ensures Evolved(old(flags), flags, argv)
      ensures FlagArgs(old(flags)[k], argv, ptr) == ArgsRead(st, flags[k], last)
      ensures flags == old(flags)[k := flags[k]]
    {
      var r;
      st, r, last := ParseFlagArgs(flags[k], argv, ptr);
      flags := flags[k := r];
    }

    /** `spec->found = true` for the flag at `k`, named by `argv[j]`, and
        then `__cbuild_int_parse_flag_args` from `argv[j + 1]`. */
    method FoundWithArgs(k: nat, argv: seq<Bytes>, j: nat) returns (st: Status, last: nat)
      requires k < |flags| && 1 <= j < |argv| && NamedBy(flags[k], argv[j])
      modifies this`flags
      ensures Evolved(old(flags), flags, argv)
      ensures var a := FlagArgs(old(flags)[k].(found := true), argv, j + 1);
        st == a.st && last == a.last && flags == old(flags)[k := a.flag]
    {
      MarkFound(k, argv, j);
      ghost var f1 := flags;
      st, last := ReadArgs(k, argv, j + 1);
      EvolvedTrans(old(flags), f1, flags, argv);
      assert flags == f1[k := flags[k]];
    }

    /** One long option `argv[i]` ("--NAME", NAME not empty): help and version
        exit with 0, an unknown NAME with 1; otherwise the first flag it
        names is marked found and reads its arguments. Returns the index
        after the last argument consumed. */
    method LongFlag(argv: seq<Bytes>, i: nat) returns (st: Status, next: nat)
      requires 1 <= i < |argv| && |argv[i]| > 2 && Prefix(argv[i], "--")
      modifies this`flags
      ensures st == Ok || st == Exit(0) || st == Exit(1)
      ensures argv[i] == "--help" || argv[i] == "--version" ==> st == Exit(0)
      ensures Evolved(old(flags), flags, argv)
      ensures i < next <= |argv| + 1
      ensures LongStep(old(flags), argv, i) == Visit(st, flags, next)
    {
      var name := argv[i][2..];
      ghost var builtIn := argv[i] == "--help" || argv[i] == "--version";
      assert builtIn <==> name == "help" || name == "version" by {
        assert argv[i] == "--" + name;
      }
      if Cmp(name, "help") == 0 || Cmp(name, "version") == 0 {
        assert LongStep(flags, argv, i) == Visit(Exit(0), flags, i + 1);
        return Exit(0), i + 1;
      }
      var found := GetLoptAliased(flags, name);
      if found.None? {
        assert LongStep(flags, argv, i) == Visit(Exit(1), flags, i + 1);
        return Exit(1), i + 1;
      }
      var k := found.value;
      assert NamedBy(flags[k], argv[i]) by { assert argv[i][..2] == "--"; }
      var last;
      st, last := FoundWithArgs(k, argv, i);
      next := last + 1;
      LongStepKnown(old(flags), argv, i, k);
    }

    /** One cluster of short options `argv[i]` ("-abc"): 'h' and 'V' exit
        with 0 and an unknown option with 1; each known option is marked
        found. Only the last one of the cluster reads arguments; an earlier
        one that requires an argument is an error. */
    method ShortFlags(argv: seq<Bytes>, i: nat) returns (st: Status, next: nat)
      requires 1 <= i < |argv| && StartsDash(argv[i]) && CString(argv[i])
      modifies this`flags
      ensures st == Ok || st == Exit(0) || st == Exit(1)
      ensures |argv[i]| >= 2 && (argv[i][1] == 'h' || argv[i][1] == 'V') ==> st == Exit(0)
      ensures Evolved(old(flags), flags, argv)
      ensures i < next <= |argv| + 1
      ensures ClusterStep(old(flags), argv, i, 1) == Visit(st, flags, next)
    {
      ghost var f0 := flags;
      var j := 1;
      var stop := false;
      st, next := Ok, i + 1;
      while j < |argv[i]| && !stop
        invariant 1 <= j <= |argv[i]|
        invariant Evolved(f0, flags, argv)
        invariant stop ==> ClusterStep(f0, argv, i, 1) == Visit(st, flags, next)
        invariant !stop ==> ClusterStep(f0, argv, i, 1) == ClusterStep(flags, argv, i, j) && st == Ok && next == i + 1
        decreases |argv[i]| - j
      {
        ghost var f1 := flags;
        st, next, stop := ClusterOption(argv, i, j);
        EvolvedTrans(f0, f1, flags, argv);
        j := j + 1;
      }
    }

    /** The option `argv[i][j]` of a cluster: whether the cluster ends
        here, and how, or goes on with the next option. */
    method ClusterOption(argv: seq<Bytes>, i: nat, j: nat) returns (st: Status, next: nat, stop: bool)
      requires 1 <= i < |argv| && StartsDash(argv[i]) && CString(argv[i]) && 1 <= j < |argv[i]|
      modifies this`flags
      ensures Evolved(old(flags), flags, argv)
      ensures stop ==> ClusterStep(old(flags), argv, i, j) == Visit(st, flags, next)
      ensures !stop ==> ClusterStep(old(flags), argv, i, j) == ClusterStep(flags, argv, i, j + 1)
                        && st == Ok && next == i + 1
    {
      var c := argv[i][j];
      if c == 'h' || c == 'V' {
        return Exit(0), i + 1, true;
      }
      var found := GetSopt(flags, c);
      if found.None? {
        return Exit(1), i + 1, true;
      }
      var k := found.value;
      assert NamedBy(flags[k], argv[i]) by { assert IsSopt(flags[k], argv[i][j]); }
      ClusterStepKnown(flags, argv, i, j, k);
      if j == |argv[i]| - 1 {
        var last;
        st, last := FoundWithArgs(k, argv, i);
        return st, if st == Ok then last + 1 else i + 1, true;
      }
      MarkFound(k, argv, i);
      if ArgKind(flags[k]) != 0 && !Optional(flags[k]) {
        return Exit(1), i + 1, true;
      }
      return Ok, i + 1, false;
    }

    /** `cbuild_flag_get_pargs`. */
    function GetPargs(): (r: seq<Bytes>)
      reads this
      ensures r == pargs
    {
      pargs
    }

    /** `cbuild_flag_get_flag`: the arguments of the flag with long option
        `opt` (aliases are not consulted), or None when there is no such
        flag or it was not found on the command line. */
    method GetFlag(opt: Bytes) returns (r: Option<seq<Bytes>>)
      ensures r.Some? <==> exists i: nat :: FirstLopt(flags, opt, i) && flags[i].found
      ensures forall i: nat :: FirstLopt(flags, opt, i) && flags[i].found ==> r == Some(flags[i].args)
    {
      var found := GetLopt(flags, opt);
      if found.None? || !flags[found.value].found {
        return None;
      }
      return Some(flags[found.value].args);
    }
  }

  /** The alias loop of the `alias` command: a do-while that chops at ','
      until the view is empty, refusing an empty alias. */
  method SplitAliases(s0: Bytes) returns (added: seq<Bytes>, ok: bool)
    ensures ok <==> Aliases(s0).Some?
    ensures ok ==> added == Aliases(s0).value
  {
    var spec := s0;
    added := [];
    var more := true;
    assert Prepend([], Aliases(s0)) == Aliases(s0) by {
      if Aliases(s0).Some? { assert [] + Aliases(s0).value == Aliases(s0).value; }
    }
    while more
      invariant more ==> Aliases(s0) == Prepend(added, Aliases(spec))
      invariant !more ==> Aliases(s0) == Some(added)
      decreases |spec| + (if more then 1 else 0)
    {
      var c := ChopByDelim(spec, ',');
      AliasesUnfold(spec, c);
      if c.taken == [] {
        return [], false;
      }
      PrependSnoc(added, c.taken, Aliases(c.rest));
      added := added + [c.taken];
      spec := c.rest;
      more := |spec| > 0;
    }
    ok := true;
  }
}
