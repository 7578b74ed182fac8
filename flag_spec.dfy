/** The flag-spec language of cbuild.h's FlagParse: the bit-packed type word
    of a flag and the metadata section (`arg=…;len=…;thint=…;tdelim=…;group=…`)
    that fills it in. */
module FlagSpecs {
  import opened Wrappers
  import opened Bytes
  import opened StringView
  import opened Numbers

  /** The type word. Bits 0-1: type (0 long option only, 1 long and short).
      Bits 2-4: argument kind (0 none, 1 one argument, 2 list, 3 list with a
      terminator). Bit 5: argument optional. Bits 16-23: list length
      (0 = any). Bits 24-31: list terminator byte. Each setter ORs the
      masked value into its field, as the SET macros do. */
  function SetType(w: bv32, v: bv32): bv32 { w | ((v & 3) << 0) }
  function SetArgt(w: bv32, v: bv32): bv32 { w | ((v & 7) << 2) }
  function SetArgo(w: bv32, v: bv32): bv32 { w | ((v & 1) << 5) }
  function SetPrm1(w: bv32, v: bv32): bv32 { w | ((v & 255) << 16) }
  function SetPrm2(w: bv32, v: bv32): bv32 { w | ((v & 255) << 24) }

  function GetType(w: bv32): (r: bv32) ensures r <= 3 { (w >> 0) & 3 }
  function GetArgt(w: bv32): (r: bv32) ensures r <= 7 { (w >> 2) & 7 }
  function GetArgo(w: bv32): (r: bv32) ensures r <= 1 { (w >> 5) & 1 }
  function GetPrm1(w: bv32): (r: bv32) ensures r <= 255 { (w >> 16) & 255 }
  function GetPrm2(w: bv32): (r: bv32) ensures r <= 255 { (w >> 24) & 255 }

  /** Each setter ORs into its own field and leaves every other field alone. */
  lemma SetTypeFields(w: bv32, v: bv32)
    ensures GetType(SetType(w, v)) == GetType(w) | (v & 3)
    ensures GetArgt(SetType(w, v)) == GetArgt(w) && GetArgo(SetType(w, v)) == GetArgo(w)
    ensures GetPrm1(SetType(w, v)) == GetPrm1(w) && GetPrm2(SetType(w, v)) == GetPrm2(w)
  {
  }

  lemma SetArgtFields(w: bv32, v: bv32)
    ensures GetArgt(SetArgt(w, v)) == GetArgt(w) | (v & 7)
    ensures GetType(SetArgt(w, v)) == GetType(w) && GetArgo(SetArgt(w, v)) == GetArgo(w)
    ensures GetPrm1(SetArgt(w, v)) == GetPrm1(w) && GetPrm2(SetArgt(w, v)) == GetPrm2(w)
  {
  }

  lemma SetArgoFields(w: bv32, v: bv32)
    ensures GetArgo(SetArgo(w, v)) == GetArgo(w) | (v & 1)
    ensures GetType(SetArgo(w, v)) == GetType(w) && GetArgt(SetArgo(w, v)) == GetArgt(w)
    ensures GetPrm1(SetArgo(w, v)) == GetPrm1(w) && GetPrm2(SetArgo(w, v)) == GetPrm2(w)
  {
  }

  lemma SetPrm1Fields(w: bv32, v: bv32)
    ensures GetPrm1(SetPrm1(w, v)) == GetPrm1(w) | (v & 255)
    ensures GetType(SetPrm1(w, v)) == GetType(w) && GetArgt(SetPrm1(w, v)) == GetArgt(w)
    ensures GetArgo(SetPrm1(w, v)) == GetArgo(w) && GetPrm2(SetPrm1(w, v)) == GetPrm2(w)
  {
  }

  lemma SetPrm2Fields(w: bv32, v: bv32)
    ensures GetPrm2(SetPrm2(w, v)) == GetPrm2(w) | (v & 255)
    ensures GetType(SetPrm2(w, v)) == GetType(w) && GetArgt(SetPrm2(w, v)) == GetArgt(w)
    ensures GetArgo(SetPrm2(w, v)) == GetArgo(w) && GetPrm1(SetPrm2(w, v)) == GetPrm1(w)
  {
  }

  /** On a fresh word each setter stores its masked value, so a getter reads
      back exactly what was set. */
  lemma FreshWordRoundTrip(v: bv32)
    ensures GetType(SetType(0, v)) == v & 3 && GetArgt(SetArgt(0, v)) == v & 7
    ensures GetArgo(SetArgo(0, v)) == v & 1
    ensures GetPrm1(SetPrm1(0, v)) == v & 255 && GetPrm2(SetPrm2(0, v)) == v & 255
  {
  }

  /** One registered flag (`struct __cbuild_int_flag_spec_t`). `found` and
      `args` are the state the argv parser fills in. */
  datatype FlagSpec = FlagSpec(
    kind: bv32, sopt: Byte, found: bool, aliases: seq<Bytes>, opt: Bytes,
    description: Bytes, typeHint: Bytes, groupName: Bytes, args: seq<Bytes>)

  /** The zero-initialised spec `cbuild_flag_new` starts from. */
  const Blank := FlagSpec(0, '\0', false, [], [], [], [], [], [])

  function ArgKind(s: FlagSpec): bv32 { GetArgt(s.kind) }
  predicate Optional(s: FlagSpec) { GetArgo(s.kind) == 1 }

  /** A spec's text fields and type word, everything but the parse state. */
  function Declared(s: FlagSpec): FlagSpec { s.(found := false, args := []) }

  /** The byte that `data[0]` of an empty view reads inside a C string: the
      first byte after it, or the terminating NUL. */
  function FirstOr(s: Bytes): Byte {
    if s != [] then s[0] else '\0'
  }

  /** The keys a metadata entry may have. */
  predicate KnownKey(key: Bytes) {
    key == "arg" || key == "len" || key == "thint" || key == "tdelim" || key == "group"
  }

  /** The argument kind an `arg=` value names: a prefix `arg`, `list` or
      `tlist`, else nothing. */
  function ArgtOf(opt: Bytes): (v: bv32)
    ensures v <= 3
  {
    if Prefix(opt, "arg") then 1 else if Prefix(opt, "list") then 2
    else if Prefix(opt, "tlist") then 3 else 0
  }

  /** A trailing `?` marks the argument optional. On an empty value the C
      code reads the byte before it, the `=` or the last byte of the key,
      which is never `?`. */
  function ArgoOf(opt: Bytes): (v: bv32)
    ensures v <= 1
  {
    if opt != [] && opt[|opt| - 1] == '?' then 1 else 0
  }

  /** The type word after an `arg=` entry. */
  function ArgWord(w: bv32, argt: bv32, argo: bv32): (t: bv32)
    requires argt <= 3 && argo <= 1
    ensures GetArgt(t) == GetArgt(w) | argt && GetArgo(t) == GetArgo(w) | argo
    ensures GetType(t) == GetType(w) && GetPrm1(t) == GetPrm1(w) && GetPrm2(t) == GetPrm2(w)
  {
    SetArgtFields(w, argt);
    SetArgoFields(SetArgt(w, argt), argo);
    SetArgo(SetArgt(w, argt), argo)
  }

  /** The type word after a `len=` or `tdelim=` entry: the value is stored
      modulo 256, which is what `(unsigned int)` followed by `& 255` does. */
  function LenWord(w: bv32, n: int): (t: bv32)
    ensures GetPrm1(t) == GetPrm1(w) | ((n % 256) as bv32)
    ensures GetType(t) == GetType(w) && GetArgt(t) == GetArgt(w) && GetArgo(t) == GetArgo(w)
    ensures GetPrm2(t) == GetPrm2(w)
  {
    var v := (n % 256) as bv32;
    SetPrm1Fields(w, v);
    assert v & 255 == v;
    SetPrm1(w, v)
  }

  function DelimWord(w: bv32, c: Byte): (t: bv32)
    ensures GetPrm2(t) == GetPrm2(w) | (c as bv32)
    ensures GetType(t) == GetType(w) && GetArgt(t) == GetArgt(w) && GetArgo(t) == GetArgo(w)
    ensures GetPrm1(t) == GetPrm1(w)
  {
    var v := c as bv32;
    SetPrm2Fields(w, v);
    assert v & 255 == v;
    SetPrm2(w, v)
  }

  /** `__cbuild_int_flag_parse_metadata_entry` after the entry is split at
      its first '=' into `key` and `opt`; `tail` is the rest of the spec
      string after the entry, which `atoi` and `opt.data[0]` see because a
      view points into it. An unknown key is a syntax error (None: the
      program exits with 1). */
  function ApplyEntry(s: FlagSpec, key: Bytes, opt: Bytes, tail: Bytes): (r: Option<FlagSpec>)
    ensures r.Some? <==> KnownKey(key)
    ensures r.Some? ==> r.value.(kind := s.kind, typeHint := s.typeHint, groupName := s.groupName) == s
    ensures r.Some? ==> GetType(r.value.kind) == GetType(s.kind)
  {
    if key == "arg" then Some(s.(kind := ArgWord(s.kind, ArgtOf(opt), ArgoOf(opt))))
    else if key == "len" then Some(s.(kind := LenWord(s.kind, Atoi(opt + tail))))
    else if key == "thint" then Some(s.(typeHint := opt))
    else if key == "tdelim" then Some(s.(kind := DelimWord(s.kind, FirstOr(opt + tail))))
    else if key == "group" then Some(s.(groupName := opt))
    else None
  }

  /** An `arg=` entry ORs the kind its value names into the argument-kind
      field and a trailing `?` into the optional bit; the list fields stay. */
  lemma ArgEntryEffect(s: FlagSpec, opt: Bytes, tail: Bytes)
    ensures ApplyEntry(s, "arg", opt, tail).Some?
    ensures var r := ApplyEntry(s, "arg", opt, tail).value;
      GetArgt(r.kind) == GetArgt(s.kind) | ArgtOf(opt) && GetArgo(r.kind) == GetArgo(s.kind) | ArgoOf(opt)
      && GetPrm1(r.kind) == GetPrm1(s.kind) && GetPrm2(r.kind) == GetPrm2(s.kind)
  {
  }

  /** A `len=` entry ORs `atoi` of its value, modulo 256, into the list
      length; `atoi` reads on past the entry as C does. */
  lemma LenEntryEffect(s: FlagSpec, opt: Bytes, tail: Bytes)
    ensures ApplyEntry(s, "len", opt, tail).Some?
    ensures var r := ApplyEntry(s, "len", opt, tail).value;
      GetPrm1(r.kind) == GetPrm1(s.kind) | ((Atoi(opt + tail) % 256) as bv32)
      && GetArgt(r.kind) == GetArgt(s.kind) && GetArgo(r.kind) == GetArgo(s.kind)
      && GetPrm2(r.kind) == GetPrm2(s.kind)
  {
  }

  /** A `tdelim=` entry ORs the first byte of its value (the byte after it
      when the value is empty) into the terminator field. */
  lemma DelimEntryEffect(s: FlagSpec, opt: Bytes, tail: Bytes)
    ensures ApplyEntry(s, "tdelim", opt, tail).Some?
    ensures var r := ApplyEntry(s, "tdelim", opt, tail).value;
      GetPrm2(r.kind) == GetPrm2(s.kind) | (FirstOr(opt + tail) as bv32)
      && GetArgt(r.kind) == GetArgt(s.kind) && GetArgo(r.kind) == GetArgo(s.kind)
      && GetPrm1(r.kind) == GetPrm1(s.kind)
  {
  }

  /** The whole entry: the key is what comes before the first '=', the
      value what comes after it. */
  function MetadataEntry(s: FlagSpec, entry: Bytes, tail: Bytes): Option<FlagSpec> {
    var kv := ChopByDelim(entry, '=');
    ApplyEntry(s, kv.taken, kv.rest, tail)
  }

  /** The metadata delimiters; index |sv| stands for the NUL that ends the
      C string, which is neither. */
  predicate MetaDelimAt(sv: Bytes, i: nat) {
    i < |sv| && (sv[i] == '\t' || sv[i] == ';')
  }

  /** The index of the first '\t' or ';', or |spec| when there is none. */
  function MetaDelim(spec: Bytes): (i: nat)
    ensures i <= |spec|
    ensures i < |spec| ==> MetaDelimAt(spec, i)
    ensures forall j :: 0 <= j < i ==> !MetaDelimAt(spec, j)
  {
    if spec == [] || spec[0] == '\t' || spec[0] == ';' then 0
    else
      var k := 1 + MetaDelim(spec[1..]);
      assert forall j :: 1 <= j < k ==> (MetaDelimAt(spec, j) <==> MetaDelimAt(spec[1..], j - 1));
      k
  }

  /** `parse_metadata_entry` is only called on a non-empty entry. */
  function Entry(s: FlagSpec, entry: Bytes, tail: Bytes): Option<FlagSpec> {
    if entry == [] then Some(s) else MetadataEntry(s, entry, tail)
  }

  /** The metadata section as it is evidently meant to be read: entries
      separated by ';' until the '\t' that starts the description or the
      end of the string. The result is the filled-in spec and the
      description, or None for a syntax error. */
  function Metadata(s: FlagSpec, spec: Bytes): Option<(FlagSpec, Bytes)>
    decreases |spec|
  {
    var i := MetaDelim(spec);
    var next := Entry(s, spec[..i], spec[i..]);
    if next.None? then None
    else if i == |spec| then Some((next.value, []))
    else if spec[i] == '\t' then Some((next.value, spec[i + 1..]))
    else Metadata(next.value, spec[i + 1..])
  }

  /** Where `Metadata` goes after one chop with delimiter `delim`: the
      entry `opt` is applied, then a ';' continues with `spec`. */
  function Resume(s: FlagSpec, delim: Byte, opt: Bytes, tail: Bytes, spec: Bytes): Option<(FlagSpec, Bytes)> {
    var next := Entry(s, opt, tail);
    if next.None? then None
    else if delim != ';' then Some((next.value, spec))
    else Metadata(next.value, spec)
  }

  /** Metadata never touches the name, the short option, the aliases, the
      description field or the parse state, nor the type bits. */
  lemma {:induction false} MetadataKeeps(s: FlagSpec, spec: Bytes)
    requires Metadata(s, spec).Some?
    ensures var r := Metadata(s, spec).value.0;
      r.(kind := s.kind, typeHint := s.typeHint, groupName := s.groupName) == s
      && GetType(r.kind) == GetType(s.kind)
    decreases |spec|
  {
    var i := MetaDelim(spec);
    var next := Entry(s, spec[..i], spec[i..]);
    assert next.Some?;
    if i < |spec| && spec[i] == ';' {
      MetadataKeeps(next.value, spec[i + 1..]);
    }
  }

  /** The description `Metadata` returns is everything after the first tab
      of the spec, or empty when there is no tab. */
  lemma {:induction false} MetadataDescription(s: FlagSpec, spec: Bytes)
    requires Metadata(s, spec).Some?
    ensures Metadata(s, spec).value.1 == (if '\t' in spec then spec[Find(spec, '\t') + 1..] else [])
    decreases |spec|
  {
    var i := MetaDelim(spec);
    var next := Entry(s, spec[..i], spec[i..]);
    assert next.Some?;
    if i == |spec| {
      assert '\t' !in spec by {
        forall j | 0 <= j < |spec| ensures spec[j] != '\t' { assert !MetaDelimAt(spec, j); }
      }
    } else if spec[i] == '\t' {
      assert Find(spec, '\t') == i by {
        forall j | 0 <= j < i ensures spec[j] != '\t' { assert !MetaDelimAt(spec, j); }
        FindAfterPrefix(spec, i);
      }
    } else {
      var rest := spec[i + 1..];
      assert Metadata(s, spec) == Metadata(next.value, rest);
      MetadataDescription(next.value, rest);
      assert forall j :: 0 <= j < i ==> !MetaDelimAt(spec, j);
      DescriptionAfterSemicolon(spec, i, rest);
    }
  }

  lemma DescriptionAfterSemicolon(spec: Bytes, i: nat, rest: Bytes)
    requires i < |spec| && spec[i] == ';' && rest == spec[i + 1..]
    requires forall j :: 0 <= j < i ==> !MetaDelimAt(spec, j)
    ensures (if '\t' in spec then spec[Find(spec, '\t') + 1..] else [])
         == (if '\t' in rest then rest[Find(rest, '\t') + 1..] else [])
  {
    forall j | 0 <= j <= i ensures spec[j] != '\t' {
      if j < i { assert !MetaDelimAt(spec, j); }
    }
    if '\t' in rest {
      FindInTail(spec, i + 1, rest);
      assert '\t' in spec by { assert spec[Find(spec, '\t')] == '\t'; }
    } else {
      forall j | 0 <= j < |spec| ensures spec[j] != '\t' {
        if j > i { assert spec[j] == rest[j - i - 1]; }
      }
    }
  }

  lemma FindAfterPrefix(spec: Bytes, i: nat)
    requires i < |spec| && spec[i] == '\t'
    requires forall j :: 0 <= j < i ==> spec[j] != '\t'
    ensures Find(spec, '\t') == i
  {
    assert spec[i] == '\t';
  }

  lemma FindInTail(spec: Bytes, n: nat, rest: Bytes)
    requires n <= |spec| && rest == spec[n..] && '\t' in rest
    requires forall j :: 0 <= j < n ==> spec[j] != '\t'
    ensures Find(spec, '\t') == n + Find(rest, '\t')
  {
    var k := Find(rest, '\t');
    var m := n + k;
    assert spec[m] == '\t';
    forall j | 0 <= j < m ensures spec[j] != '\t' {
      if j >= n { assert spec[j] == rest[..k][j - n]; }
    }
    FindAfterPrefix(spec, m);
  }

  /** The delimiter function that `parse_metadata_spec` passes to
      `cbuild_sv_chop_by_func`. */
  function MetaDelimFunc(): (Bytes, nat) -> bool {
    (sv: Bytes, i: nat) => MetaDelimAt(sv, i)
  }

  /** One chop of the metadata section: the entry, the byte the callback
      stored (or `delim0` when it stored none) and the rest. */
  method ChopEntry(spec: Bytes, delim0: Byte) returns (opt: Bytes, delim: Byte, rest: Bytes)
    ensures var i := MetaDelim(spec);
      opt == spec[..i] && rest == (if i < |spec| then spec[i + 1..] else [])
      && delim == (if i < |spec| then spec[i] else delim0)
  {
    var c := ChopByFunc(spec, MetaDelimFunc());
    var i := MetaDelim(spec);
    if i < |spec| {
      assert MetaDelimFunc()(spec, i);
    } else {
      assert forall j :: 0 <= j < |spec| ==> !MetaDelimFunc()(spec, j);
    }
    opt, rest := c.taken, c.rest;
    delim := delim0;
    if |opt| < |spec| {
      delim := spec[|opt|];
    }
  }

  /** `__cbuild_int_flag_parse_metadata_spec`, corrected: the delimiter is
      reset to '\t' before every chop, so an entry list that ends without a
      tab finishes instead of spinning. Returns the filled-in spec (None
      for a syntax error) and the view left over, the description. */
  method ParseMetadataSpec(s0: FlagSpec, spec0: Bytes) returns (r: Option<FlagSpec>, spec: Bytes)
    ensures Metadata(s0, spec0) == (if r.Some? then Some((r.value, spec)) else None)
  {
    var prev := spec0;
    var opt, delim;
    opt, delim, spec := ChopEntry(prev, '\t');
    var cur := s0;
    assert Metadata(cur, prev) == Resume(cur, delim, opt, prev[|opt|..], spec) by {
      ChopResumes(cur, prev, opt, delim, spec);
    }
    while delim != '\t'
      invariant |opt| <= |prev| && delim in {'\t', ';'}
      invariant Metadata(s0, spec0) == Resume(cur, delim, opt, prev[|opt|..], spec)
      decreases |spec| + (if delim == '\t' then 0 else 1)
    {
      if |opt| > 0 {
        var n := MetadataEntry(cur, opt, prev[|opt|..]);
        if n.None? {
          return None, spec;
        }
        cur := n.value;
      }
      assert Metadata(s0, spec0) == Metadata(cur, spec);
      prev := spec;
      opt, delim, spec := ChopEntry(prev, '\t');
      assert Metadata(cur, prev) == Resume(cur, delim, opt, prev[|opt|..], spec) by {
        ChopResumes(cur, prev, opt, delim, spec);
      }
    }
    if |opt| > 0 {
      var n := MetadataEntry(cur, opt, prev[|opt|..]);
      if n.None? {
        return None, spec;
      }
      cur := n.value;
    }
    r := Some(cur);
  }

  /** One chop with the delimiter reset to '\t' is one unfolding of
      `Metadata`. */
  lemma ChopResumes(f: FlagSpec, prev: Bytes, opt: Bytes, delim: Byte, spec: Bytes)
    requires var i := MetaDelim(prev);
      opt == prev[..i] && spec == (if i < |prev| then prev[i + 1..] else [])
      && delim == (if i < |prev| then prev[i] else '\t')
    ensures |opt| <= |prev| && delim in {'\t', ';'}
    ensures Metadata(f, prev) == Resume(f, delim, opt, prev[|opt|..], spec)
  {
  }

  /** The loop state of `parse_metadata_spec` as written: the last byte the
      callback stored, the entry just chopped, the string after that entry
      and the view left. */
  datatype MetaLoop = MetaLoop(delim: Byte, opt: Bytes, tail: Bytes, spec: Bytes, flag: FlagSpec)

  /** One iteration of the loop as written: apply the entry, then chop
      again WITHOUT resetting `delim`, so a chop that finds no delimiter
      leaves the previous ';' in place. None is a syntax-error exit. */
  function StepAsWritten(st: MetaLoop): Option<MetaLoop> {
    var next := Entry(st.flag, st.opt, st.tail);
    if next.None? then None
    else
      var i := MetaDelim(st.spec);
      Some(MetaLoop(
        if i < |st.spec| then st.spec[i] else st.delim,
        st.spec[..i],
        st.spec[i..],
        if i < |st.spec| then st.spec[i + 1..] else [],
        next.value))
  }

  /** Once the entries run out after a ';', the loop state is a fixed point
      of the body and the guard `delim != '\t'` stays true: the loop never
      ends. */
  lemma MetadataSpinsAsWritten(f: FlagSpec)
    ensures StepAsWritten(MetaLoop(';', [], [], [], f)) == Some(MetaLoop(';', [], [], [], f))
  {
  }

  /** A metadata section whose last separator is ';' (no tab follows, as in
      the spec "out\to\targ=arg;thint=file" of a flag without description):
      the body applies the last entry and then reaches that fixed point. */
  lemma NoTabAfterSemicolonSpins(st: MetaLoop)
    requires st.delim == ';' && MetaDelim(st.spec) == |st.spec|
    ensures StepAsWritten(st).Some? ==>
      var st1 := StepAsWritten(st).value;
      st1.delim == ';' && st1.opt == st.spec && st1.tail == [] && st1.spec == []
      && (StepAsWritten(st1).Some? ==>
            StepAsWritten(st1).value == MetaLoop(';', [], [], [], StepAsWritten(st1).value.flag))
  {
  }
}
