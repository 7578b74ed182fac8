/** `rglob.h`: glob patterns translated to POSIX extended regular
    expressions, and a list of strings filtered through the compiled regex.
    The regex library (`regcomp`, `regexec`, `regfree`) is an input: a
    compile function giving an error code and a match predicate. A pattern
    is the bytes of a C string before its terminator. */
module Glob {
  import opened Bytes
  import opened Seqs

  /** `glob_errcode_t`, and the `glob_flags_t` bits. */
  const NoError: int := 0
  const NoMatch: int := 128
  const EmptyPat: int := 129
  const SyntaxGlob: int := 0
  const SyntaxRegex: int := 1
  const CompileFlag: bv32 := 2

  /** The translator's states. */
  datatype State = Normal | Escape | CharClass | CharClassFirst

  /** The characters the translator backslash-escapes outside brackets. */
  predicate Special(c: Byte) {
    c == '(' || c == ')' || c == '{' || c == '}' || c == '^' || c == '$'
    || c == '.' || c == '|' || c == '+'
  }

  /** The characters with a meaning of their own outside brackets. */
  predicate Meta(c: Byte) {
    Special(c) || c == '#' || c == '[' || c == ']' || c == '*' || c == '?'
  }

  /** One turn of the loop of `transform_glob`: what it appends and the
      next state. */
  function Step(st: State, c: Byte): (Bytes, State) {
    if st == Escape then ([c], Normal)
    else if st == CharClassFirst && c == '!' then (['^'], CharClass)
    else if (st == CharClass || st == CharClassFirst) && c != ']' then ([c], CharClass)
    else if c == '#' then ([], Escape)
    else if c == '[' then (['['], CharClassFirst)
    else if c == ']' then ([']'], Normal)
    else if c == '*' then (['.', '*'], st)
    else if c == '?' then (['.'], st)
    else if Special(c) then (['\\', c], st)
    else ([c], st)
  }

  /** The output and state after the loop has consumed `s` from state `st`. */
  function Run(st: State, s: Bytes): (Bytes, State)
    decreases |s|
  {
    if s == [] then ([], st)
    else
      var prev := Run(st, s[..|s| - 1]);
      var last := Step(prev.1, s[|s| - 1]);
      (prev.0 + last.0, last.1)
  }

  /** What `transform_glob` returns, without the terminator. An unknown
      syntax gives the empty string. */
  function Transformed(pattern: Bytes, syntax: int): Bytes {
    if syntax == SyntaxGlob then ['^'] + Run(Normal, pattern).0 + ['$']
    else if syntax == SyntaxRegex then pattern
    else []
  }

  /** `transform_glob`. */
  method TransformGlob(pattern: Bytes, syntax: int) returns (regex: Bytes)
    ensures regex == Transformed(pattern, syntax)
    ensures syntax == SyntaxGlob ==> |regex| >= 2 && regex[0] == '^' && regex[|regex| - 1] == '$'
  {
    regex := [];
    if syntax == SyntaxGlob {
      var state := Normal;
      regex := regex + ['^'];
      for i := 0 to |pattern|
        invariant regex == ['^'] + Run(Normal, pattern[..i]).0
        invariant state == Run(Normal, pattern[..i]).1
      {
        assert pattern[..i + 1][..i] == pattern[..i];
        var out: Bytes;
        out, state := TransformByte(state, pattern[i]);
        regex := regex + out;
      }
      assert pattern[..|pattern|] == pattern;
      regex := regex + ['$'];
    } else if syntax == SyntaxRegex {
      regex := regex + pattern;
    }
  }

  /** The body of the loop of `transform_glob`, in the source's order of
      tests. */
  method TransformByte(state: State, c: Byte) returns (out: Bytes, next: State)
    ensures (out, next) == Step(state, c)
  {
    if state == Escape {
      return [c], Normal;
    }
    if state == CharClassFirst && c == '!' {
      return ['^'], CharClass;
    }
    if (state == CharClass || state == CharClassFirst) && c != ']' {
      return [c], CharClass;
    }
    next := state;
    match c {
      case '#' => out, next := [], Escape;
      case '[' => out, next := ['['], CharClassFirst;
      case ']' => out, next := [']'], Normal;
      case '*' => out := ['.', '*'];
      case '?' => out := ['.'];
      case '(' => out := ['\\', c];
      case ')' => out := ['\\', c];
      case '{' => out := ['\\', c];
      case '}' => out := ['\\', c];
      case '^' => out := ['\\', c];
      case '$' => out := ['\\', c];
      case '.' => out := ['\\', c];
      case '|' => out := ['\\', c];
      case '+' => out := ['\\', c];
      case _ => out := [c];
    }
  }

  /** The translation of a concatenation continues from the state the first
      part ends in. */
  lemma {:induction false} RunAppend(st: State, a: Bytes, b: Bytes)
    ensures Run(st, a + b).0 == Run(st, a).0 + Run(Run(st, a).1, b).0
    ensures Run(st, a + b).1 == Run(Run(st, a).1, b).1
    decreases |b|
  {
    if b == [] {
      assert a + b == a;
    } else {
      var b', c := b[..|b| - 1], b[|b| - 1];
      SliceSnoc(b, |b| - 1);
      assert b[..|b|] == b;
      ConcatAssoc(a, b', [c]);
      RunAppend(st, a, b');
      RunSnoc(st, a + b', c);
      RunSnoc(Run(st, a).1, b', c);
      var p, q := Run(st, a).0, Run(Run(st, a).1, b').0;
      ConcatAssoc(p, q, Step(Run(Run(st, a).1, b').1, c).0);
    }
  }

  /** One more character is one more turn of the loop. */
  lemma RunSnoc(st: State, s: Bytes, c: Byte)
    ensures Run(st, s + [c]) == (Run(st, s).0 + Step(Run(st, s).1, c).0, Step(Run(st, s).1, c).1)
  {
    assert (s + [c])[..|s|] == s;
  }

  /** Outside brackets, characters without a meaning of their own are
      copied unchanged. */
  lemma {:induction false} PlainCopied(s: Bytes)
    requires forall i :: 0 <= i < |s| ==> !Meta(s[i])
    ensures Run(Normal, s) == (s, Normal)
    decreases |s|
  {
    if s != [] {
      PlainCopied(s[..|s| - 1]);
      assert s[..|s| - 1] + [s[|s| - 1]] == s;
    }
  }

  /** Inside brackets everything up to `]` is copied verbatim. */
  lemma {:induction false} ClassCopied(s: Bytes)
    requires forall i :: 0 <= i < |s| ==> s[i] != ']'
    ensures Run(CharClass, s) == (s, CharClass)
    decreases |s|
  {
    if s != [] {
      ClassCopied(s[..|s| - 1]);
      assert s[..|s| - 1] + [s[|s| - 1]] == s;
    }
  }

  /** A one-character pattern is one turn of the loop. */
  lemma RunSingle(st: State, c: Byte)
    ensures Run(st, [c]) == Step(st, c)
  {
    assert [c][..0] == [];
    assert Run(st, []) == ([], st);
    assert [] + Step(st, c).0 == Step(st, c).0;
  }

  /** `*` becomes `.*`, `?` becomes `.`, and the nine specials get a
      backslash. */
  lemma Wildcards(c: Byte)
    ensures Run(Normal, ['*']) == (['.', '*'], Normal)
    ensures Run(Normal, ['?']) == (['.'], Normal)
    ensures Special(c) ==> Run(Normal, [c]) == (['\\', c], Normal)
  {
    RunSingle(Normal, '*');
    RunSingle(Normal, '?');
    RunSingle(Normal, c);
  }

  /** `#` emits nothing and the next character is copied raw. */
  lemma EscapedRaw(c: Byte)
    ensures Run(Normal, ['#', c]) == ([c], Normal)
  {
    RunSingle(Normal, '#');
    RunSingle(Escape, c);
    RunAppend(Normal, ['#'], [c]);
    assert ['#'] + [c] == ['#', c];
  }

  /** The body of a bracket expression after `[`: a leading `!` turned into
      `^`, the rest copied verbatim. */
  lemma BracketBody(body: Bytes)
    requires forall i :: 0 <= i < |body| ==> body[i] != ']'
    ensures body != [] && body[0] == '!' ==> Run(CharClassFirst, body) == (['^'] + body[1..], CharClass)
    ensures body != [] && body[0] != '!' ==> Run(CharClassFirst, body) == (body, CharClass)
  {
    if body != [] {
      assert body == [body[0]] + body[1..];
      RunSingle(CharClassFirst, body[0]);
      ClassCopied(body[1..]);
      RunAppend(CharClassFirst, [body[0]], body[1..]);
    }
  }

  /** `[` and the body of a bracket expression. */
  lemma BracketOpen(body: Bytes)
    requires forall i :: 0 <= i < |body| ==> body[i] != ']'
    ensures body == [] ==> Run(Normal, ['['] + body) == (['['], CharClassFirst)
    ensures body != [] && body[0] == '!' ==> Run(Normal, ['['] + body) == (['[', '^'] + body[1..], CharClass)
    ensures body != [] && body[0] != '!' ==> Run(Normal, ['['] + body) == (['['] + body, CharClass)
  {
    if body == [] {
      RunSingle(Normal, '[');
      assert ['['] + body == ['['];
    } else {
      BracketBody(body);
      var r := Run(CharClassFirst, body);
      OpenThen(body, r.0, r.1);
      if body[0] == '!' {
        assert ['['] + (['^'] + body[1..]) == ['[', '^'] + body[1..];
      }
    }
  }

  /** After `[` the translation goes on from CharClassFirst. */
  lemma OpenThen(body: Bytes, out: Bytes, st: State)
    requires Run(CharClassFirst, body) == (out, st)
    ensures Run(Normal, ['['] + body) == (['['] + out, st)
  {
    RunSingle(Normal, '[');
    RunAppend(Normal, ['['], body);
  }

  /** A bracket expression is copied verbatim, a leading `!` turned into
      `^`, and the translation is back outside brackets after `]`. */
  lemma Bracket(body: Bytes)
    requires forall i :: 0 <= i < |body| ==> body[i] != ']'
    ensures body != [] && body[0] == '!' ==>
              Run(Normal, ['['] + body + [']']) == (['[', '^'] + body[1..] + [']'], Normal)
    ensures (body == [] || body[0] != '!') ==>
              Run(Normal, ['['] + body + [']']) == (['['] + body + [']'], Normal)
  {
    var whole := ['['] + body;
    var open := Run(Normal, whole);
    BracketOpen(body);
    RunSingle(open.1, ']');
    assert Step(open.1, ']') == ([']'], Normal);
    RunAppend(Normal, whole, [']']);
    assert Run(Normal, whole + [']']) == (open.0 + [']'], Normal);
    if body == [] {
      assert open.0 == whole;
    } else if body[0] != '!' {
      assert open.0 == whole;
    }
  }

  /** `struct __glob_res_t`: a matching string and its index in the list. */
  datatype GlobRes = GlobRes(res: Bytes, resIdx: nat)

  /** The in-order subsequence of `list` that `matches` accepts, each
      element with its original index. */
  function Matching(rx: Bytes, matches: (Bytes, Bytes) -> bool, list: seq<Bytes>): (r: seq<GlobRes>)
    ensures forall j :: 0 <= j < |r| ==> r[j].resIdx < |list| && r[j].res == list[r[j].resIdx]
                                         && matches(rx, r[j].res)
    ensures forall j, k :: 0 <= j < k < |r| ==> r[j].resIdx < r[k].resIdx
    decreases |list|
  {
    if list == [] then []
    else
      var n := |list| - 1;
      var prev := Matching(rx, matches, list[..n]);
      assert forall j :: 0 <= j < |prev| ==> list[..n][prev[j].resIdx] == list[prev[j].resIdx];
      prev + (if matches(rx, list[n]) then [GlobRes(list[n], n)] else [])
  }

  /** Every accepted element is in the result, so the result is empty
      exactly when nothing matches. */
  lemma {:induction false} MatchingComplete(rx: Bytes, matches: (Bytes, Bytes) -> bool, list: seq<Bytes>, i: nat)
    requires i < |list| && matches(rx, list[i])
    ensures exists j :: 0 <= j < |Matching(rx, matches, list)| && Matching(rx, matches, list)[j].resIdx == i
    decreases |list|
  {
    var n := |list| - 1;
    var prev := Matching(rx, matches, list[..n]);
    if i == n {
      assert Matching(rx, matches, list)[|prev|].resIdx == i;
    } else {
      MatchingComplete(rx, matches, list[..n], i);
      var j :| 0 <= j < |prev| && prev[j].resIdx == i;
      assert Matching(rx, matches, list)[j] == prev[j];
    }
  }

  lemma MatchingEmpty(rx: Bytes, matches: (Bytes, Bytes) -> bool, list: seq<Bytes>)
    ensures Matching(rx, matches, list) == [] <==> forall i :: 0 <= i < |list| ==> !matches(rx, list[i])
  {
    if exists i :: 0 <= i < |list| && matches(rx, list[i]) {
      var i :| 0 <= i < |list| && matches(rx, list[i]);
      MatchingComplete(rx, matches, list, i);
    }
  }

  /** The result loop of `glob`. */
  method SelectMatches(rx: Bytes, matches: (Bytes, Bytes) -> bool, list: seq<Bytes>) returns (results: seq<GlobRes>)
    ensures results == Matching(rx, matches, list)
  {
    results := [];
    for i := 0 to |list|
      invariant results == Matching(rx, matches, list[..i])
    {
      assert list[..i + 1][..i] == list[..i];
      if matches(rx, list[i]) {
        results := results + [GlobRes(list[i], i)];
      }
    }
    assert list[..|list|] == list;
  }

  /** `glob_t`: the results, the compiled regex (as its source text) and the
      `valid` flag. */
  class GlobT {
    var results: seq<GlobRes>
    var regex: Bytes
    var valid: bool

    /** `glob_t pglob = {0}`. */
    constructor ()
      ensures results == [] && regex == [] && !valid
    {
      results := [];
      regex := [];
      valid := false;
    }

    /** `glob`. `compile` stands for `regcomp` (0 on success, otherwise the
        error code), `matches` for a zero return of `regexec`. */
    method Glob(pattern: Bytes, flags: bv32, list: seq<Bytes>,
                compile: Bytes -> int, matches: (Bytes, Bytes) -> bool) returns (code: int)
      modifies this
      ensures pattern == [] ==> code == EmptyPat && unchanged(this)
      ensures pattern != [] && flags & CompileFlag != 0
              && compile(Transformed(pattern, (flags & 1) as int)) != 0 ==>
                code == compile(Transformed(pattern, (flags & 1) as int)) && unchanged(this)
      ensures pattern != [] && flags & CompileFlag != 0
              && compile(Transformed(pattern, (flags & 1) as int)) == 0 ==>
                regex == Transformed(pattern, (flags & 1) as int) && valid
      ensures pattern != [] && flags & CompileFlag == 0 ==> regex == old(regex) && valid == old(valid)
      ensures pattern != [] && (flags & CompileFlag == 0 || compile(Transformed(pattern, (flags & 1) as int)) == 0) ==>
                results == Matching(regex, matches, list)
                && code == (if results == [] then NoMatch else NoError)
    {
      if |pattern| == 0 {
        return EmptyPat;
      }
      if flags & CompileFlag != 0 {
        var syntax := (flags & 1) as int;
        var rx := TransformGlob(pattern, syntax);
        var ecode := compile(rx);
        if ecode != 0 {
          return ecode;
        }
        regex := rx;
        valid := true;
      }
      results := SelectMatches(regex, matches, list);
      if |results| == 0 {
        return NoMatch;
      }
      return NoError;
    }

    /** `globfree`. */
    method GlobFree()
      modifies this
      ensures !valid && results == [] && regex == old(regex)
    {
      valid := false;
      results := [];
    }
  }
}
