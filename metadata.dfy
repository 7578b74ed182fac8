/** The metadata files of the C++ CBuild: per-source records (source,
    object, dependencies, hash) and per-target records (output, tools and
    argument lists), written one field per line and read back with
    `std::getline`. The file system is a map from paths to contents. */
module Metadata {
  import opened Bytes
  import opened Wrappers
  import opened Numbers
  import opened StringView
  import opened Seqs

  const U64Max: nat := 0xFFFF_FFFF_FFFF_FFFF

  const Deps: Bytes := "DEPS"
  const EndDeps: Bytes := "ENDDEPS"
  const CArgs: Bytes := "CARGS"
  const EndCArgs: Bytes := "ENDCARGS"
  const LArgs: Bytes := "LARGS"
  const EndLArgs: Bytes := "ENDLARGS"
  /** `CBUILD_BUILD_DIR`. */
  const BuildDir: Bytes := "build"

  /** `CBuild::source_metadata_file`. */
  datatype SourceMeta = SourceMeta(source: Bytes, objFile: Bytes, deps: seq<Bytes>, hash: nat)

  /** `CBuild::target_metadata_file`. */
  datatype TargetMeta = TargetMeta(out: Bytes, compiler: Bytes, linker: Bytes, packer: Bytes,
                                   cargs: seq<Bytes>, largs: seq<Bytes>)

  /** A `std::stringstream` over the file text: what is left to read, and
      whether no error flag is set. */
  datatype Stream = Stream(rest: Bytes, good: bool)

  /** `std::getline(stream, line, '\n')` as libstdc++ does it: a stream
      with a flag set leaves `line` as it was; at the end of the text the
      line is cleared and the stream fails; a last line without '\n' is
      read and the stream is at its end. */
  function GetLine(st: Stream, line: Bytes): (r: (Stream, Bytes))
    ensures !st.good ==> r == (st, line)
    ensures st.good ==> |r.0.rest| < |st.rest| || (r.0.rest == st.rest && !r.0.good)
  {
    if !st.good then (st, line)
    else if st.rest == [] then (Stream([], false), [])
    else
      var i := LineLen(st.rest);
      if i < |st.rest| then (Stream(st.rest[i + 1..], true), st.rest[..i])
      else (Stream([], false), st.rest)
  }

  /** The number of bytes before the first '\n'. */
  function LineLen(s: Bytes): (n: nat)
    ensures n <= |s|
  {
    if s == [] || s[0] == '\n' then 0 else 1 + LineLen(s[1..])
  }

  lemma {:induction false} LineLenOf(x: Bytes, rest: Bytes)
    requires '\n' !in x
    ensures LineLen(x + ['\n'] + rest) == |x|
    decreases |x|
  {
    if x != [] {
      assert (x + ['\n'] + rest)[1..] == x[1..] + ['\n'] + rest;
      assert x[0] in x;
      LineLenOf(x[1..], rest);
    }
  }

  /** One `std::getline` call of a reader. */
  method ReadLine(st: Stream, line: Bytes) returns (st': Stream, line': Bytes)
    ensures (st', line') == GetLine(st, line)
  {
    var r := GetLine(st, line);
    st', line' := r.0, r.1;
  }

  /** `std::getline(f, FILE_DATA, '\0')`: the text up to the first NUL. */
  function Data(text: Bytes): (d: Bytes)
    ensures '\0' !in text ==> d == text
  {
    var i := Find(text, '\0');
    if i >= 0 then text[..i] else text
  }

  /** Each element followed by '\n', as the writers stream them. */
  function Lines(xs: seq<Bytes>): Bytes
    decreases |xs|
  {
    if xs == [] then [] else xs[0] + ['\n'] + Lines(xs[1..])
  }

  /** `f << hash`: the decimal numeral of the value. */
  function HashLine(h: nat): Bytes {
    Decimal(h)
  }

  /** `write_file_metadata`'s output (format of build_data.hpp). */
  function FileText(m: SourceMeta): Bytes {
    Lines([m.source, m.objFile, Deps] + m.deps + [EndDeps, HashLine(m.hash)])
  }

  /** `write_target_metadata`'s output. */
  function TargetText(t: TargetMeta): Bytes {
    Lines([t.out, t.compiler, t.linker, t.packer, CArgs] + t.cargs + [EndCArgs, LArgs] + t.largs + [EndLArgs])
  }

  /** How a list loop ended: at its terminator line, or with the stream
      exhausted. */
  datatype LoopEnd = LoopEnd(ok: bool, st: Stream, acc: seq<Bytes>)

  /** The list loops of the readers (until "ENDDEPS", "ENDCARGS",
      "ENDLARGS"), with a failed stream ending the loop unsuccessfully. */
  function ReadUntil(st: Stream, line: Bytes, acc: seq<Bytes>, end: Bytes): (r: LoopEnd)
    ensures r.ok ==> |acc| <= |r.acc|
    decreases |st.rest|, if st.good then 1 else 0
  {
    if line == end then LoopEnd(true, st, acc)
    else if !st.good then LoopEnd(false, st, acc)
    else
      var next := GetLine(st, line);
      ReadUntil(next.0, next.1, acc + [line], end)
  }

  /** The loop run on the line read after the section's opening line
      `open`. */
  function AfterOpen(st: Stream, open: Bytes, acc: seq<Bytes>, end: Bytes): LoopEnd {
    ReadUntil(GetLine(st, open).0, GetLine(st, open).1, acc, end)
  }

  /** The same loop as written: it stops only at the terminator. `fuel`
      bounds the number of turns; `None` means the turns ran out. */
  function ReadUntilAsWritten(fuel: nat, st: Stream, line: Bytes, acc: seq<Bytes>, end: Bytes): Option<LoopEnd>
    decreases fuel
  {
    if line == end then Some(LoopEnd(true, st, acc))
    else if fuel == 0 then None
    else
      var next := GetLine(st, line);
      ReadUntilAsWritten(fuel - 1, next.0, next.1, acc + [line], end)
  }

  /** Once the stream has failed the as-written loop turns forever, pushing
      the same line each time, whatever the number of turns allowed. */
  lemma {:induction false} AsWrittenSpins(fuel: nat, st: Stream, line: Bytes, acc: seq<Bytes>, end: Bytes)
    requires !st.good && line != end
    ensures ReadUntilAsWritten(fuel, st, line, acc, end) == None
    decreases fuel
  {
    if fuel > 0 {
      AsWrittenSpins(fuel - 1, st, line, acc + [line], end);
    }
  }

  /** Whenever the as-written loop ends, the corrected one ends the same
      way. */
  lemma {:induction false} AsWrittenAgrees(fuel: nat, st: Stream, line: Bytes, acc: seq<Bytes>, end: Bytes)
    requires ReadUntilAsWritten(fuel, st, line, acc, end).Some?
    ensures ReadUntil(st, line, acc, end) == ReadUntilAsWritten(fuel, st, line, acc, end).value
    decreases fuel
  {
    if line != end {
      if !st.good {
        AsWrittenSpins(fuel, st, line, acc, end);
      } else {
        var next := GetLine(st, line);
        AsWrittenAgrees(fuel - 1, next.0, next.1, acc + [line], end);
      }
    }
  }

  /** A record file of three lines ending in "DEPS" and nothing after it:
      the as-written reader never leaves its loop. */
  lemma NoEndDepsSpins(fuel: nat, acc: seq<Bytes>)
    ensures GetLine(Stream([], true), Deps) == (Stream([], false), [])
    ensures ReadUntilAsWritten(fuel, Stream([], false), [], acc, EndDeps) == None
  {
    AsWrittenSpins(fuel, Stream([], false), [], acc, EndDeps);
  }

  /** `strtoull` on a line that starts with a digit: the value of the run
      of digits, clamped to `ULLONG_MAX`. */
  function StrToULL(line: Bytes): (v: nat)
    ensures v <= U64Max
  {
    var d := DigitsValue(line[..DigitRun(line)]);
    if d > U64Max then U64Max else d
  }

  /** `read_file_metadata_internal` on the text of an existing file, from
      the record `m0` (whose deps the reader appends to). The hash line must
      start and end with a digit; for an empty hash line this is undefined
      behaviour in C++, taken here as a rejection. */
  function ParseFile(text: Bytes, m0: SourceMeta): (int, SourceMeta) {
    ParseRecord(Stream(Data(text), true), m0)
  }

  /** The source and object lines, then the "DEPS" line. */
  function ParseRecord(st0: Stream, m0: SourceMeta): (int, SourceMeta) {
    var l1 := GetLine(st0, []);
    var l2 := GetLine(l1.0, l1.1);
    var m := m0.(source := l1.1, objFile := l2.1);
    var l3 := GetLine(l2.0, l2.1);
    if l3.1 != Deps then (-3, m) else ParseDeps(l3.0, m)
  }

  /** The deps loop after the "DEPS" line. */
  function ParseDeps(st: Stream, m: SourceMeta): (int, SourceMeta) {
    var l4 := GetLine(st, Deps);
    var loop := ReadUntil(l4.0, l4.1, m.deps, EndDeps);
    if !loop.ok then (-3, m.(deps := loop.acc)) else ParseHash(loop.st, m.(deps := loop.acc))
  }

  /** The hash line after "ENDDEPS". */
  function ParseHash(st: Stream, m: SourceMeta): (int, SourceMeta) {
    var h := GetLine(st, EndDeps).1;
    if h == [] || !IsDigit(h[0]) || !IsDigit(h[|h| - 1]) then (-3, m) else (0, m.(hash := StrToULL(h)))
  }

  /** `read_target_metadata` on the text of an existing file. */
  function ParseTarget(text: Bytes, t0: TargetMeta): (int, TargetMeta) {
    ParseTargetRecord(Stream(Data(text), true), t0)
  }

  /** The four tool lines, then the "CARGS" line. */
  function ParseTargetRecord(st0: Stream, t0: TargetMeta): (int, TargetMeta) {
    var l1 := GetLine(st0, []);
    var l2 := GetLine(l1.0, l1.1);
    var l3 := GetLine(l2.0, l2.1);
    var l4 := GetLine(l3.0, l3.1);
    var t := t0.(out := l1.1, compiler := l2.1, linker := l3.1, packer := l4.1);
    var l5 := GetLine(l4.0, l4.1);
    if l5.1 != CArgs then (-3, t) else ParseCArgs(l5.0, t)
  }

  /** The compiler-argument loop after "CARGS". */
  function ParseCArgs(st: Stream, t: TargetMeta): (int, TargetMeta) {
    var l6 := GetLine(st, CArgs);
    var c := ReadUntil(l6.0, l6.1, t.cargs, EndCArgs);
    if !c.ok then (-3, t.(cargs := c.acc)) else ParseLArgs(c.st, t.(cargs := c.acc))
  }

  /** The "LARGS" line and the linker-argument loop. */
  function ParseLArgs(st: Stream, t: TargetMeta): (int, TargetMeta) {
    var l7 := GetLine(st, EndCArgs);
    if l7.1 != LArgs then (-3, t)
    else
      var l8 := GetLine(l7.0, l7.1);
      var l := ReadUntil(l8.0, l8.1, t.largs, EndLArgs);
      (if l.ok then 0 else -3, t.(largs := l.acc))
  }

  /** `file.substr(0, file.find_last_of("."))`: everything before the last
      '.', or all of it. */
  function StripExt(file: Bytes): (r: Bytes)
    ensures |r| <= |file| && r == file[..|r|]
    ensures '.' in file ==> |r| < |file| && file[|r|] == '.' && '.' !in file[|r| + 1..]
    ensures '.' !in file ==> r == file
  {
    var p := RFind(file, '.');
    if p >= 0 then file[..p] else file
  }

  /** Every '/' turned into '.'. */
  function Dotted(s: Bytes): (r: Bytes)
    ensures |r| == |s| && '/' !in r
    ensures forall i :: 0 <= i < |s| ==> r[i] == (if s[i] == '/' then '.' else s[i])
  {
    seq(|s|, i requires 0 <= i < |s| => if s[i] == '/' then '.' else s[i])
  }

  /** `get_file_metadata_path`; the metadata folder and the file extension
      are parameters of the model. */
  function FileMetadataPath(target: Bytes, file: Bytes, folder: Bytes, ext: Bytes): Bytes {
    BuildDir + "/" + target + "/" + folder + "/" + Dotted(StripExt(file)) + ext
  }

  /** `get_target_metadata_path`. */
  function TargetMetadataPath(target: Bytes, ext: Bytes): Bytes {
    BuildDir + "/" + target + "/" + target + ext
  }

  /** The replace loop of `get_file_metadata_path`. */
  method ReplaceSlashes(s: Bytes) returns (r: Bytes)
    ensures r == Dotted(s)
  {
    r := s;
    ghost var lo := 0;
    while Find(r, '/') != -1
      invariant |r| == |s| && lo <= |r|
      invariant forall i :: 0 <= i < |s| ==> (if r[i] == '/' then '.' else r[i]) == Dotted(s)[i]
      invariant forall i :: 0 <= i < lo ==> r[i] != '/'
      decreases |r| - lo
    {
      var k := Find(r, '/');
      assert k >= lo;
      r := r[..k] + ['.'] + r[k + 1..];
      lo := k + 1;
    }
    assert forall i :: 0 <= i < |r| ==> r[i] != '/' by {
      forall i | 0 <= i < |r| ensures r[i] != '/' {
        assert r[i] in r;
      }
    }
  }

  /** Sources whose names agree up to the last '.' after '/' is read as
      '.' share one metadata file. */
  lemma SharedMetadataPath(target: Bytes, a: Bytes, b: Bytes, folder: Bytes, ext: Bytes)
    requires Dotted(StripExt(a)) == Dotted(StripExt(b))
    ensures FileMetadataPath(target, a, folder, ext) == FileMetadataPath(target, b, folder, ext)
  {
  }

  /** "src/a.c" and "src.a.cpp" have the same metadata file. */
  lemma DistinctSourcesCollide(target: Bytes, folder: Bytes, ext: Bytes)
    ensures FileMetadataPath(target, "src/a.c", folder, ext) == FileMetadataPath(target, "src.a.cpp", folder, ext)
  {
    assert RFind("src/a.c", '.') == 5 by {
      RFindIsLast("src/a.c", '.', 5);
    }
    assert RFind("src.a.cpp", '.') == 5 by {
      RFindIsLast("src.a.cpp", '.', 5);
    }
    assert Dotted("src/a") == "src.a";
    assert Dotted("src.a") == "src.a";
  }

  /** No byte `c` in any element. */
  ghost predicate Free(xs: seq<Bytes>, c: Byte) {
    forall i :: 0 <= i < |xs| ==> c !in xs[i]
  }

  /** A record that survives the one-field-per-line format: no field holds
      '\n' or NUL, no dependency is the terminator, the hash fits 64 bits. */
  ghost predicate Writable(m: SourceMeta) {
    Free([m.source, m.objFile] + m.deps, '\n') && Free([m.source, m.objFile] + m.deps, '\0')
    && (forall i :: 0 <= i < |m.deps| ==> m.deps[i] != EndDeps)
    && m.hash <= U64Max
  }

  ghost predicate WritableTarget(t: TargetMeta) {
    Free([t.out, t.compiler, t.linker, t.packer] + t.cargs + t.largs, '\n')
    && Free([t.out, t.compiler, t.linker, t.packer] + t.cargs + t.largs, '\0')
    && (forall i :: 0 <= i < |t.cargs| ==> t.cargs[i] != EndCArgs)
    && (forall i :: 0 <= i < |t.largs| ==> t.largs[i] != EndLArgs)
  }

  lemma {:induction false} LinesAppend(a: seq<Bytes>, b: seq<Bytes>)
    ensures Lines(a + b) == Lines(a) + Lines(b)
    decreases |a|
  {
    if a == [] {
      assert a + b == b;
    } else {
      assert (a + b)[1..] == a[1..] + b;
      LinesAppend(a[1..], b);
    }
  }

  lemma {:induction false} LinesFree(xs: seq<Bytes>, c: Byte)
    requires Free(xs, c) && c != '\n'
    ensures c !in Lines(xs)
    decreases |xs|
  {
    if xs != [] {
      FreeTail(xs, c);
      LinesFree(xs[1..], c);
    }
  }

  /** Reading a line ending in '\n' gives the line, and the stream moves
      past it. */
  lemma GetLineOf(x: Bytes, rest: Bytes, line: Bytes)
    requires '\n' !in x
    ensures GetLine(Stream(x + ['\n'] + rest, true), line) == (Stream(rest, true), x)
  {
    var s := x + ['\n'] + rest;
    LineLenOf(x, rest);
    assert s[..|x|] == x;
    assert s[|x| + 1..] == rest;
  }

  /** The head of a list of lines. */
  lemma GetLineLines(xs: seq<Bytes>, tail: Bytes, line: Bytes)
    requires xs != [] && '\n' !in xs[0]
    ensures GetLine(Stream(Lines(xs) + tail, true), line) == (Stream(Lines(xs[1..]) + tail, true), xs[0])
  {
    assert Lines(xs) + tail == xs[0] + ['\n'] + (Lines(xs[1..]) + tail);
    GetLineOf(xs[0], Lines(xs[1..]) + tail, line);
  }

  /** One turn of a list loop that is not at its terminator. */
  lemma ReadUntilStep(st: Stream, line: Bytes, acc: seq<Bytes>, end: Bytes)
    requires st.good && line != end
    ensures ReadUntil(st, line, acc, end) == ReadUntil(GetLine(st, line).0, GetLine(st, line).1, acc + [line], end)
  {
  }

  /** A section of lines ending in its terminator, after its opening line:
      the loop reads the section and stops after the terminator. */
  lemma {:induction false} Section(args: seq<Bytes>, end: Bytes, open: Bytes, tail: Bytes, acc: seq<Bytes>)
    requires Clean(args, end) && '\n' !in end
    ensures AfterOpen(Stream(Lines(args + [end]) + tail, true), open, acc, end)
            == LoopEnd(true, Stream(tail, true), acc + args)
    decreases |args|
  {
    var xs := args + [end];
    GetLineLines(xs, tail, open);
    if args == [] {
      assert xs[1..] == [];
      assert acc + args == acc;
    } else {
      ConsSnoc(args, end);
      var st := Stream(Lines(args[1..] + [end]) + tail, true);
      ReadUntilStep(st, args[0], acc, end);
      Section(args[1..], end, args[0], tail, acc + [args[0]]);
      ConsTail(acc, args);
    }
  }

  lemma ConsSnoc<T>(xs: seq<T>, x: T)
    requires xs != []
    ensures (xs + [x])[0] == xs[0] && (xs + [x])[1..] == xs[1..] + [x]
  {
  }

  lemma ConsTail<T>(acc: seq<T>, xs: seq<T>)
    requires xs != []
    ensures acc + [xs[0]] + xs[1..] == acc + xs
  {
    assert [xs[0]] + xs[1..] == xs;
  }

  lemma FreeTail(xs: seq<Bytes>, c: Byte)
    requires xs != [] && Free(xs, c)
    ensures Free(xs[1..], c) && c !in xs[0]
  {
    assert forall i :: 0 <= i < |xs| - 1 ==> xs[1..][i] == xs[i + 1];
  }

  /** The lines of a section: none holds '\n' and none is the terminator
      `end`. Stated element by element from the front, as the loop reads
      them. */
  predicate Clean(args: seq<Bytes>, end: Bytes)
    decreases |args|
  {
    args == [] || ('\n' !in args[0] && args[0] != end && Clean(args[1..], end))
  }

  /** Clean is the element-wise condition. */
  lemma {:induction false} FreeClean(args: seq<Bytes>, end: Bytes)
    requires Free(args, '\n') && forall i :: 0 <= i < |args| ==> args[i] != end
    ensures Clean(args, end)
    decreases |args|
  {
    if args != [] {
      FreeTail(args, '\n');
      assert forall i :: 0 <= i < |args| - 1 ==> args[1..][i] == args[i + 1];
      FreeClean(args[1..], end);
    }
  }

  /** A section whose lines never reach the terminator: the loop ends
      unsuccessfully. */
  lemma {:induction false} NoEndSection(ds: seq<Bytes>, end: Bytes, open: Bytes, acc: seq<Bytes>)
    requires end != [] && Clean(ds, end)
    ensures !AfterOpen(Stream(Lines(ds), true), open, acc, end).ok
    decreases |ds|
  {
    if ds == [] {
      assert GetLine(Stream([], true), open) == (Stream([], false), []);
    } else {
      GetLineLines(ds, [], open);
      assert Lines(ds) + [] == Lines(ds);
      assert Lines(ds[1..]) + [] == Lines(ds[1..]);
      ReadUntilStep(Stream(Lines(ds[1..]), true), ds[0], acc, end);
      NoEndSection(ds[1..], end, ds[0], acc + [ds[0]]);
    }
  }

  /** The hash line reads back as the hash. */
  lemma HashReadBack(h: nat)
    requires h <= U64Max
    ensures var d := HashLine(h); d != [] && IsDigit(d[0]) && IsDigit(d[|d| - 1]) && StrToULL(d) == h
  {
    var d := HashLine(h);
    DigitRunOf(d, d, []);
    assert d + [] == d;
    assert d[..|d|] == d;
    DecimalValue(h);
  }

  /** The last line of a record file. */
  lemma HashSection(h: nat, m: SourceMeta)
    requires h <= U64Max
    ensures ParseHash(Stream(Lines([HashLine(h)]), true), m) == (0, m.(hash := h))
  {
    assert Lines([HashLine(h)]) == HashLine(h) + ['\n'] + [];
    GetLineOf(HashLine(h), [], EndDeps);
    HashReadBack(h);
  }

  /** The deps section of a record file. */
  lemma DepsSection(deps: seq<Bytes>, tail: Bytes, m: SourceMeta)
    requires Clean(deps, EndDeps)
    ensures ParseDeps(Stream(Lines(deps + [EndDeps]) + tail, true), m)
            == ParseHash(Stream(tail, true), m.(deps := m.deps + deps))
  {
    var rest := Lines(deps + [EndDeps]) + tail;
    Section(deps, EndDeps, Deps, tail, m.deps);
    DepsThen(rest, m, LoopEnd(true, Stream(tail, true), m.deps + deps));
  }

  /** ParseDeps goes on to the hash line from where its loop stopped. */
  lemma DepsThen(rest: Bytes, m: SourceMeta, r: LoopEnd)
    requires r.ok
    requires AfterOpen(Stream(rest, true), Deps, m.deps, EndDeps) == r
    ensures ParseDeps(Stream(rest, true), m) == ParseHash(r.st, m.(deps := r.acc))
  {
  }

  /** The three head lines of a record file. */
  lemma FileHeads(a: Bytes, b: Bytes, rest: Bytes, m0: SourceMeta)
    requires '\n' !in a && '\n' !in b
    ensures ParseRecord(Stream(Lines([a, b, Deps]) + rest, true), m0)
            == ParseDeps(Stream(rest, true), m0.(source := a, objFile := b))
  {
    var l0: seq<Bytes> := [a, b, Deps];
    var l1: seq<Bytes> := [b, Deps];
    var l2: seq<Bytes> := [Deps];
    assert l0[1..] == l1 && l1[1..] == l2 && l2[1..] == [];
    GetLineLines(l0, rest, []);
    GetLineLines(l1, rest, a);
    GetLineLines(l2, rest, b);
    assert Lines([]) + rest == rest;
  }

  /** The section keywords hold neither '\n' nor NUL. */
  lemma KeywordsFree()
    ensures '\0' !in Deps && '\0' !in EndDeps && '\0' !in CArgs && '\0' !in EndCArgs
    ensures '\0' !in LArgs && '\0' !in EndLArgs
  {
    assert Deps == ['D', 'E', 'P', 'S'];
    assert EndDeps == ['E', 'N', 'D', 'D', 'E', 'P', 'S'];
    assert CArgs == ['C', 'A', 'R', 'G', 'S'];
    assert EndCArgs == ['E', 'N', 'D', 'C', 'A', 'R', 'G', 'S'];
    assert LArgs == ['L', 'A', 'R', 'G', 'S'];
    assert EndLArgs == ['E', 'N', 'D', 'L', 'A', 'R', 'G', 'S'];
  }

  /** `Free` distributes over concatenation. */
  lemma FreeAppend(a: seq<Bytes>, b: seq<Bytes>, c: Byte)
    ensures Free(a + b, c) <==> Free(a, c) && Free(b, c)
  {
    if Free(a + b, c) {
      assert forall i :: 0 <= i < |a| ==> (a + b)[i] == a[i];
      assert forall i :: 0 <= i < |b| ==> (a + b)[|a| + i] == b[i];
    }
    if Free(a, c) && Free(b, c) {
      forall i | 0 <= i < |a + b| ensures c !in (a + b)[i] {
        if i < |a| {
          assert (a + b)[i] == a[i];
        } else {
          assert (a + b)[i] == b[i - |a|];
        }
      }
    }
  }

  /** A numeral holds no NUL. */
  lemma DigitsNoNul(d: Bytes)
    requires AllDigits(d)
    ensures '\0' !in d
  {
    assert forall j :: 0 <= j < |d| ==> d[j] != '\0';
  }

  /** The fields of a writable record hold neither '\n' nor NUL, and
      neither does the text written for it. */
  lemma WritableParts(m: SourceMeta)
    requires Writable(m)
    ensures '\n' !in m.source && '\n' !in m.objFile && Free(m.deps, '\n')
    ensures '\0' !in FileText(m)
  {
    var heads: seq<Bytes> := [m.source, m.objFile];
    FreeAppend(heads, m.deps, '\n');
    FreeAppend(heads, m.deps, '\0');
    assert heads[0] == m.source && heads[1] == m.objFile;
    var front: seq<Bytes> := heads + [Deps];
    FreeAppend(heads, [Deps], '\0');
    FreeAppend(front, m.deps, '\0');
    DigitsNoNul(HashLine(m.hash));
    var back: seq<Bytes> := [EndDeps, HashLine(m.hash)];
    assert Free(back, '\0');
    FreeAppend(front + m.deps, back, '\0');
    assert [m.source, m.objFile, Deps] + m.deps + [EndDeps, HashLine(m.hash)] == front + m.deps + back;
    LinesFree(front + m.deps + back, '\0');
  }

  /** The text of a record, split at its sections. */
  lemma FileTextSplit(m: SourceMeta)
    ensures FileText(m) == Lines([m.source, m.objFile, Deps])
            + (Lines(m.deps + [EndDeps]) + Lines([HashLine(m.hash)]))
  {
    var front: seq<Bytes> := [m.source, m.objFile, Deps];
    var xs := front + m.deps + [EndDeps, HashLine(m.hash)];
    assert xs == front + ((m.deps + [EndDeps]) + [HashLine(m.hash)]);
    LinesAppend(front, (m.deps + [EndDeps]) + [HashLine(m.hash)]);
    LinesAppend(m.deps + [EndDeps], [HashLine(m.hash)]);
  }

  /** Reading back a written record reproduces it, when the record the
      reader appends to starts with no deps. */
  lemma FileRoundTrip(m: SourceMeta, m0: SourceMeta)
    requires Writable(m) && m0.deps == []
    ensures ParseFile(FileText(m), m0) == (0, m)
  {
    WritableParts(m);
    FileTextSplit(m);
    var hashText := Lines([HashLine(m.hash)]);
    var m1 := m0.(source := m.source, objFile := m.objFile);
    FileHeads(m.source, m.objFile, Lines(m.deps + [EndDeps]) + hashText, m0);
    FreeClean(m.deps, EndDeps);
    DepsSection(m.deps, hashText, m1);
    assert m1.deps + m.deps == m.deps;
    HashSection(m.hash, m1.(deps := m.deps));
  }

  /** A record file in which "ENDDEPS" never appears is rejected. */
  lemma MissingEndDepsRejected(source: Bytes, objFile: Bytes, ds: seq<Bytes>, m0: SourceMeta)
    requires Free([source, objFile] + ds, '\n') && Free([source, objFile] + ds, '\0')
    requires forall i :: 0 <= i < |ds| ==> ds[i] != EndDeps
    ensures ParseFile(Lines([source, objFile, Deps] + ds), m0).0 == -3
  {
    HeadsAndDeps(source, objFile, ds);
    FileHeads(source, objFile, Lines(ds), m0);
    FreeClean(ds, EndDeps);
    DepsNoEnd(ds, m0.(source := source, objFile := objFile));
  }

  /** The text of the head lines and then the deps lines. */
  lemma HeadsAndDeps(source: Bytes, objFile: Bytes, ds: seq<Bytes>)
    requires Free([source, objFile] + ds, '\n') && Free([source, objFile] + ds, '\0')
    ensures '\n' !in source && '\n' !in objFile && Free(ds, '\n')
    ensures Data(Lines([source, objFile, Deps] + ds)) == Lines([source, objFile, Deps]) + Lines(ds)
  {
    var heads: seq<Bytes> := [source, objFile];
    FreeAppend(heads, ds, '\n');
    FreeAppend(heads, ds, '\0');
    assert heads[0] == source && heads[1] == objFile;
    var front: seq<Bytes> := heads + [Deps];
    KeywordsFree();
    assert [Deps][0] == Deps;
    FreeAppend(heads, [Deps], '\0');
    FreeAppend(front, ds, '\0');
    assert [source, objFile, Deps] == front;
    LinesFree(front + ds, '\0');
    LinesAppend(front, ds);
  }

  /** A deps section with no terminator is rejected. */
  lemma DepsNoEnd(ds: seq<Bytes>, m: SourceMeta)
    requires Clean(ds, EndDeps)
    ensures ParseDeps(Stream(Lines(ds), true), m).0 == -3
  {
    NoEndSection(ds, EndDeps, Deps, m.deps);
  }

  /** The fields of a writable target record hold neither '\n' nor NUL,
      and neither does the text written for it. */
  lemma WritableTargetParts(t: TargetMeta)
    requires WritableTarget(t)
    ensures '\n' !in t.out && '\n' !in t.compiler && '\n' !in t.linker && '\n' !in t.packer
    ensures Free(t.cargs, '\n') && Free(t.largs, '\n')
    ensures '\0' !in TargetText(t)
  {
    var heads: seq<Bytes> := [t.out, t.compiler, t.linker, t.packer];
    FreeAppend(heads + t.cargs, t.largs, '\n');
    FreeAppend(heads, t.cargs, '\n');
    FreeAppend(heads + t.cargs, t.largs, '\0');
    FreeAppend(heads, t.cargs, '\0');
    assert heads[0] == t.out && heads[1] == t.compiler && heads[2] == t.linker && heads[3] == t.packer;
    var p1: seq<Bytes> := heads + [CArgs];
    FreeAppend(heads, [CArgs], '\0');
    FreeAppend(p1, t.cargs, '\0');
    var p2: seq<Bytes> := [EndCArgs, LArgs];
    assert Free(p2, '\0');
    FreeAppend(p1 + t.cargs, p2, '\0');
    FreeAppend(p1 + t.cargs + p2, t.largs, '\0');
    var p3: seq<Bytes> := [EndLArgs];
    assert Free(p3, '\0');
    FreeAppend(p1 + t.cargs + p2 + t.largs, p3, '\0');
    assert [t.out, t.compiler, t.linker, t.packer, CArgs] + t.cargs + [EndCArgs, LArgs] + t.largs + [EndLArgs]
           == p1 + t.cargs + p2 + t.largs + p3;
    LinesFree(p1 + t.cargs + p2 + t.largs + p3, '\0');
  }

  /** The text of a target record, split at its sections. */
  lemma TargetTextSplit(t: TargetMeta)
    ensures TargetText(t) == Lines([t.out, t.compiler, t.linker, t.packer, CArgs])
            + (Lines(t.cargs + [EndCArgs]) + (LArgs + ['\n'] + Lines(t.largs + [EndLArgs])))
  {
    var front: seq<Bytes> := [t.out, t.compiler, t.linker, t.packer, CArgs];
    var mid := t.cargs + [EndCArgs];
    var back := [LArgs] + (t.largs + [EndLArgs]);
    var xs := front + t.cargs + [EndCArgs, LArgs] + t.largs + [EndLArgs];
    assert xs == front + (mid + back);
    LinesAppend(front, mid + back);
    LinesAppend(mid, back);
    assert back[0] == LArgs && back[1..] == t.largs + [EndLArgs];
  }

  /** The five head lines of a target record. */
  lemma TargetHeads(o: Bytes, c: Bytes, l: Bytes, p: Bytes, rest: Bytes, t0: TargetMeta)
    requires '\n' !in o && '\n' !in c && '\n' !in l && '\n' !in p
    ensures ParseTargetRecord(Stream(Lines([o, c, l, p, CArgs]) + rest, true), t0)
            == ParseCArgs(Stream(rest, true), t0.(out := o, compiler := c, linker := l, packer := p))
  {
    var l0: seq<Bytes> := [o, c, l, p, CArgs];
    var l1: seq<Bytes> := [c, l, p, CArgs];
    var l2: seq<Bytes> := [l, p, CArgs];
    var l3: seq<Bytes> := [p, CArgs];
    var l4: seq<Bytes> := [CArgs];
    assert l0[1..] == l1 && l1[1..] == l2 && l2[1..] == l3 && l3[1..] == l4 && l4[1..] == [];
    GetLineLines(l0, rest, []);
    GetLineLines(l1, rest, o);
    GetLineLines(l2, rest, c);
    GetLineLines(l3, rest, l);
    GetLineLines(l4, rest, p);
    assert Lines([]) + rest == rest;
  }

  /** The compiler-argument section of a target record. */
  lemma CArgsSection(cargs: seq<Bytes>, tail: Bytes, t: TargetMeta)
    requires Clean(cargs, EndCArgs)
    ensures ParseCArgs(Stream(Lines(cargs + [EndCArgs]) + tail, true), t)
            == ParseLArgs(Stream(tail, true), t.(cargs := t.cargs + cargs))
  {
    Section(cargs, EndCArgs, CArgs, tail, t.cargs);
  }

  /** The "LARGS" line and the linker-argument section. */
  lemma LArgsSection(largs: seq<Bytes>, t: TargetMeta)
    requires Clean(largs, EndLArgs)
    ensures ParseLArgs(Stream(LArgs + ['\n'] + Lines(largs + [EndLArgs]), true), t)
            == (0, t.(largs := t.largs + largs))
  {
    var r := LoopEnd(true, Stream([], true), t.largs + largs);
    assert AfterOpen(Stream(Lines(largs + [EndLArgs]), true), LArgs, t.largs, EndLArgs) == r by {
      SectionAtEnd(largs, EndLArgs, LArgs, t.largs);
    }
    LArgsThen(Lines(largs + [EndLArgs]), t, r);
  }

  /** Section for a section that ends the text. */
  lemma SectionAtEnd(args: seq<Bytes>, end: Bytes, open: Bytes, acc: seq<Bytes>)
    requires Clean(args, end) && '\n' !in end
    ensures AfterOpen(Stream(Lines(args + [end]), true), open, acc, end)
            == LoopEnd(true, Stream([], true), acc + args)
  {
    Section(args, end, open, [], acc);
    assert Lines(args + [end]) + [] == Lines(args + [end]);
  }

  /** After the "LARGS" line ParseLArgs returns what its loop gives. */
  lemma LArgsThen(rest: Bytes, t: TargetMeta, r: LoopEnd)
    requires AfterOpen(Stream(rest, true), LArgs, t.largs, EndLArgs) == r
    ensures ParseLArgs(Stream(LArgs + ['\n'] + rest, true), t) == (if r.ok then 0 else -3, t.(largs := r.acc))
  {
    GetLineOf(LArgs, rest, EndCArgs);
  }

  /** The text of a target record's head lines, its "CARGS" line and
      then the lines `xs`, all free of '\n' and NUL, is read as written,
      and splits after the "CARGS" line. */
  lemma TargetFront(o: Bytes, c: Bytes, l: Bytes, p: Bytes, xs: seq<Bytes>)
    requires Free([o, c, l, p] + xs, '\n') && Free([o, c, l, p] + xs, '\0')
    ensures '\n' !in o && '\n' !in c && '\n' !in l && '\n' !in p
    ensures Free(xs, '\n') && Free(xs, '\0')
    ensures Data(Lines([o, c, l, p, CArgs] + xs)) == Lines([o, c, l, p, CArgs]) + Lines(xs)
  {
    var heads: seq<Bytes> := [o, c, l, p];
    FreeAppend(heads, xs, '\n');
    FreeAppend(heads, xs, '\0');
    assert heads[0] == o && heads[1] == c && heads[2] == l && heads[3] == p;
    var front: seq<Bytes> := heads + [CArgs];
    KeywordsFree();
    assert [CArgs][0] == CArgs;
    FreeAppend(heads, [CArgs], '\0');
    FreeAppend(front, xs, '\0');
    assert [o, c, l, p, CArgs] == front;
    LinesFree(front + xs, '\0');
    LinesAppend(front, xs);
  }

  /** A target record whose compiler arguments never reach "ENDCARGS":
      with the corrected loop the reader rejects it. */
  lemma MissingEndCArgsRejected(o: Bytes, c: Bytes, l: Bytes, p: Bytes, cs: seq<Bytes>, t0: TargetMeta)
    requires Free([o, c, l, p] + cs, '\n') && Free([o, c, l, p] + cs, '\0')
    requires forall i :: 0 <= i < |cs| ==> cs[i] != EndCArgs
    ensures ParseTarget(Lines([o, c, l, p, CArgs] + cs), t0).0 == -3
  {
    TargetFront(o, c, l, p, cs);
    TargetHeads(o, c, l, p, Lines(cs), t0);
    FreeClean(cs, EndCArgs);
    assert EndCArgs != [];
    NoEndSection(cs, EndCArgs, CArgs, t0.cargs);
  }

  /** The argument lines of a cut target record, with the "ENDCARGS" and
      "LARGS" lines between them, hold neither '\n' nor NUL when the
      arguments hold none. */
  lemma ArgsFree(heads: seq<Bytes>, cs: seq<Bytes>, ls: seq<Bytes>, b: Byte)
    requires Free(heads + cs + ls, b) && b != 'E' && b != 'N' && b != 'D' && b != 'L' && b != 'A' && b != 'R' && b != 'G' && b != 'S' && b != 'C'
    ensures Free(heads + (cs + [EndCArgs, LArgs] + ls), b) && Free(cs, b) && Free(ls, b)
  {
    assert EndCArgs == ['E', 'N', 'D', 'C', 'A', 'R', 'G', 'S'];
    assert LArgs == ['L', 'A', 'R', 'G', 'S'];
    assert [EndCArgs, LArgs][0] == EndCArgs && [EndCArgs, LArgs][1] == LArgs;
    FreeAppend(heads, cs, b);
    FreeAppend(heads + cs, ls, b);
    FreeAppend(cs, [EndCArgs, LArgs], b);
    FreeAppend(cs + [EndCArgs, LArgs], ls, b);
    FreeAppend(heads, cs + [EndCArgs, LArgs] + ls, b);
  }

  /** A clean compiler-argument section, then a "LARGS" line and linker
      arguments that never reach "ENDLARGS": the corrected reader gives -3. */
  lemma LArgsNoEnd(cs: seq<Bytes>, ls: seq<Bytes>, t: TargetMeta)
    requires Clean(cs, EndCArgs) && Clean(ls, EndLArgs)
    ensures ParseCArgs(Stream(Lines(cs + [EndCArgs]) + (LArgs + ['\n'] + Lines(ls)), true), t).0 == -3
  {
    CArgsSection(cs, LArgs + ['\n'] + Lines(ls), t);
    var t1 := t.(cargs := t.cargs + cs);
    assert EndLArgs != [];
    NoEndSection(ls, EndLArgs, LArgs, t1.largs);
    LArgsThen(Lines(ls), t1, AfterOpen(Stream(Lines(ls), true), LArgs, t1.largs, EndLArgs));
  }

  /** The lines after "CARGS" of a target record cut in its linker
      arguments. */
  lemma ArgsLines(cs: seq<Bytes>, ls: seq<Bytes>)
    ensures Lines(cs + [EndCArgs, LArgs] + ls) == Lines(cs + [EndCArgs]) + (LArgs + ['\n'] + Lines(ls))
  {
    assert cs + [EndCArgs, LArgs] + ls == (cs + [EndCArgs]) + ([LArgs] + ls);
    LinesAppend(cs + [EndCArgs], [LArgs] + ls);
    assert ([LArgs] + ls)[0] == LArgs && ([LArgs] + ls)[1..] == ls;
  }

  /** A target record whose linker arguments never reach "ENDLARGS": with
      the corrected loop the reader rejects it. */
  lemma MissingEndLArgsRejected(o: Bytes, c: Bytes, l: Bytes, p: Bytes, cs: seq<Bytes>, ls: seq<Bytes>, t0: TargetMeta)
    requires Free([o, c, l, p] + cs + ls, '\n') && Free([o, c, l, p] + cs + ls, '\0')
    requires forall i :: 0 <= i < |cs| ==> cs[i] != EndCArgs
    requires forall i :: 0 <= i < |ls| ==> ls[i] != EndLArgs
    ensures ParseTarget(Lines([o, c, l, p, CArgs] + cs + [EndCArgs, LArgs] + ls), t0).0 == -3
  {
    var xs := cs + [EndCArgs, LArgs] + ls;
    var front, mid := [o, c, l, p, CArgs], [EndCArgs, LArgs];
    ConcatAssoc(front + cs, mid, ls);
    ConcatAssoc(front, cs, mid + ls);
    ConcatAssoc(cs, mid, ls);
    ArgsFree([o, c, l, p], cs, ls, '\n');
    ArgsFree([o, c, l, p], cs, ls, '\0');
    TargetFront(o, c, l, p, xs);
    ArgsLines(cs, ls);
    TargetHeads(o, c, l, p, Lines(xs), t0);
    FreeClean(cs, EndCArgs);
    FreeClean(ls, EndLArgs);
    LArgsNoEnd(cs, ls, t0.(out := o, compiler := c, linker := l, packer := p));
  }

  /** A target record cut right after its "CARGS" line: the next read
      fails the stream and clears the line, so the as-written
      compiler-argument loop turns forever, while the corrected reader
      rejects the record. */
  lemma NoEndCArgsSpins(o: Bytes, c: Bytes, l: Bytes, p: Bytes, t0: TargetMeta, fuel: nat)
    requires Free([o, c, l, p], '\n') && Free([o, c, l, p], '\0')
    ensures ParseTarget(Lines([o, c, l, p, CArgs]), t0).0 == -3
    ensures GetLine(Stream([], true), CArgs) == (Stream([], false), [])
    ensures ReadUntilAsWritten(fuel, Stream([], false), [], t0.cargs, EndCArgs) == None
  {
    assert [o, c, l, p] + [] == [o, c, l, p] && [o, c, l, p, CArgs] + [] == [o, c, l, p, CArgs];
    MissingEndCArgsRejected(o, c, l, p, [], t0);
    AsWrittenSpins(fuel, Stream([], false), [], t0.cargs, EndCArgs);
  }

  /** A target record with no compiler arguments, cut right after its
      "LARGS" line: the as-written linker-argument loop turns forever,
      while the corrected reader rejects the record. */
  lemma NoEndLArgsSpins(o: Bytes, c: Bytes, l: Bytes, p: Bytes, t0: TargetMeta, fuel: nat)
    requires Free([o, c, l, p], '\n') && Free([o, c, l, p], '\0')
    ensures ParseTarget(Lines([o, c, l, p, CArgs, EndCArgs, LArgs]), t0).0 == -3
    ensures GetLine(Stream([], true), LArgs) == (Stream([], false), [])
    ensures ReadUntilAsWritten(fuel, Stream([], false), [], t0.largs, EndLArgs) == None
  {
    assert [o, c, l, p] + [] + [] == [o, c, l, p];
    assert [o, c, l, p, CArgs] + [] + [EndCArgs, LArgs] + [] == [o, c, l, p, CArgs, EndCArgs, LArgs];
    MissingEndLArgsRejected(o, c, l, p, [], [], t0);
    AsWrittenSpins(fuel, Stream([], false), [], t0.largs, EndLArgs);
  }

  /** Target metadata read back from what was written. */
  lemma TargetRoundTrip(t: TargetMeta, t0: TargetMeta)
    requires WritableTarget(t) && t0.cargs == [] && t0.largs == []
    ensures ParseTarget(TargetText(t), t0) == (0, t)
  {
    WritableTargetParts(t);
    FreeClean(t.cargs, EndCArgs);
    FreeClean(t.largs, EndLArgs);
    CleanTargetRoundTrip(t, t0);
  }

  /** TargetRoundTrip for fields stated line by line. */
  lemma CleanTargetRoundTrip(t: TargetMeta, t0: TargetMeta)
    requires '\n' !in t.out && '\n' !in t.compiler && '\n' !in t.linker && '\n' !in t.packer
    requires Clean(t.cargs, EndCArgs) && Clean(t.largs, EndLArgs) && '\0' !in TargetText(t)
    requires t0.cargs == [] && t0.largs == []
    ensures ParseTarget(TargetText(t), t0) == (0, t)
  {
    TargetTextSplit(t);
    var rest := Lines(t.cargs + [EndCArgs]) + (LArgs + ['\n'] + Lines(t.largs + [EndLArgs]));
    TargetHeads(t.out, t.compiler, t.linker, t.packer, rest, t0);
    var t1 := t0.(out := t.out, compiler := t.compiler, linker := t.linker, packer := t.packer);
    TargetArgs(t, t1);
  }

  /** The two argument sections of a target record. */
  lemma TargetArgs(t: TargetMeta, t1: TargetMeta)
    requires Clean(t.cargs, EndCArgs) && Clean(t.largs, EndLArgs)
    requires t1 == t.(cargs := [], largs := [])
    ensures ParseCArgs(Stream(Lines(t.cargs + [EndCArgs]) + (LArgs + ['\n'] + Lines(t.largs + [EndLArgs])), true), t1)
            == (0, t)
  {
    var back := LArgs + ['\n'] + Lines(t.largs + [EndLArgs]);
    CArgsSection(t.cargs, back, t1);
    assert [] + t.cargs == t.cargs;
    var t2 := t1.(cargs := t.cargs);
    LArgsSection(t.largs, t2);
    assert [] + t.largs == t.largs;
  }

  /** The metadata files on disk, under `CBUILD_METADATA_FOLDER` and with
      `CBUILD_METADATA_FILE_EXTENSION`. */
  class Store {
    const folder: Bytes
    const ext: Bytes
    var files: map<Bytes, Bytes>

    constructor (folder: Bytes, ext: Bytes, files: map<Bytes, Bytes>)
      ensures this.folder == folder && this.ext == ext && this.files == files
    {
      this.folder := folder;
      this.ext := ext;
      this.files := files;
    }

    /** `get_file_metadata_path`. */
    method GetFileMetadataPath(target: Bytes, file: Bytes) returns (path: Bytes)
      ensures path == FileMetadataPath(target, file, folder, ext)
    {
      var pos := RFind(file, '.');
      var stem := if pos >= 0 then file[..pos] else file;
      stem := ReplaceSlashes(stem);
      path := BuildDir + "/" + target + "/" + folder + "/" + stem + ext;
    }

    /** `read_file_metadata_internal`, with the deps loop ending at a failed
        stream. */
    method ReadFileMetadataInternal(path: Bytes, m0: SourceMeta) returns (code: int, m: SourceMeta)
      ensures path !in files ==> code == -1 && m == m0
      ensures path in files ==> (code, m) == ParseFile(files[path], m0)
    {
      if path !in files {
        return -1, m0;
      }
      var st := Stream(Data(files[path]), true);
      var line: Bytes := [];
      st, line := ReadLine(st, line);
      m := m0.(source := line);
      st, line := ReadLine(st, line);
      m := m.(objFile := line);
      st, line := ReadLine(st, line);
      if line != Deps {
        return -3, m;
      }
      st, line := ReadLine(st, line);
      ghost var loop := ReadUntil(st, line, m.deps, EndDeps);
      var deps := m.deps;
      while line != EndDeps && st.good
        invariant ReadUntil(st, line, deps, EndDeps) == loop
        decreases |st.rest|, if st.good then 1 else 0
      {
        deps := deps + [line];
        st, line := ReadLine(st, line);
      }
      m := m.(deps := deps);
      if line != EndDeps {
        return -3, m;
      }
      st, line := ReadLine(st, line);
      if line == [] || !IsDigit(line[0]) || !IsDigit(line[|line| - 1]) {
        return -3, m;
      }
      m := m.(hash := StrToULL(line));
      code := 0;
    }

    /** `read_file_metadata`. */
    method ReadFileMetadata(target: Bytes, src: Bytes, m0: SourceMeta) returns (code: int, m: SourceMeta)
      ensures var p := FileMetadataPath(target, src, folder, ext);
              (p !in files ==> code == -1 && m == m0) && (p in files ==> (code, m) == ParseFile(files[p], m0))
    {
      var path := GetFileMetadataPath(target, src);
      code, m := ReadFileMetadataInternal(path, m0);
    }

    /** `read_target_metadata`. */
    method ReadTargetMetadata(target: Bytes, t0: TargetMeta) returns (code: int, t: TargetMeta)
      ensures var p := TargetMetadataPath(target, ext);
              (p !in files ==> code == -1 && t == t0) && (p in files ==> (code, t) == ParseTarget(files[p], t0))
    {
      var path := BuildDir + "/" + target + "/" + target + ext;
      if path !in files {
        return -1, t0;
      }
      var st := Stream(Data(files[path]), true);
      var line: Bytes := [];
      st, line := ReadLine(st, line);
      t := t0.(out := line);
      st, line := ReadLine(st, line);
      t := t.(compiler := line);
      st, line := ReadLine(st, line);
      t := t.(linker := line);
      st, line := ReadLine(st, line);
      t := t.(packer := line);
      st, line := ReadLine(st, line);
      if line != CArgs {
        return -3, t;
      }
      st, line := ReadLine(st, line);
      ghost var c := ReadUntil(st, line, t.cargs, EndCArgs);
      var cargs := t.cargs;
      while line != EndCArgs && st.good
        invariant ReadUntil(st, line, cargs, EndCArgs) == c
        decreases |st.rest|, if st.good then 1 else 0
      {
        cargs := cargs + [line];
        st, line := ReadLine(st, line);
      }
      t := t.(cargs := cargs);
      if line != EndCArgs {
        return -3, t;
      }
      st, line := ReadLine(st, line);
      if line != LArgs {
        return -3, t;
      }
      st, line := ReadLine(st, line);
      ghost var l := ReadUntil(st, line, t.largs, EndLArgs);
      var largs := t.largs;
      while line != EndLArgs && st.good
        invariant ReadUntil(st, line, largs, EndLArgs) == l
        decreases |st.rest|, if st.good then 1 else 0
      {
        largs := largs + [line];
        st, line := ReadLine(st, line);
      }
      t := t.(largs := largs);
      if line != EndLArgs {
        return -3, t;
      }
      code := 0;
    }

    /** `read_file_hash`: the hash field after the read, whatever the code;
        `junk` is the indeterminate hash of the default-constructed record. */
    method ReadFileHash(target: Bytes, file: Bytes, junk: nat) returns (code: int, hash: nat)
      ensures var p := FileMetadataPath(target, file, folder, ext);
              var m0 := SourceMeta([], [], [], junk);
              (p !in files ==> code == -1 && hash == junk)
              && (p in files ==> code == ParseFile(files[p], m0).0 && hash == ParseFile(files[p], m0).1.hash)
    {
      var m;
      code, m := ReadFileMetadata(target, file, SourceMeta([], [], [], junk));
      hash := m.hash;
    }

    /** `write_file_metadata`. */
    method WriteFileMetadata(target: Bytes, src: Bytes, m: SourceMeta) returns (code: int)
      modifies this
      ensures files == old(files)[FileMetadataPath(target, src, folder, ext) := FileText(m)]
      ensures code == 0
    {
      var path := GetFileMetadataPath(target, src);
      files := files[path := FileText(m)];
      code := 0;
    }

    /** `write_target_metadata`. */
    method WriteTargetMetadata(target: Bytes, t: TargetMeta) returns (code: int)
      modifies this
      ensures files == old(files)[TargetMetadataPath(target, ext) := TargetText(t)]
      ensures code == 0
    {
      files := files[BuildDir + "/" + target + "/" + target + ext := TargetText(t)];
      code := 0;
    }

    /** `write_file_hash`: a failed read is passed on and nothing is
        written; otherwise the record is written back with the new hash. */
    method WriteFileHash(target: Bytes, file: Bytes, hash: nat, junk: nat) returns (code: int)
      modifies this
      ensures var p := FileMetadataPath(target, file, folder, ext);
              (p !in old(files) ==> code == -1 && files == old(files))
              && (p in old(files) ==>
                    var r := ParseFile(old(files)[p], SourceMeta([], [], [], junk));
                    (r.0 != 0 ==> code == r.0 && files == old(files))
                    && (r.0 == 0 ==> code == 0 && files == old(files)[p := FileText(r.1.(hash := hash))]))
    {
      var m;
      code, m := ReadFileMetadata(target, file, SourceMeta([], [], [], junk));
      if code != 0 {
        return;
      }
      m := m.(hash := hash);
      code := WriteFileMetadata(target, file, m);
    }
  }

  /** `write_file_hash` after a successful read changes only the hash: the
      written record reads back as the old one with the new hash. */
  lemma WriteHashKeepsRecord(m: SourceMeta, hash: nat, m0: SourceMeta)
    requires Writable(m) && hash <= U64Max && m0.deps == []
    ensures ParseFile(FileText(m.(hash := hash)), m0) == (0, m.(hash := hash))
  {
    FileRoundTrip(m.(hash := hash), m0);
  }
}
