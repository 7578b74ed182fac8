/** The path helpers of cbuild.h: `cbuild_path_ext`, `cbuild_path_name`,
    `cbuild_path_base` and `cbuild_path_normalize`. A path is the byte
    content of a C string, without its terminating NUL. */
module Paths {
  import opened Bytes
  import opened Seqs
  import opened StringView

  /* ---------------------------------------------------------------------- */
  /* Copying the tail of a C string                                         */
  /* ---------------------------------------------------------------------- */

  /** The byte count `cbuild_path_ext` and `cbuild_path_name` hand to
      `memcpy` when they copy `path + i + 1`, for a path of `n` bytes and a
      split index `-1 <= i < n`: `strlen(path) - i + 1`. */
  function TailCopyLenAsWritten(n: nat, i: int): (len: int)
    requires -1 <= i < n
    ensures len == n - i + 1
  {
    n - i + 1
  }

  /** The copy as written ends one byte past the NUL: the source buffer
      holds `n + 1` bytes, the copy reads up to offset `n + 2`. */
  lemma TailCopyOverreads(n: nat, i: int)
    requires -1 <= i < n
    ensures (i + 1) + TailCopyLenAsWritten(n, i) == n + 2
    ensures (i + 1) + TailCopyLenAsWritten(n, i) > n + 1
  {
  }

  /** The count that copies the tail up to and including the NUL. */
  function TailCopyLen(n: nat, i: int): (len: nat)
    requires -1 <= i < n
    ensures (i + 1) + len == n + 1
    ensures len >= 1
  {
    n - i
  }

  /** Copy `path[i + 1..]` out of the NUL-terminated buffer, as the two
      helpers do with the corrected count; the copy ends with the NUL, which
      is dropped from the returned content. */
  function CopyTail(path: Bytes, i: int): (r: Bytes)
    requires -1 <= i < |path|
    ensures r == path[i + 1..]
  {
    var buf := path + ['\0'];
    var copied := buf[i + 1 .. i + 1 + TailCopyLen(|path|, i)];
    assert copied[..|copied| - 1] == path[i + 1..];
    copied[..|copied| - 1]
  }

  /* ---------------------------------------------------------------------- */
  /* Extension, name, base                                                  */
  /* ---------------------------------------------------------------------- */

  /** `cbuild_path_ext`: what follows the last '.', or "" without one. A '/'
      after the last '.' does not stop the scan. */
  method PathExt(path: Bytes) returns (r: Bytes)
    ensures '.' !in path ==> r == []
    ensures '.' in path ==> r == path[RFind(path, '.') + 1..]
    ensures '.' !in r
    ensures '.' in path ==> |r| < |path| && path[|path| - |r| - 1] == '.' && r == path[|path| - |r|..]
  {
    var i: int := |path|;
    var found := false;
    while i >= 0
      invariant -1 <= i <= |path|
      invariant forall k :: i < k < |path| ==> path[k] != '.'
      invariant !found
      decreases i + 1
    {
      if i < |path| && path[i] == '.' {
        found := true;
        break;
      }
      i := i - 1;
    }
    if !found {
      return [];
    }
    RFindIsLast(path, '.', i);
    r := CopyTail(path, i);
  }

  /** End of the part that the name/base scan looks at: a single trailing
      '/' is skipped. */
  function ScanEnd(path: Bytes): (t: nat)
    requires |path| > 0
    ensures t == |path| || (t == |path| - 1 && path[t] == '/')
  {
    if path[|path| - 1] == '/' then |path| - 1 else |path|
  }

  /** Where the last component starts: one past the last '/' before
      `ScanEnd`, or 0. The directory part is what precedes it. */
  function SplitPoint(path: Bytes): (j: nat)
    requires |path| > 0
    ensures j <= ScanEnd(path)
    ensures forall k :: j <= k < ScanEnd(path) ==> path[k] != '/'
    ensures j == 0 || path[j - 1] == '/'
  {
    var t := ScanEnd(path);
    var k := RFind(path[..t], '/');
    NoneAfter(path[..t], '/', k);
    k + 1
  }

  /** The scan down from index `i` for '/' shared by name and base. */
  method ScanForSlash(path: Bytes) returns (i: int)
    requires |path| > 0
    ensures i == SplitPoint(path) - 1
  {
    i := |path|;
    if path[|path| - 1] == '/' {
      i := i - 2;
    }
    ghost var t := ScanEnd(path);
    while i >= 0
      invariant -1 <= i <= t
      invariant forall k :: i < k < t ==> path[k] != '/'
      decreases i + 1
    {
      if i < |path| && path[i] == '/' {
        break;
      }
      i := i - 1;
    }
    if i >= 0 {
      RFindIsLast(path[..t], '/', i);
    } else {
      assert '/' !in path[..t] by {
        forall m | 0 <= m < t ensures path[..t][m] != '/' { assert path[..t][m] == path[m]; }
      }
    }
  }

  /** `cbuild_path_name`: the last component, with its trailing '/' when
      the path had one. The caller must pass a non-empty path (the source
      reads `path[-1]` otherwise). */
  method PathName(path: Bytes) returns (r: Bytes)
    requires |path| > 0
    ensures r == path[SplitPoint(path)..]
    ensures r != []
    ensures forall k :: 0 <= k < |r| - 1 ==> r[k] != '/'
  {
    var i := ScanForSlash(path);
    r := CopyTail(path, i);
  }

  /** `cbuild_path_base`: the directory part, ending with '/', or "" when
      the last component is the whole path. */
  method PathBase(path: Bytes) returns (r: Bytes)
    requires |path| > 0
    ensures r == path[..SplitPoint(path)]
    ensures r == [] || r[|r| - 1] == '/'
  {
    var i := ScanForSlash(path);
    if i < 0 {
      return [];
    }
    r := path[..i + 1];
  }

  /** Base and name split the path without losing or adding a byte. */
  lemma BaseNameSplit(path: Bytes)
    requires |path| > 0
    ensures path[..SplitPoint(path)] + path[SplitPoint(path)..] == path
  {
  }

  /* ---------------------------------------------------------------------- */
  /* Normalisation                                                          */
  /* ---------------------------------------------------------------------- */

  /** The state of the component walk: how many leading "../" were emitted
      and the directory stack. */
  datatype Walk = Walk(ups: nat, dirs: seq<Bytes>)

  /** One component: "" and "." change nothing, ".." pops (or is emitted
      when the stack is empty), anything else is pushed. */
  function Visit(w: Walk, dir: Bytes): Walk
  {
    if dir == [] || dir == ['.'] then w
    else if dir == ['.', '.'] then
      if w.dirs == [] then Walk(w.ups + 1, []) else Walk(w.ups, w.dirs[..|w.dirs| - 1])
    else Walk(w.ups, w.dirs + [dir])
  }

  /** The walk over all '/'-separated components of `p`. */
  function WalkAll(w: Walk, p: Bytes): Walk
    decreases |p|
  {
    if p == [] then w
    else
      var c := ChopByDelim(p, '/');
      assert |c.rest| < |p| by { if '/' in p { assert |c.taken + ['/'] + c.rest| == |p|; } }
      WalkAll(Visit(w, c.taken), c.rest)
  }

  /** One step of the do-while loop, also on an empty remainder. */
  lemma WalkAllStep(w: Walk, p: Bytes)
    ensures WalkAll(w, p) == WalkAll(Visit(w, ChopByDelim(p, '/').taken), ChopByDelim(p, '/').rest)
  {
  }

  /** The leading slashes kept: one for an absolute path, two for a path
      that starts with exactly "//" (POSIX leaves that case to the
      implementation). */
  function Root(p: Bytes): (r: Bytes)
    ensures |p| > 0 && p[0] == '/' ==> |r| >= 1
    ensures |r| == 2 <==> |p| >= 2 && p[0] == '/' && p[1] == '/' && !(|p| >= 3 && p[2] == '/')
    ensures r == [] <==> !(|p| > 0 && p[0] == '/')
    ensures forall k :: 0 <= k < |r| ==> r[k] == '/'
  {
    (if |p| > 0 && p[0] == '/' then ['/'] else [])
    + (if |p| >= 2 && p[0] == '/' && p[1] == '/' && !(|p| >= 3 && p[2] == '/') then ['/'] else [])
  }

  function Ups(n: nat): (r: Bytes)
    ensures |r| == 3 * n
  {
    if n == 0 then [] else Ups(n - 1) + ['.', '.', '/']
  }

  /** Every directory followed by '/'. */
  function JoinDirs(ds: seq<Bytes>): Bytes
  {
    if ds == [] then [] else JoinDirs(ds[..|ds| - 1]) + ds[|ds| - 1] + ['/']
  }

  /** The text before the final step: root, emitted "../", directories. */
  function Assemble(root: Bytes, w: Walk): Bytes
  {
    root + Ups(w.ups) + JoinDirs(w.dirs)
  }

  /** The final step: "." for an empty text, and no trailing '/' except
      for a bare "/" or "//". */
  function Finish(ret: Bytes): (r: Bytes)
    ensures r != []
    ensures ret == [] ==> r == ['.']
    ensures ret != [] && (ret == ['/'] || ret == ['/', '/'] || ret[|ret| - 1] != '/') ==> r == ret
    ensures ret != [] && !(ret == ['/'] || ret == ['/', '/']) && ret[|ret| - 1] == '/' ==> r == ret[..|ret| - 1]
  {
    var ret1 := if |ret| == 0 then ['.'] else ret;
    if !(ret1 == ['/'] || ret1 == ['/', '/']) && ret1[|ret1| - 1] == '/' then ret1[..|ret1| - 1]
    else ret1
  }

  /** The result of `cbuild_path_normalize`. */
  function Normalize(p: Bytes): (r: Bytes)
    ensures r != []
    ensures r[|r| - 1] == '/' ==> r == ['/'] || r == ['/', '/']
  {
    var w := WalkAll(Walk(0, []), p);
    var ret := Assemble(Root(p), w);
    WalkAllClean(Walk(0, []), p);
    NoDoubleSlashEnd(Root(p), w);
    Finish(ret)
  }

  predicate CleanDir(d: Bytes) {
    d != [] && '/' !in d && d != ['.'] && d != ['.', '.']
  }

  predicate CleanWalk(w: Walk) {
    forall k :: 0 <= k < |w.dirs| ==> CleanDir(w.dirs[k])
  }

  /** Only proper directory names are ever pushed. */
  lemma {:induction false} WalkAllClean(w: Walk, p: Bytes)
    requires CleanWalk(w)
    ensures CleanWalk(WalkAll(w, p))
    decreases |p|
  {
    if p != [] {
      var c := ChopByDelim(p, '/');
      if '/' in p { assert |c.taken + ['/'] + c.rest| == |p|; }
      var v := Visit(w, c.taken);
      assert CleanWalk(v) by {
        if c.taken != [] && c.taken != ['.'] && c.taken != ['.', '.'] {
          assert CleanDir(c.taken);
        }
      }
      WalkAllClean(v, c.rest);
    }
  }

  /** Before the final trim the text never ends in "//" unless it is all
      root. */
  lemma NoDoubleSlashEnd(root: Bytes, w: Walk)
    requires (forall k :: 0 <= k < |root| ==> root[k] == '/') && |root| <= 2
    requires CleanWalk(w)
    ensures var ret := root + Ups(w.ups) + JoinDirs(w.dirs);
            (|ret| >= 2 && ret[|ret| - 1] == '/' && !(ret == ['/'] || ret == ['/', '/'])) ==> ret[|ret| - 2] != '/'
  {
    var ret := root + Ups(w.ups) + JoinDirs(w.dirs);
    if w.dirs != [] {
      var d := w.dirs[|w.dirs| - 1];
      assert CleanDir(d);
      assert ret == (root + Ups(w.ups) + JoinDirs(w.dirs[..|w.dirs| - 1])) + d + ['/'];
      assert ret[|ret| - 2] == d[|d| - 1];
    } else if w.ups > 0 {
      assert Ups(w.ups) == Ups(w.ups - 1) + ['.', '.', '/'];
      assert ret[|ret| - 2] == '.';
    } else {
      assert ret == root;
      if |ret| == 2 {
        assert ret == ['/', '/'];
      }
    }
  }

  /** `cbuild_path_normalize`. The directory stack of the source is the
      local sequence `dirs`. */
  method PathNormalize(path: Bytes) returns (r: Bytes)
    ensures r == Normalize(path)
  {
    var ret: Bytes := [];
    if |path| > 0 && path[0] == '/' {
      ret := ret + ['/'];
    }
    if Prefix(path, ['/', '/']) && !Prefix(path, ['/', '/', '/']) {
      ret := ret + ['/'];
    }
    assert ret == Root(path) by { RootByPrefix(path); }
    var dirs;
    ret, dirs := WalkComponents(path, ret);
    ghost var w := WalkAll(Walk(0, []), path);
    ret := AppendDirs(ret, dirs);
    assert ret == Assemble(Root(path), w);
    r := FinishText(ret);
    NormalizeOfWalk(path, w);
  }

  /** The do-while loop of `cbuild_path_normalize`: each component is
      chopped off at the next '/' and visited; a ".." with an empty stack
      appends "../" to `ret`. */
  method WalkComponents(path: Bytes, ret0: Bytes) returns (ret: Bytes, dirs: seq<Bytes>)
    ensures ret == ret0 + Ups(WalkAll(Walk(0, []), path).ups)
    ensures dirs == WalkAll(Walk(0, []), path).dirs
  {
    ret := ret0;
    var rest := path;
    dirs := [];
    ghost var ups: nat := 0;
    var more := true;
    while more
      invariant ret == ret0 + Ups(ups)
      invariant WalkAll(Walk(0, []), path) == WalkAll(Walk(ups, dirs), rest)
      invariant !more ==> rest == []
      decreases |rest| + (if more then 1 else 0)
    {
      ret, dirs, ups, rest := ChopAndVisit(ret0, ret, dirs, ups, rest);
      more := |rest| > 0;
    }
  }

  /** The body of that loop: chop the next component off `rest0` and visit
      it. */
  method ChopAndVisit(ghost base: Bytes, ret0: Bytes, dirs0: seq<Bytes>, ghost ups0: nat, rest0: Bytes)
    returns (ret: Bytes, dirs: seq<Bytes>, ghost ups: nat, rest: Bytes)
    requires ret0 == base + Ups(ups0)
    ensures WalkAll(Walk(ups0, dirs0), rest0) == WalkAll(Walk(ups, dirs), rest)
    ensures rest0 == [] ==> rest == []
    ensures rest0 != [] ==> |rest| < |rest0|
    ensures ret == base + Ups(ups)
  {
    var c := ChopByDelim(rest0, '/');
    assert rest0 == [] || |c.rest| < |rest0| by {
      if '/' in rest0 { assert |c.taken + ['/'] + c.rest| == |rest0|; }
    }
    WalkAllStep(Walk(ups0, dirs0), rest0);
    rest := c.rest;
    ret, dirs, ups := VisitDir(base, ret0, dirs0, ups0, c.taken);
  }

  /** One pass of that loop on the chopped component `dir`. */
  method VisitDir(ghost base: Bytes, ret0: Bytes, dirs0: seq<Bytes>, ghost ups0: nat, dir: Bytes)
    returns (ret: Bytes, dirs: seq<Bytes>, ghost ups: nat)
    requires ret0 == base + Ups(ups0)
    ensures Walk(ups, dirs) == Visit(Walk(ups0, dirs0), dir)
    ensures ret == base + Ups(ups)
  {
    ret, dirs, ups := ret0, dirs0, ups0;
    if |dir| == 0 {
      return;
    }
    if Cmp(dir, ['.']) == 0 {
      // nothing to do
    } else if Cmp(dir, ['.', '.']) == 0 {
      if |dirs| == 0 {
        ret := ret + ['.', '.', '/'];
        ups := ups + 1;
        ConcatAssoc(base, Ups(ups0), ['.', '.', '/']);
      } else {
        dirs := dirs[..|dirs| - 1];
      }
    } else {
      dirs := dirs + [dir];
    }
  }

  /** The loop that appends every stacked directory and a '/'. */
  method AppendDirs(ret0: Bytes, dirs: seq<Bytes>) returns (ret: Bytes)
    ensures ret == ret0 + JoinDirs(dirs)
  {
    ret := ret0;
    for i := 0 to |dirs|
      invariant ret == ret0 + JoinDirs(dirs[..i])
    {
      assert dirs[..i + 1][..i] == dirs[..i];
      ret := ret + dirs[i] + ['/'];
    }
    assert dirs[..|dirs|] == dirs;
  }

  /** The closing steps: "." for an empty result, then the trailing '/'
      dropped unless the result is "/" or "//". */
  method FinishText(ret0: Bytes) returns (ret: Bytes)
    ensures ret == Finish(ret0)
  {
    ret := ret0;
    if |ret| == 0 {
      ret := ['.'];
    }
    if !((|ret| == 1 && ret[0] == '/') || (|ret| == 2 && ret[0] == '/' && ret[1] == '/'))
       && ret[|ret| - 1] == '/' {
      ret := ret[..|ret| - 1];
    }
  }

  /** The two prefix tests of the source build `Root`. */
  lemma RootByPrefix(p: Bytes)
    ensures (if |p| > 0 && p[0] == '/' then ['/'] else [])
            + (if Prefix(p, ['/', '/']) && !Prefix(p, ['/', '/', '/']) then ['/'] else []) == Root(p)
  {
    if |p| >= 2 && p[0] == '/' && p[1] == '/' {
      assert p == p[..2] + p[2..];
      assert p[..2] == ['/', '/'];
      if |p| >= 3 && p[2] == '/' {
        assert p == p[..3] + p[3..];
        assert p[..3] == ['/', '/', '/'];
      }
    }
  }

  /** Chopping at the first '/' of `a + "/" + b` gives back `a` and `b`. */
  lemma ChopAtSlash(a: Bytes, b: Bytes)
    requires '/' !in a
    ensures ChopByDelim(a + ['/'] + b, '/') == Chopped(a, b)
  {
    var s := a + ['/'] + b;
    var c := ChopByDelim(s, '/');
    assert s[|a|] == '/';
    assert c.taken + ['/'] + c.rest == s;
    assert c.taken == s[..|a|] == a;
    assert c.rest == s[|a| + 1..] == b;
  }

  /** A single component without '/' is one visit. */
  lemma WalkAllOne(w: Walk, d: Bytes)
    requires '/' !in d
    ensures WalkAll(w, d) == Visit(w, d)
  {
  }

  /** Walking `a + "/" + b` is walking `a`, then `b`. */
  lemma {:induction false} WalkAllConcat(w: Walk, a: Bytes, b: Bytes)
    ensures WalkAll(w, a + ['/'] + b) == WalkAll(WalkAll(w, a), b)
    decreases |a|
  {
    if '/' !in a {
      ChopAtSlash(a, b);
      WalkAllOne(w, a);
    } else {
      var c := ChopByDelim(a, '/');
      assert a == c.taken + ['/'] + c.rest;
      assert a + ['/'] + b == c.taken + ['/'] + (c.rest + ['/'] + b);
      ChopAtSlash(c.taken, c.rest + ['/'] + b);
      WalkAllConcat(Visit(w, c.taken), c.rest, b);
    }
  }

  /** Directories joined by single slashes. */
  function Join(ds: seq<Bytes>): Bytes
    requires ds != []
  {
    if |ds| == 1 then ds[0] else Join(ds[..|ds| - 1]) + ['/'] + ds[|ds| - 1]
  }

  lemma {:induction false} JoinDirsJoin(ds: seq<Bytes>)
    requires ds != []
    ensures JoinDirs(ds) == Join(ds) + ['/']
    decreases |ds|
  {
    if |ds| == 1 {
      assert ds[..0] == [];
    } else {
      JoinDirsJoin(ds[..|ds| - 1]);
    }
  }

  /** Walking clean directories pushes them all. */
  lemma {:induction false} WalkAllJoin(w: Walk, ds: seq<Bytes>)
    requires ds != [] && forall k :: 0 <= k < |ds| ==> CleanDir(ds[k])
    ensures WalkAll(w, Join(ds)) == Walk(w.ups, w.dirs + ds)
    decreases |ds|
  {
    if |ds| == 1 {
      JoinOne(w, ds[0]);
    } else {
      var front := ds[..|ds| - 1];
      assert CleanDir(ds[|ds| - 1]);
      WalkAllJoin(w, front);
      JoinStep(w, front, ds[|ds| - 1]);
      SliceSnoc(ds, |ds| - 1);
    }
  }

  lemma JoinOne(w: Walk, d: Bytes)
    requires CleanDir(d)
    ensures WalkAll(w, Join([d])) == Walk(w.ups, w.dirs + [d])
  {
    WalkAllOne(w, d);
    PushClean(w, d);
  }

  /** One more clean directory on the end of a joined path is one more push. */
  lemma JoinStep(w: Walk, front: seq<Bytes>, d: Bytes)
    requires front != [] && CleanDir(d)
    requires WalkAll(w, Join(front)) == Walk(w.ups, w.dirs + front)
    ensures WalkAll(w, Join(front + [d])) == Walk(w.ups, w.dirs + (front + [d]))
  {
    var ds := front + [d];
    assert ds[..|ds| - 1] == front;
    assert Join(ds) == Join(front) + ['/'] + d;
    SlashClean(w, Join(front), d, Walk(w.ups, w.dirs + front));
    ConcatAssoc(w.dirs, front, [d]);
  }


  /** Walking `p + "/" + d` for a proper directory name `d` pushes `d` on
      the walk of `p`. */
  lemma SlashClean(w: Walk, p: Bytes, d: Bytes, mid: Walk)
    requires CleanDir(d) && WalkAll(w, p) == mid
    ensures WalkAll(w, p + ['/'] + d) == Walk(mid.ups, mid.dirs + [d])
  {
    WalkAllConcat(w, p, d);
    WalkAllOne(mid, d);
    PushClean(mid, d);
  }

  /** A proper directory name is pushed. */
  lemma PushClean(w: Walk, d: Bytes)
    requires CleanDir(d)
    ensures Visit(w, d) == Walk(w.ups, w.dirs + [d])
  {
  }

  /** A relative path of proper directory names, joined by single
      slashes, is already normal. */
  lemma NormalizeKeepsCleanPath(ds: seq<Bytes>)
    requires ds != [] && forall k :: 0 <= k < |ds| ==> CleanDir(ds[k])
    ensures Normalize(Join(ds)) == Join(ds)
  {
    var p := Join(ds);
    assert |p| > 0 && p[0] != '/' && Root(p) == [] by { JoinStart(ds); }
    assert WalkAll(Walk(0, []), p) == Walk(0, ds) by { WalkAllJoin(Walk(0, []), ds); }
    assert Assemble(Root(p), Walk(0, ds)) == p + ['/'] by { JoinDirsJoin(ds); }
    NormalizeOfWalk(p, Walk(0, ds));
    FinishDropsSlash(p);
  }

  lemma FinishDropsSlash(p: Bytes)
    requires |p| > 0 && p[0] != '/'
    ensures Finish(p + ['/']) == p
  {
    assert (p + ['/'])[..|p|] == p;
  }

  /** `Normalize` in terms of an already computed walk. */
  lemma NormalizeOfWalk(p: Bytes, w: Walk)
    requires WalkAll(Walk(0, []), p) == w
    ensures Normalize(p) == Finish(Assemble(Root(p), w))
  {
  }

  /** A joined path starts with its first directory's first byte. */
  lemma {:induction false} JoinStart(ds: seq<Bytes>)
    requires ds != [] && forall k :: 0 <= k < |ds| ==> CleanDir(ds[k])
    ensures |Join(ds)| > 0 && Join(ds)[0] != '/'
    decreases |ds|
  {
    assert CleanDir(ds[0]);
    if |ds| > 1 {
      JoinStart(ds[..|ds| - 1]);
    }
  }

  /** "d/../rest" normalises like "rest" for a proper directory name `d`
      and a relative `rest`. */
  lemma NormalizeDotDot(d: Bytes, rest: Bytes)
    requires CleanDir(d) && !(|rest| > 0 && rest[0] == '/')
    ensures Normalize(d + ['/', '.', '.', '/'] + rest) == Normalize(rest)
  {
    WalkDotDot(d, rest);
    RootDotDot(d, rest);
    NormalizeSameWalk(d + ['/', '.', '.', '/'] + rest, rest);
  }

  /** Neither path has a root. */
  lemma RootDotDot(d: Bytes, rest: Bytes)
    requires CleanDir(d) && !(|rest| > 0 && rest[0] == '/')
    ensures Root(d + ['/', '.', '.', '/'] + rest) == Root(rest)
  {
    var p := d + ['/', '.', '.', '/'] + rest;
    assert p[0] == d[0];
  }

  /** A directory followed by ".." is walked away. */
  lemma WalkDotDot(d: Bytes, rest: Bytes)
    requires CleanDir(d)
    ensures WalkAll(Walk(0, []), d + ['/', '.', '.', '/'] + rest) == WalkAll(Walk(0, []), rest)
  {
    var p := d + ['/', '.', '.', '/'] + rest;
    var w := Walk(0, []);
    var up: Bytes := ['.', '.'];
    assert p == d + ['/'] + (up + ['/'] + rest);
    WalkAllConcat(w, d, up + ['/'] + rest);
    WalkAllOne(w, d);
    assert Visit(w, d) == Walk(0, [d]);
    WalkAllConcat(Walk(0, [d]), up, rest);
    WalkAllOne(Walk(0, [d]), up);
    assert Visit(Walk(0, [d]), up) == w;
  }

  /** Paths with the same root and the same walk normalise alike. */
  lemma NormalizeSameWalk(x: Bytes, y: Bytes)
    requires Root(x) == Root(y) && WalkAll(Walk(0, []), x) == WalkAll(Walk(0, []), y)
    ensures Normalize(x) == Normalize(y)
  {
  }
}
