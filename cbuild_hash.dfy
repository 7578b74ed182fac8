/** `CBuild::CBuildHashV2`: which sources need recompiling. Every source,
    and every header they include, is parsed into new metadata (object,
    hash of the text without comments, resolved includes) next to the
    metadata stored by the previous run; a file needs recompiling when its
    own metadata changed or, recursively, that of a file it includes. */
module CBuildHash {
  import opened Bytes
  import opened Seqs
  import opened Wrappers
  import opened LibMap
  import opened Metadata
  import Hasher

  /** `extended_metadata`: the new metadata and, when it could be read,
      the old one. */
  datatype Ext = Ext(newMeta: SourceMeta, prev: Option<SourceMeta>)

  /** `internal_data`: sources and headers with their metadata, and the
      headers queued for parsing with their parsed flags. */
  datatype Data = Data(sources: seq<Entry<Bytes, Ext>>, headers: seq<Entry<Bytes, Ext>>,
                       toParse: seq<Entry<Bytes, bool>>)

  /** The keys of an association list. */
  function KeySet<D>(c: seq<Entry<Bytes, D>>): (s: set<Bytes>)
    ensures forall i :: 0 <= i < |c| ==> c[i].key in s
    ensures forall k :: k in s ==> FirstIndex(c, k).Some?
  {
    set i | 0 <= i < |c| :: c[i].key
  }

  /** `lib::map::get`: the value of the first entry with the key. */
  function Lookup(c: seq<Entry<Bytes, Ext>>, k: Bytes): (r: Option<Ext>)
    ensures r.Some? <==> k in KeySet(c)
    ensures r.Some? ==> r == Some(c[FirstIndex(c, k).value].data)
  {
    match FirstIndex(c, k)
    case Some(i) => Some(c[i].data)
    case None => None
  }

  /** The files known as a header or a source. */
  function Names(data: Data): set<Bytes> {
    KeySet(data.headers) + KeySet(data.sources)
  }

  /** The tests of `check_mismatch_recursive` on the file itself: no old
      metadata, or a different object, hash or dependency list. */
  predicate Changed(e: Ext) {
    e.prev.None? || e.newMeta.objFile != e.prev.value.objFile || e.newMeta.hash != e.prev.value.hash
    || e.newMeta.deps != e.prev.value.deps
  }

  /** `check_mismatch_recursive` as written, with a bound on the depth of
      the recursion: `None` when it goes deeper than `fuel` calls. */
  function MismatchAsWritten(data: Data, e: Ext, fuel: nat): Option<bool>
    decreases fuel, 0
  {
    if fuel == 0 then None
    else if Changed(e) then Some(true)
    else DepsAsWritten(data, e.newMeta.deps, 0, fuel - 1)
  }

  /** The loop over the dependencies: a header with the name is checked,
      then a source with the name, and the first mismatch returns. */
  function DepsAsWritten(data: Data, deps: seq<Bytes>, i: nat, fuel: nat): Option<bool>
    decreases fuel, 1, |deps| - i
  {
    if i >= |deps| then Some(false)
    else
      var h := Lookup(data.headers, deps[i]);
      var rh := if h.Some? then MismatchAsWritten(data, h.value, fuel) else Some(false);
      if rh != Some(false) then rh
      else
        var s := Lookup(data.sources, deps[i]);
        var rs := if s.Some? then MismatchAsWritten(data, s.value, fuel) else Some(false);
        if rs != Some(false) then rs else DepsAsWritten(data, deps, i + 1, fuel)
  }

  /** `check_mismatch_recursive` with the names on the current path of
      includes skipped, so that it also ends on include cycles. */
  function Mismatch(data: Data, e: Ext, path: set<Bytes>): bool
    decreases Names(data) - path, 1
  {
    Changed(e) || DepsMismatch(data, e.newMeta.deps, 0, path)
  }

  function DepsMismatch(data: Data, deps: seq<Bytes>, i: nat, path: set<Bytes>): bool
    decreases Names(data) - path, 0, |deps| - i
  {
    if i >= |deps| then false
    else
      var d := deps[i];
      var h := Lookup(data.headers, d);
      var s := Lookup(data.sources, d);
      (d !in path && h.Some? && Mismatch(data, h.value, path + {d}))
      || (d !in path && s.Some? && Mismatch(data, s.value, path + {d}))
      || DepsMismatch(data, deps, i + 1, path)
  }

  /** `b` is the header or source metadata of `d`, an include of `a`. */
  predicate Feeds(data: Data, a: Ext, d: Bytes, b: Ext) {
    d in a.newMeta.deps && (Lookup(data.headers, d) == Some(b) || Lookup(data.sources, d) == Some(b))
  }

  /** A chain of includes from `e` through `names`, with metadata `exts`,
      that ends at a changed file. */
  ghost predicate ChangedChain(data: Data, e: Ext, names: seq<Bytes>, exts: seq<Ext>) {
    |names| == |exts|
    && (forall i {:trigger Prev(e, exts, i)} :: 0 <= i < |names| ==> Feeds(data, Prev(e, exts, i), names[i], exts[i]))
    && Changed(Prev(e, exts, |exts|))
  }

  /** The file before position `i` of the chain. */
  function Prev(e: Ext, exts: seq<Ext>, i: nat): Ext
    requires i <= |exts|
  {
    if i == 0 then e else exts[i - 1]
  }

  /** No name twice, and none on `path`. */
  ghost predicate Simple(names: seq<Bytes>, path: set<Bytes>) {
    forall i :: 0 <= i < |names| ==> names[i] !in path && names[i] !in names[..i]
  }

  /** A mismatch is found exactly when a changed file can be reached
      through includes that avoid the path: this direction gives the
      chain. */
  lemma MismatchSound(data: Data, e: Ext, path: set<Bytes>)
    requires Mismatch(data, e, path)
    ensures exists names, exts :: ChangedChain(data, e, names, exts) && Simple(names, path)
    decreases Names(data) - path
  {
    if Changed(e) {
      assert ChangedChain(data, e, [], []) && Simple([], path);
    } else {
      var j, b := DepsSound(data, e.newMeta.deps, 0, path);
      var d := e.newMeta.deps[j];
      MismatchSound(data, b, path + {d});
      var names', exts' :| ChangedChain(data, b, names', exts') && Simple(names', path + {d});
      ChainCons(data, e, d, b, names', exts', path);
    }
  }

  /** An include of `e` that starts a chain extends it. */
  lemma ChainCons(data: Data, e: Ext, d: Bytes, b: Ext, names: seq<Bytes>, exts: seq<Ext>, path: set<Bytes>)
    requires Feeds(data, e, d, b) && d !in path
    requires ChangedChain(data, b, names, exts) && Simple(names, path + {d})
    ensures ChangedChain(data, e, [d] + names, [b] + exts) && Simple([d] + names, path)
  {
    FeedsCons(data, e, d, b, names, exts);
    SimpleCons(d, names, path);
  }

  lemma FeedsCons(data: Data, e: Ext, d: Bytes, b: Ext, names: seq<Bytes>, exts: seq<Ext>)
    requires Feeds(data, e, d, b) && ChangedChain(data, b, names, exts)
    ensures ChangedChain(data, e, [d] + names, [b] + exts)
  {
    var n := [d] + names;
    var x := [b] + exts;
    forall i | 0 <= i < |n|
      ensures Feeds(data, Prev(e, x, i), n[i], x[i])
    {
      if i > 0 {
        assert n[i] == names[i - 1] && x[i] == exts[i - 1];
        assert Prev(e, x, i) == Prev(b, exts, i - 1);
        assert Feeds(data, Prev(b, exts, i - 1), names[i - 1], exts[i - 1]);
      }
    }
    assert Prev(e, x, |x|) == Prev(b, exts, |exts|);
  }

  lemma SimpleCons(d: Bytes, names: seq<Bytes>, path: set<Bytes>)
    requires d !in path && Simple(names, path + {d})
    ensures Simple([d] + names, path)
  {
    var n := [d] + names;
    forall i | 0 <= i < |n|
      ensures n[i] !in path && n[i] !in n[..i]
    {
      if i > 0 {
        assert n[i] == names[i - 1];
        assert n[..i] == [d] + names[..i - 1];
      }
    }
  }

  /** The converse: the rest of a chain is a chain from its second file. */
  lemma FeedsTail(data: Data, e: Ext, names: seq<Bytes>, exts: seq<Ext>)
    requires ChangedChain(data, e, names, exts) && names != []
    ensures ChangedChain(data, exts[0], names[1..], exts[1..])
  {
    TailFeeds(data, e, names, exts);
    TailChanged(data, e, names, exts);
  }

  lemma TailFeeds(data: Data, e: Ext, names: seq<Bytes>, exts: seq<Ext>)
    requires ChangedChain(data, e, names, exts) && names != []
    ensures forall i :: 0 <= i < |names| - 1 ==> Feeds(data, Prev(exts[0], exts[1..], i), names[1..][i], exts[1..][i])
  {
    var b := exts[0];
    var tailNames := names[1..];
    var tailExts := exts[1..];
    forall i | 0 <= i < |tailNames|
      ensures Feeds(data, Prev(b, tailExts, i), tailNames[i], tailExts[i])
    {
      assert Feeds(data, Prev(e, exts, i + 1), names[i + 1], exts[i + 1]);
      assert Prev(e, exts, i + 1) == Prev(b, tailExts, i);
    }
  }

  lemma TailChanged(data: Data, e: Ext, names: seq<Bytes>, exts: seq<Ext>)
    requires ChangedChain(data, e, names, exts) && names != []
    ensures Changed(Prev(exts[0], exts[1..], |exts| - 1))
  {
    assert Prev(e, exts, |exts|) == Prev(exts[0], exts[1..], |exts| - 1);
  }

  lemma SimpleTail(names: seq<Bytes>, path: set<Bytes>)
    requires Simple(names, path) && names != []
    ensures names[0] !in path && Simple(names[1..], path + {names[0]})
  {
    var d := names[0];
    var tailNames := names[1..];
    forall i | 0 <= i < |tailNames|
      ensures tailNames[i] !in path + {d} && tailNames[i] !in tailNames[..i]
    {
      assert names[i + 1] !in names[..i + 1];
      assert names[..i + 1] == [d] + tailNames[..i];
    }
  }

  /** The dependency at which the loop found its mismatch. */
  lemma DepsSound(data: Data, deps: seq<Bytes>, i: nat, path: set<Bytes>) returns (j: nat, b: Ext)
    requires DepsMismatch(data, deps, i, path)
    ensures i <= j < |deps| && deps[j] !in path
    ensures Lookup(data.headers, deps[j]) == Some(b) || Lookup(data.sources, deps[j]) == Some(b)
    ensures Mismatch(data, b, path + {deps[j]})
    decreases |deps| - i
  {
    var d := deps[i];
    var h := Lookup(data.headers, d);
    var s := Lookup(data.sources, d);
    if d !in path && h.Some? && Mismatch(data, h.value, path + {d}) {
      j, b := i, h.value;
    } else if d !in path && s.Some? && Mismatch(data, s.value, path + {d}) {
      j, b := i, s.value;
    } else {
      j, b := DepsSound(data, deps, i + 1, path);
    }
  }

  /** The other direction: a chain to a changed file that avoids the path
      is found. */
  lemma {:induction false} MismatchComplete(data: Data, e: Ext, names: seq<Bytes>, exts: seq<Ext>, path: set<Bytes>)
    requires ChangedChain(data, e, names, exts) && Simple(names, path)
    ensures Mismatch(data, e, path)
    decreases |names|
  {
    if names != [] && !Changed(e) {
      var d := names[0];
      var b := exts[0];
      assert Feeds(data, e, d, b) by {
        assert Prev(e, exts, 0) == e;
      }
      FeedsTail(data, e, names, exts);
      SimpleTail(names, path);
      MismatchComplete(data, b, names[1..], exts[1..], path + {d});
      var j :| 0 <= j < |e.newMeta.deps| && e.newMeta.deps[j] == d;
      DepsFrom(data, e.newMeta.deps, 0, j, path, b);
    }
  }

  /** A mismatch at dependency `j` is found by the loop from any `i <= j`. */
  lemma DepsFrom(data: Data, deps: seq<Bytes>, i: nat, j: nat, path: set<Bytes>, b: Ext)
    requires i <= j < |deps| && deps[j] !in path
    requires Lookup(data.headers, deps[j]) == Some(b) || Lookup(data.sources, deps[j]) == Some(b)
    requires Mismatch(data, b, path + {deps[j]})
    ensures DepsMismatch(data, deps, i, path)
    decreases j - i
  {
    if i < j {
      DepsFrom(data, deps, i + 1, j, path, b);
    }
  }

  /** A file whose own metadata changed needs recompiling, both as written
      and corrected. */
  lemma ChangedMismatches(data: Data, e: Ext, path: set<Bytes>, fuel: nat)
    requires Changed(e) && fuel > 0
    ensures Mismatch(data, e, path) && MismatchAsWritten(data, e, fuel) == Some(true)
  {
  }

  /** Two unchanged headers that include each other. */
  const CycleA: Ext := Ext(SourceMeta("a.h", "header", ["b.h"], 0), Some(SourceMeta("a.h", "header", ["b.h"], 0)))
  const CycleB: Ext := Ext(SourceMeta("b.h", "header", ["a.h"], 0), Some(SourceMeta("b.h", "header", ["a.h"], 0)))
  const CycleData: Data := Data([], [Entry("a.h", CycleA), Entry("b.h", CycleB)], [])

  lemma CycleLookups()
    ensures Lookup(CycleData.headers, "a.h") == Some(CycleA) && Lookup(CycleData.headers, "b.h") == Some(CycleB)
    ensures Lookup(CycleData.sources, "a.h") == None && Lookup(CycleData.sources, "b.h") == None
  {
    assert CycleData.headers[0].key == "a.h";
    assert CycleData.headers[1].key == "b.h";
    assert "a.h" != "b.h";
  }

  /** As written, the check never returns on the cycle, however deep the
      stack may grow. */
  lemma {:induction false} CycleNeverEnds(fuel: nat)
    ensures MismatchAsWritten(CycleData, CycleA, fuel) == None
    ensures MismatchAsWritten(CycleData, CycleB, fuel) == None
  {
    if fuel > 0 {
      CycleLookups();
      CycleNeverEnds(fuel - 1);
      assert !Changed(CycleA) && !Changed(CycleB);
      assert DepsAsWritten(CycleData, ["b.h"], 0, fuel - 1) == None;
      assert DepsAsWritten(CycleData, ["a.h"], 0, fuel - 1) == None;
    }
  }

  /** Corrected, it returns: nothing changed on the cycle. */
  lemma CycleCorrected()
    ensures !Mismatch(CycleData, CycleA, {})
  {
    CycleLookups();
    assert !DepsMismatch(CycleData, ["b.h"], 0, {"a.h", "b.h"});
    assert !Mismatch(CycleData, CycleA, {"a.h", "b.h"});
    assert {"b.h"} + {"a.h"} == {"a.h", "b.h"};
    assert !DepsMismatch(CycleData, ["a.h"], 0, {"b.h"});
    assert !Mismatch(CycleData, CycleB, {"b.h"});
    assert {} + {"b.h"} == {"b.h"};
    assert CycleA.newMeta.deps == ["b.h"] && CycleB.newMeta.deps == ["a.h"];
    assert !DepsMismatch(CycleData, ["b.h"], 0, {});
  }

  /* ---------------- Where the check as written returns ---------------- */

  /** A run as written that reports no mismatch has explored every
      include, so the corrected check, which explores fewer, reports
      none either, whatever the path. */
  lemma {:induction false} AsWrittenNoMismatch(data: Data, e: Ext, fuel: nat, path: set<Bytes>)
    requires MismatchAsWritten(data, e, fuel) == Some(false)
    ensures !Mismatch(data, e, path)
    decreases fuel, 0
  {
    DepsAsWrittenNoMismatch(data, e.newMeta.deps, 0, fuel - 1, path);
  }

  lemma {:induction false} DepsAsWrittenNoMismatch(data: Data, deps: seq<Bytes>, i: nat, fuel: nat, path: set<Bytes>)
    requires DepsAsWritten(data, deps, i, fuel) == Some(false)
    ensures !DepsMismatch(data, deps, i, path)
    decreases fuel, 1, |deps| - i
  {
    if i < |deps| {
      var d := deps[i];
      var h := Lookup(data.headers, d);
      var s := Lookup(data.sources, d);
      if h.Some? {
        AsWrittenNoMismatch(data, h.value, fuel, path + {d});
      }
      if s.Some? {
        AsWrittenNoMismatch(data, s.value, fuel, path + {d});
      }
      DepsAsWrittenNoMismatch(data, deps, i + 1, fuel, path);
    }
  }

  /** A run as written that reports a mismatch has followed a chain of
      includes, perhaps with repeated names, to a changed file. */
  lemma {:induction false} AsWrittenChain(data: Data, e: Ext, fuel: nat) returns (names: seq<Bytes>, exts: seq<Ext>)
    requires MismatchAsWritten(data, e, fuel) == Some(true)
    ensures ChangedChain(data, e, names, exts)
    decreases fuel
  {
    if Changed(e) {
      names, exts := [], [];
    } else {
      var j, b := DepsAsWrittenFound(data, e.newMeta.deps, 0, fuel - 1);
      var names', exts' := AsWrittenChain(data, b, fuel - 1);
      FeedsCons(data, e, e.newMeta.deps[j], b, names', exts');
      names, exts := [e.newMeta.deps[j]] + names', [b] + exts';
    }
  }

  /** The include at which the loop as written found its mismatch. */
  lemma {:induction false} DepsAsWrittenFound(data: Data, deps: seq<Bytes>, i: nat, fuel: nat) returns (j: nat, b: Ext)
    requires DepsAsWritten(data, deps, i, fuel) == Some(true)
    ensures i <= j < |deps|
    ensures Lookup(data.headers, deps[j]) == Some(b) || Lookup(data.sources, deps[j]) == Some(b)
    ensures MismatchAsWritten(data, b, fuel) == Some(true)
    decreases |deps| - i
  {
    var h := Lookup(data.headers, deps[i]);
    var s := Lookup(data.sources, deps[i]);
    if h.Some? && MismatchAsWritten(data, h.value, fuel) == Some(true) {
      j, b := i, h.value;
    } else if s.Some? && MismatchAsWritten(data, s.value, fuel) == Some(true) {
      j, b := i, s.value;
    } else {
      j, b := DepsAsWrittenFound(data, deps, i + 1, fuel);
    }
  }

  /** A chain that reaches a name twice is cut between the two visits: the
      metadata of a name is the same lookup wherever it is reached. */
  lemma CutChain(data: Data, e: Ext, names: seq<Bytes>, exts: seq<Ext>, i: nat, j: nat)
    requires ChangedChain(data, e, names, exts)
    requires i < j < |names| && names[i] == names[j]
    ensures ChangedChain(data, e, names[..i] + names[j..], exts[..i] + exts[j..])
  {
    var n := names[..i] + names[j..];
    var x := exts[..i] + exts[j..];
    forall k | 0 <= k < |n|
      ensures Feeds(data, Prev(e, x, k), n[k], x[k])
    {
      if k < i {
        assert n[k] == names[k] && x[k] == exts[k];
        assert Prev(e, x, k) == Prev(e, exts, k);
      } else if k == i {
        assert n[k] == names[j] && x[k] == exts[j];
        assert Prev(e, x, k) == Prev(e, exts, i);
        assert Feeds(data, Prev(e, exts, i), names[i], exts[i]);
        assert Feeds(data, Prev(e, exts, j), names[j], exts[j]);
      } else {
        var m := k - i + j;
        assert n[k] == names[m] && x[k] == exts[m];
        assert Prev(e, x, k) == Prev(e, exts, m);
      }
    }
    assert Prev(e, x, |x|) == Prev(e, exts, |exts|);
  }

  /** Every chain to a changed file shortens to one without repeats. */
  lemma {:induction false} ShortenChain(data: Data, e: Ext, names: seq<Bytes>, exts: seq<Ext>)
    returns (n: seq<Bytes>, x: seq<Ext>)
    requires ChangedChain(data, e, names, exts)
    ensures ChangedChain(data, e, n, x) && Simple(n, {})
    decreases |names|
  {
    if Simple(names, {}) {
      n, x := names, exts;
    } else {
      var j :| 0 <= j < |names| && names[j] in names[..j];
      var i :| 0 <= i < j && names[..j][i] == names[j];
      CutChain(data, e, names, exts, i, j);
      n, x := ShortenChain(data, e, names[..i] + names[j..], exts[..i] + exts[j..]);
    }
  }

  /** Wherever the check as written returns, whatever the depth it needed,
      its answer is the corrected one: the two differ only in that the one
      as written may never return. */
  lemma MismatchAsWrittenAgrees(data: Data, e: Ext, fuel: nat)
    requires MismatchAsWritten(data, e, fuel).Some?
    ensures MismatchAsWritten(data, e, fuel) == Some(Mismatch(data, e, {}))
  {
    if MismatchAsWritten(data, e, fuel).value {
      var names, exts := AsWrittenChain(data, e, fuel);
      var n, x := ShortenChain(data, e, names, exts);
      MismatchComplete(data, e, n, x, {});
    } else {
      AsWrittenNoMismatch(data, e, fuel, {});
    }
  }

  /* ---------------- Parsing and selection ---------------- */

  /** What `parse_file` learns from the file system: the text of each file
      once the two comment-stripping regexes have run, and the includes
      found in it that resolve, through `normalize_relative_path`, to
      existing files, in order. A file missing from a map reads as empty. */
  datatype Env = Env(content: map<Bytes, Bytes>, includes: map<Bytes, seq<Bytes>>)

  /** Where the metadata files live: the target and the metadata folder
      and extension of the store. */
  datatype Place = Place(target: Bytes, folder: Bytes, ext: Bytes)

  const HeaderObj: Bytes := "header"

  /** A default-constructed `source_metadata_file`. */
  const Blank: SourceMeta := SourceMeta([], [], [], 0)

  const NoData: Data := Data([], [], [])

  function Text(env: Env, f: Bytes): Bytes {
    if f in env.content then env.content[f] else []
  }

  function Includes(env: Env, f: Bytes): seq<Bytes> {
    if f in env.includes then env.includes[f] else []
  }

  /** Every file some file includes: a bound on what can be queued. */
  ghost function Universe(env: Env): set<Bytes> {
    set f, d | f in env.includes && d in env.includes[f] :: d
  }

  ghost function Elems(s: seq<Bytes>): set<Bytes> {
    set d | d in s
  }

  lemma ElemsSnoc(s: seq<Bytes>)
    requires s != []
    ensures Elems(s) == Elems(s[..|s| - 1]) + {s[|s| - 1]}
  {
    assert s == s[..|s| - 1] + [s[|s| - 1]];
  }

  /** The dependencies recorded in the new metadata of the entries. */
  ghost function DepsOf(c: seq<Entry<Bytes, Ext>>): set<Bytes> {
    set j, d | 0 <= j < |c| && d in c[j].data.newMeta.deps :: d
  }

  lemma KeySetSnoc<D>(c: seq<Entry<Bytes, D>>, e: Entry<Bytes, D>)
    ensures KeySet(c + [e]) == KeySet(c) + {e.key}
  {
    var c' := c + [e];
    assert forall i :: 0 <= i < |c| ==> c'[i] == c[i];
    assert c'[|c|] == e;
    forall k | k in KeySet(c')
      ensures k in KeySet(c) + {e.key}
    {
      var i :| 0 <= i < |c'| && c'[i].key == k;
      if i < |c| {
        assert c[i].key == k;
      }
    }
  }

  lemma UniqueSnoc<D>(c: seq<Entry<Bytes, D>>, e: Entry<Bytes, D>)
    requires FirstIndex(c, e.key).None?
    ensures UniqueKeys(c) ==> UniqueKeys(c + [e])
  {
    if UniqueKeys(c) {
      UniqueAfterCheckedPush(c, e);
    }
  }

  /** `push_back_check` whose `runtime_error` is caught: the entry is added
      only when the key is new. */
  function Insert<D>(c: seq<Entry<Bytes, D>>, k: Bytes, v: D): (r: seq<Entry<Bytes, D>>)
    ensures c <= r && KeySet(r) == KeySet(c) + {k}
    ensures UniqueKeys(c) ==> UniqueKeys(r)
    ensures k !in KeySet(c) ==> r[|c|..] == [Entry(k, v)]
    ensures k in KeySet(c) ==> r == c
  {
    if FirstIndex(c, k).None? then
      KeySetSnoc(c, Entry(k, v));
      UniqueSnoc(c, Entry(k, v));
      c + [Entry(k, v)]
    else c
  }

  /** The include loop's `headers_to_parse.push_back_check(tmp, false)`
      over the includes in order. */
  function QueueAll(q: seq<Entry<Bytes, bool>>, deps: seq<Bytes>): (r: seq<Entry<Bytes, bool>>)
    ensures q <= r && KeySet(r) == KeySet(q) + Elems(deps)
    ensures UniqueKeys(q) ==> UniqueKeys(r)
  {
    if deps == [] then q
    else
      var n := |deps| - 1;
      ElemsSnoc(deps);
      Insert(QueueAll(q, deps[..n]), deps[n], false)
  }

  lemma QueueAllStep(q: seq<Entry<Bytes, bool>>, deps: seq<Bytes>, i: nat)
    requires i < |deps|
    ensures QueueAll(q, deps[..i + 1]) == Insert(QueueAll(q, deps[..i]), deps[i], false)
  {
    assert deps[..i + 1][..i] == deps[..i];
  }

  /** `elem->data = true` on entry `i` of the queue. */
  function Mark(q: seq<Entry<Bytes, bool>>, i: nat): (r: seq<Entry<Bytes, bool>>)
    requires i < |q|
    ensures |r| == |q| && r[i] == Entry(q[i].key, true)
    ensures forall j :: 0 <= j < |q| && j != i ==> r[j] == q[j]
    ensures KeySet(r) == KeySet(q) && (UniqueKeys(q) ==> UniqueKeys(r))
  {
    var r := q[i := Entry(q[i].key, true)];
    SameKeys(q, r);
    r
  }

  lemma SameKeys(q: seq<Entry<Bytes, bool>>, r: seq<Entry<Bytes, bool>>)
    requires |r| == |q| && forall j :: 0 <= j < |q| ==> r[j].key == q[j].key
    ensures KeySet(r) == KeySet(q) && (UniqueKeys(q) ==> UniqueKeys(r))
  {
    forall k | k in KeySet(r) ensures k in KeySet(q) {
      var j :| 0 <= j < |r| && r[j].key == k;
      assert q[j].key == k;
    }
    forall k | k in KeySet(q) ensures k in KeySet(r) {
      var j :| 0 <= j < |q| && q[j].key == k;
      assert r[j].key == k;
    }
  }

  /** The old metadata `read_file_metadata` yields, when it succeeds. */
  function OldMeta(files: map<Bytes, Bytes>, pl: Place, file: Bytes): Option<SourceMeta> {
    var p := FileMetadataPath(pl.target, file, pl.folder, pl.ext);
    if p in files && ParseFile(files[p], Blank).0 == 0 then Some(ParseFile(files[p], Blank).1) else None
  }

  /** The new metadata: the file, its object, its includes and the FNV-1a
      hash of its text. */
  function NewMeta(env: Env, file: Bytes, obj: Bytes): SourceMeta {
    SourceMeta(file, obj, Includes(env, file), Hasher.Fnv1a(Text(env, file)) as nat)
  }

  function MetaPath(pl: Place, file: Bytes): Bytes {
    FileMetadataPath(pl.target, file, pl.folder, pl.ext)
  }

  /** `parse_file`: the new data and the new metadata files. The file goes
      to the headers when its object is "header", to the sources
      otherwise, and only when it is not there yet; its includes are
      queued; its new metadata is written. */
  function ParseStep(data: Data, env: Env, pl: Place, files: map<Bytes, Bytes>, file: Bytes, obj: Bytes)
    : (r: (Data, map<Bytes, Bytes>))
    ensures r.1 == files[MetaPath(pl, file) := FileText(NewMeta(env, file, obj))]
    ensures data.toParse <= r.0.toParse
    ensures KeySet(r.0.toParse) == KeySet(data.toParse) + Elems(Includes(env, file))
    ensures UniqueKeys(data.toParse) ==> UniqueKeys(r.0.toParse)
    ensures obj == HeaderObj ==> r.0.sources == data.sources && data.headers <= r.0.headers
                                     && file in KeySet(r.0.headers)
    ensures obj != HeaderObj ==> r.0.headers == data.headers && data.sources <= r.0.sources
                                     && file in KeySet(r.0.sources)
  {
    var e := Ext(NewMeta(env, file, obj), OldMeta(files, pl, file));
    var q := QueueAll(data.toParse, e.newMeta.deps);
    var d := if obj == HeaderObj then Data(data.sources, Insert(data.headers, file, e), q)
             else Data(Insert(data.sources, file, e), data.headers, q);
    (d, files[MetaPath(pl, file) := FileText(e.newMeta)])
  }

  /** The first loop: `parse_file` on each source with its obj. */
  function ParseSources(data: Data, env: Env, pl: Place, files: map<Bytes, Bytes>,
                        srcs: seq<Bytes>, objs: seq<Bytes>): (r: (Data, map<Bytes, Bytes>))
    requires |srcs| == |objs|
    ensures KeySet(r.0.toParse) <= KeySet(data.toParse) + Universe(env)
    ensures UniqueKeys(data.toParse) ==> UniqueKeys(r.0.toParse)
    ensures Elems(srcs) <= Names(r.0)
    decreases |srcs|
  {
    if srcs == [] then (data, files)
    else
      var n := |srcs| - 1;
      var p := ParseSources(data, env, pl, files, srcs[..n], objs[..n]);
      var r := ParseStep(p.0, env, pl, p.1, srcs[n], objs[n]);
      assert Elems(Includes(env, srcs[n])) <= Universe(env);
      assert Names(p.0) <= Names(r.0) by {
        PrefixKeys(p.0.headers, r.0.headers);
        PrefixKeys(p.0.sources, r.0.sources);
      }
      assert srcs[n] in Names(r.0) by {
        if objs[n] == HeaderObj {
          assert srcs[n] in KeySet(r.0.headers);
        } else {
          assert srcs[n] in KeySet(r.0.sources);
        }
      }
      ElemsSnoc(srcs);
      r
  }

  lemma PrefixKeys<D>(c: seq<Entry<Bytes, D>>, c': seq<Entry<Bytes, D>>)
    requires c <= c'
    ensures KeySet(c) <= KeySet(c')
  {
    forall k | k in KeySet(c) ensures k in KeySet(c') {
      var i :| 0 <= i < |c| && c[i].key == k;
      assert c'[i] == c[i];
    }
  }

  /** Unique keys drawn from a set are at most as many as the set. */
  lemma UniqueBound(c: seq<Entry<Bytes, bool>>, u: set<Bytes>)
    requires UniqueKeys(c) && KeySet(c) <= u
    ensures |c| <= |u|
    decreases |c|
  {
    if c != [] {
      var n := |c| - 1;
      UniqueFront(c);
      UniqueBound(c[..n], u - {c[n].key});
    }
  }

  /** Dropping the last entry of a list with unique keys. */
  lemma UniqueFront(c: seq<Entry<Bytes, bool>>)
    requires UniqueKeys(c) && c != []
    ensures UniqueKeys(c[..|c| - 1]) && c[|c| - 1].key !in KeySet(c[..|c| - 1])
    ensures KeySet(c) == KeySet(c[..|c| - 1]) + {c[|c| - 1].key}
  {
    var n := |c| - 1;
    var front := c[..n];
    assert c == front + [c[n]];
    assert forall i :: 0 <= i < n ==> front[i] == c[i];
    KeySetSnoc(front, c[n]);
  }

  /** The second loop: `parse_file` on each queued header, whose flag is
      then set, while the queue grows under it. It ends because the queue
      holds distinct included files. */
  function HeaderLoop(data: Data, env: Env, pl: Place, files: map<Bytes, Bytes>, i: nat)
    : (r: (Data, map<Bytes, Bytes>))
    requires i <= |data.toParse| && UniqueKeys(data.toParse) && KeySet(data.toParse) <= Universe(env)
    ensures UniqueKeys(r.0.toParse) && KeySet(data.toParse) <= KeySet(r.0.toParse) <= Universe(env)
    ensures data.headers <= r.0.headers && r.0.sources == data.sources
    decreases |Universe(env)| - i
  {
    if i == |data.toParse| then (data, files)
    else
      UniqueBound(data.toParse, Universe(env));
      var s := HeaderRound(data, env, pl, files, i);
      HeaderLoop(s.0, env, pl, s.1, i + 1)
  }

  /** One round of the header loop: `parse_file` on queued header `i`,
      then its flag set. */
  function HeaderRound(data: Data, env: Env, pl: Place, files: map<Bytes, Bytes>, i: nat)
    : (r: (Data, map<Bytes, Bytes>))
    requires i < |data.toParse| && UniqueKeys(data.toParse) && KeySet(data.toParse) <= Universe(env)
    ensures i < |r.0.toParse| && UniqueKeys(r.0.toParse) && KeySet(data.toParse) <= KeySet(r.0.toParse) <= Universe(env)
    ensures data.headers <= r.0.headers && r.0.sources == data.sources
    ensures Closing(data, env, i) ==> Closing(r.0, env, i + 1)
  {
    var key := data.toParse[i].key;
    var s := ParseStep(data, env, pl, files, key, HeaderObj);
    assert Elems(Includes(env, key)) <= Universe(env);
    PrefixKeys(data.toParse, s.0.toParse);
    CoveredStep(data, s.0, i);
    ParseStepQueued(data, env, pl, files, key, HeaderObj);
    (s.0.(toParse := Mark(s.0.toParse, i)), s.1)
  }

  /** `get_files_for_recompilation` up to the selection: both loops. */
  function Collect(env: Env, pl: Place, files: map<Bytes, Bytes>, srcs: seq<Bytes>, objs: seq<Bytes>)
    : (r: (Data, map<Bytes, Bytes>))
    requires |srcs| == |objs|
    ensures UniqueKeys(r.0.toParse)
    ensures Elems(srcs) <= Names(r.0)
  {
    var p := ParseSources(NoData, env, pl, files, srcs, objs);
    var r := HeaderLoop(p.0, env, pl, p.1, 0);
    assert Names(p.0) <= Names(r.0) by {
      PrefixKeys(p.0.headers, r.0.headers);
      PrefixKeys(p.0.sources, r.0.sources);
    }
    r
  }

  /** The last loop: every source whose check reports a mismatch, with its
      obj, in order (`ret.push_back`, duplicates kept). The check is the
      corrected `Mismatch`, which also ends on include cycles. */
  function Selected(data: Data, c: seq<Entry<Bytes, Ext>>): (r: seq<Entry<Bytes, Bytes>>)
    ensures |r| <= |c|
    ensures forall x :: x in r <==> exists i :: 0 <= i < |c| && Mismatch(data, c[i].data, {})
                                              && x == Entry(c[i].data.newMeta.source, c[i].data.newMeta.objFile)
  {
    if c == [] then []
    else
      var n := |c| - 1;
      var front := Selected(data, c[..n]);
      var e := c[n].data;
      assert forall i :: 0 <= i < n ==> c[..n][i] == c[i];
      front + (if Mismatch(data, e, {}) then [Entry(e.newMeta.source, e.newMeta.objFile)] else [])
  }

  /** `get_files_for_recompilation`: the selected sources and the metadata
      files afterwards; nothing at all when the two lists differ in length. */
  function Recompile(env: Env, pl: Place, files: map<Bytes, Bytes>, srcs: seq<Bytes>, objs: seq<Bytes>)
    : (r: (seq<Entry<Bytes, Bytes>>, map<Bytes, Bytes>))
    ensures |srcs| != |objs| ==> r == ([], files)
  {
    if |srcs| != |objs| then ([], files)
    else
      var c := Collect(env, pl, files, srcs, objs);
      (Selected(c.0, c.0.sources), c.1)
  }

  /* ---------------- What the two loops guarantee ---------------- */

  /** The first `i` queued headers are flagged and parsed. */
  ghost predicate Covered(d: Data, i: nat)
    requires i <= |d.toParse|
  {
    forall j :: 0 <= j < i ==> d.toParse[j].data && d.toParse[j].key in KeySet(d.headers)
  }

  /** Every include of a parsed file is queued. */
  ghost predicate Queued(d: Data) {
    DepsOf(d.headers) + DepsOf(d.sources) <= KeySet(d.toParse)
  }

  lemma DepsOfInsert(c: seq<Entry<Bytes, Ext>>, k: Bytes, e: Ext)
    ensures DepsOf(Insert(c, k, e)) <= DepsOf(c) + Elems(e.newMeta.deps)
  {
    var r := Insert(c, k, e);
    forall d | d in DepsOf(r)
      ensures d in DepsOf(c) + Elems(e.newMeta.deps)
    {
      var j :| 0 <= j < |r| && d in r[j].data.newMeta.deps;
      if j < |c| {
        assert r[j] == c[j];
      } else {
        assert r[j] == Entry(k, e) by {
          assert r[|c|..][j - |c|] == r[j];
        }
      }
    }
  }

  /** `parse_file` keeps every include queued. */
  lemma ParseStepQueued(data: Data, env: Env, pl: Place, files: map<Bytes, Bytes>, file: Bytes, obj: Bytes)
    ensures Queued(data) ==> Queued(ParseStep(data, env, pl, files, file, obj).0)
  {
    var e := Ext(NewMeta(env, file, obj), OldMeta(files, pl, file));
    if obj == HeaderObj {
      DepsOfInsert(data.headers, file, e);
    } else {
      DepsOfInsert(data.sources, file, e);
    }
  }

  lemma {:induction false} ParseSourcesQueued(data: Data, env: Env, pl: Place, files: map<Bytes, Bytes>,
                                              srcs: seq<Bytes>, objs: seq<Bytes>)
    requires |srcs| == |objs| && Queued(data)
    ensures Queued(ParseSources(data, env, pl, files, srcs, objs).0)
    decreases |srcs|
  {
    if srcs != [] {
      var n := |srcs| - 1;
      var p := ParseSources(data, env, pl, files, srcs[..n], objs[..n]);
      ParseSourcesQueued(data, env, pl, files, srcs[..n], objs[..n]);
      ParseStepQueued(p.0, env, pl, p.1, srcs[n], objs[n]);
    }
  }

  /** One round of the header loop extends the covered prefix by one. */
  lemma CoveredStep(data: Data, s: Data, i: nat)
    requires i < |data.toParse| && data.toParse <= s.toParse && data.headers <= s.headers
    requires data.toParse[i].key in KeySet(s.headers)
    ensures Covered(data, i) ==> Covered(s.(toParse := Mark(s.toParse, i)), i + 1)
  {
    if Covered(data, i) {
      var d := s.(toParse := Mark(s.toParse, i));
      PrefixKeys(data.headers, s.headers);
      forall j | 0 <= j < i + 1
        ensures d.toParse[j].data && d.toParse[j].key in KeySet(d.headers)
      {
        assert s.toParse[j] == data.toParse[j];
      }
    }
  }

  /** The invariant of the header loop before round `i`. */
  ghost predicate Closing(d: Data, env: Env, i: nat) {
    i <= |d.toParse| && UniqueKeys(d.toParse) && KeySet(d.toParse) <= Universe(env) && Covered(d, i) && Queued(d)
  }

  lemma {:induction false} HeaderLoopCloses(data: Data, env: Env, pl: Place, files: map<Bytes, Bytes>, i: nat)
    requires Closing(data, env, i)
    ensures var r := HeaderLoop(data, env, pl, files, i).0; Closing(r, env, |r.toParse|)
    decreases |Universe(env)| - i
  {
    if i < |data.toParse| {
      UniqueBound(data.toParse, Universe(env));
      var s := HeaderRound(data, env, pl, files, i);
      HeaderLoopCloses(s.0, env, pl, s.1, i + 1);
    }
  }

  /** After both loops every queued header has been parsed and flagged,
      every include of every parsed file is queued, and each header is
      queued once. */
  lemma CollectCloses(env: Env, pl: Place, files: map<Bytes, Bytes>, srcs: seq<Bytes>, objs: seq<Bytes>)
    requires |srcs| == |objs|
    ensures var d := Collect(env, pl, files, srcs, objs).0;
            UniqueKeys(d.toParse) && Covered(d, |d.toParse|) && Queued(d)
  {
    var p := ParseSources(NoData, env, pl, files, srcs, objs);
    assert Queued(NoData) by {
      assert DepsOf(NoData.headers) == {} && DepsOf(NoData.sources) == {};
    }
    ParseSourcesQueued(NoData, env, pl, files, srcs, objs);
    HeaderLoopCloses(p.0, env, pl, p.1, 0);
  }

  /** The metadata `parse_file` writes is what the next run reads back as
      the old metadata, so a file whose text and includes did not change
      meanwhile is not `Changed` by itself. */
  lemma WrittenMetaReadBack(data: Data, env: Env, pl: Place, files: map<Bytes, Bytes>, file: Bytes, obj: Bytes)
    requires Writable(NewMeta(env, file, obj))
    ensures var files' := ParseStep(data, env, pl, files, file, obj).1;
            OldMeta(files', pl, file) == Some(NewMeta(env, file, obj))
            && !Changed(Ext(NewMeta(env, file, obj), OldMeta(files', pl, file)))
  {
    FileRoundTrip(NewMeta(env, file, obj), Blank);
  }

  /* ---------------- The imperative code ---------------- */

  /** `parse_file`, filling `data` and rewriting the file's metadata. */
  method ParseFileInto(data: Data, env: Env, store: Store, target: Bytes, file: Bytes, obj: Bytes)
    returns (d: Data)
    modifies store
    ensures (d, store.files) == ParseStep(data, env, Place(target, store.folder, store.ext), old(store.files), file, obj)
  {
    var code, m := store.ReadFileMetadata(target, file, Blank);
    var prev := if code == 0 then Some(m) else None;
    var hash := Hasher.HashFnv1a(Text(env, file));
    var deps, q := IncludeLoop(data.toParse, Includes(env, file));
    var e := Ext(SourceMeta(file, obj, deps, hash as nat), prev);
    if obj == HeaderObj {
      d := Data(data.sources, Insert(data.headers, file, e), q);
    } else {
      d := Data(Insert(data.sources, file, e), data.headers, q);
    }
    var _ := store.WriteFileMetadata(target, file, e.newMeta);
  }

  /** The include loop of `parse_file`: each include is recorded as a
      dependency and queued. */
  method IncludeLoop(q0: seq<Entry<Bytes, bool>>, incs: seq<Bytes>) returns (deps: seq<Bytes>, q: seq<Entry<Bytes, bool>>)
    ensures deps == incs && q == QueueAll(q0, incs)
  {
    deps := [];
    q := q0;
    var i := 0;
    while i < |incs|
      invariant i <= |incs| && deps == incs[..i] && q == QueueAll(q0, incs[..i])
    {
      QueueAllStep(q0, incs, i);
      SliceSnoc(incs, i);
      deps := deps + [incs[i]];
      q := Insert(q, incs[i], false);
      i := i + 1;
    }
    assert incs[..i] == incs;
  }

  /** `get_files_for_recompilation`. */
  method GetFilesForRecompilation(env: Env, store: Store, target: Bytes, sources: seq<Bytes>, objects: seq<Bytes>)
    returns (ret: seq<Entry<Bytes, Bytes>>)
    modifies store
    ensures (ret, store.files) == Recompile(env, Place(target, store.folder, store.ext), old(store.files), sources, objects)
  {
    if |sources| != |objects| {
      return [];
    }
    var pl := Place(target, store.folder, store.ext);
    var data := NoData;
    for i := 0 to |sources|
      invariant (data, store.files) == ParseSources(NoData, env, pl, old(store.files), sources[..i], objects[..i])
    {
      SliceSnoc(sources, i);
      SliceSnoc(objects, i);
      assert (sources[..i] + [sources[i]])[..i] == sources[..i];
      assert (objects[..i] + [objects[i]])[..i] == objects[..i];
      data := ParseFileInto(data, env, store, target, sources[i], objects[i]);
    }
    assert sources[..|sources|] == sources && objects[..|objects|] == objects;
    data := HeadersInto(data, env, store, target);
    ret := SelectLoop(data);
  }

  /** The last loop of `get_files_for_recompilation`: the sources whose
      check reports a mismatch, with their objects. */
  method SelectLoop(data: Data) returns (ret: seq<Entry<Bytes, Bytes>>)
    ensures ret == Selected(data, data.sources)
  {
    ret := [];
    for i := 0 to |data.sources|
      invariant ret == Selected(data, data.sources[..i])
    {
      SliceSnoc(data.sources, i);
      assert (data.sources[..i] + [data.sources[i]])[..i] == data.sources[..i];
      var e := data.sources[i].data;
      if Mismatch(data, e, {}) {
        ret := ret + [Entry(e.newMeta.source, e.newMeta.objFile)];
      }
    }
    assert data.sources[..|data.sources|] == data.sources;
  }

  /** The header loop of `get_files_for_recompilation`. */
  method HeadersInto(data0: Data, env: Env, store: Store, target: Bytes) returns (data: Data)
    requires UniqueKeys(data0.toParse) && KeySet(data0.toParse) <= Universe(env)
    modifies store
    ensures (data, store.files) == HeaderLoop(data0, env, Place(target, store.folder, store.ext), old(store.files), 0)
  {
    var pl := Place(target, store.folder, store.ext);
    data := data0;
    var i := 0;
    while i < |data.toParse|
      invariant i <= |data.toParse| && UniqueKeys(data.toParse) && KeySet(data.toParse) <= Universe(env)
      invariant HeaderLoop(data, env, pl, store.files, i) == HeaderLoop(data0, env, pl, old(store.files), 0)
      decreases |Universe(env)| - i
    {
      UniqueBound(data.toParse, Universe(env));
      ghost var round := HeaderRound(data, env, pl, store.files, i);
      data := ParseFileInto(data, env, store, target, data.toParse[i].key, HeaderObj);
      data := data.(toParse := Mark(data.toParse, i));
      assert (data, store.files) == round;
      i := i + 1;
    }
  }
}
