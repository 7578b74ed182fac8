/** `lib::map` of the C++ CBuild: an association list kept in a vector of
    key/value pairs, in insertion order, with linear lookups. */
module LibMap {
  import opened Wrappers
  import opened Seqs

  /** `lib::mapData`. */
  datatype Entry<K, D> = Entry(key: K, data: D)

  /** The position of the first entry with key `k`. */
  function FirstIndex<K(==), D>(c: seq<Entry<K, D>>, k: K): (r: Option<nat>)
    ensures r.Some? ==> r.value < |c| && c[r.value].key == k
                        && forall j :: 0 <= j < r.value ==> c[j].key != k
    ensures r.None? <==> forall j :: 0 <= j < |c| ==> c[j].key != k
    decreases |c|
  {
    if c == [] then None
    else if c[0].key == k then Some(0)
    else match FirstIndex(c[1..], k)
      case None => None
      case Some(i) => Some(i + 1)
  }

  /** The position of the last entry with key `k`. */
  function LastIndex<K(==), D>(c: seq<Entry<K, D>>, k: K): (r: Option<nat>)
    ensures r.Some? ==> r.value < |c| && c[r.value].key == k
                        && forall j :: r.value < j < |c| ==> c[j].key != k
    ensures r.None? <==> forall j :: 0 <= j < |c| ==> c[j].key != k
    decreases |c|
  {
    if c == [] then None
    else if c[|c| - 1].key == k then Some(|c| - 1)
    else LastIndex(c[..|c| - 1], k)
  }

  /** `std::vector::erase` at one position: the others keep their order. */
  function Without<T>(c: seq<T>, i: nat): (r: seq<T>)
    requires i < |c|
    ensures |r| == |c| - 1
    ensures forall j :: 0 <= j < i ==> r[j] == c[j]
    ensures forall j :: i <= j < |r| ==> r[j] == c[j + 1]
  {
    c[..i] + c[i + 1..]
  }

  /** The entries whose key is not `k`, in order. */
  function Filter<K(==), D>(c: seq<Entry<K, D>>, k: K): (r: seq<Entry<K, D>>)
    ensures |r| <= |c|
    ensures forall i :: 0 <= i < |r| ==> r[i] in c && r[i].key != k
    ensures forall i :: 0 <= i < |c| && c[i].key != k ==> c[i] in r
    decreases |c|
  {
    if c == [] then []
    else (if c[0].key == k then [] else [c[0]]) + Filter(c[1..], k)
  }

  /** What the loop of `erase(key)` leaves of a suffix it has not yet
      visited: an erased entry's successor slides into the visited slot and
      is passed over unchecked. */
  function Skipping<K(==), D>(c: seq<Entry<K, D>>, k: K): (r: seq<Entry<K, D>>)
    ensures |r| <= |c|
    decreases |c|
  {
    if c == [] then []
    else if c[0].key != k then [c[0]] + Skipping(c[1..], k)
    else if |c| == 1 then []
    else [c[1]] + Skipping(c[2..], k)
  }

  class Map<K(==), D(==)> {
    var content: seq<Entry<K, D>>

    constructor ()
      ensures content == []
    {
      content := [];
    }

    /** The initializer-list constructor. */
    constructor FromList(init: seq<Entry<K, D>>)
      ensures content == init
    {
      var buf := [];
      for i := 0 to |init|
        invariant buf == init[..i]
      {
        buf := buf + [init[i]];
      }
      content := buf;
    }

    /** `push_back`: no check for an existing key. */
    method PushBack(e: Entry<K, D>)
      modifies this
      ensures content == old(content) + [e]
    {
      content := content + [e];
    }

    /** `push_back_check`: `false` stands for the thrown `runtime_error`. */
    method PushBackCheck(e: Entry<K, D>) returns (ok: bool)
      modifies this
      ensures ok <==> FirstIndex(old(content), e.key).None?
      ensures content == if ok then old(content) + [e] else old(content)
    {
      var found := Get(e.key);
      if found.Some? {
        return false;
      }
      PushBack(e);
      ok := true;
    }

    /** `pop_back`: `None` stands for the `out_of_range` thrown by `at` on an
        empty map. */
    method PopBack() returns (r: Option<Entry<K, D>>)
      modifies this
      ensures old(content) == [] ==> r == None && content == []
      ensures old(content) != [] ==> r == Some(old(content)[|old(content)| - 1])
                                     && content == old(content)[..|old(content)| - 1]
    {
      if |content| == 0 {
        return None;
      }
      r := Some(content[|content| - 1]);
      content := content[..|content| - 1];
    }

    /** `get`: the value of the first entry with the key. */
    method Get(k: K) returns (r: Option<D>)
      ensures r.None? <==> FirstIndex(content, k).None?
      ensures r.Some? ==> r.value == content[FirstIndex(content, k).value].data
    {
      if |content| == 0 {
        return None;
      }
      for i := 0 to |content|
        invariant forall j :: 0 <= j < i ==> content[j].key != k
      {
        if content[i].key == k {
          return Some(content[i].data);
        }
      }
      return None;
    }

    /** `get_ptr`: the position of the first entry with the key. */
    method GetPtr(k: K) returns (r: Option<nat>)
      ensures r == FirstIndex(content, k)
    {
      if |content| == 0 {
        return None;
      }
      for i := 0 to |content|
        invariant forall j :: 0 <= j < i ==> content[j].key != k
      {
        if content[i].key == k {
          return Some(i);
        }
      }
      return None;
    }

    /** `contains_key`: holds exactly when `get` finds something. */
    method ContainsKey(k: K) returns (b: bool)
      ensures b <==> exists j :: 0 <= j < |content| && content[j].key == k
      ensures b <==> FirstIndex(content, k).Some?
    {
      for i := 0 to |content|
        invariant forall j :: 0 <= j < i ==> content[j].key != k
      {
        if content[i].key == k {
          return true;
        }
      }
      return false;
    }

    /** `contains`: some entry holds the value. */
    method Contains(v: D) returns (b: bool)
      ensures b <==> exists j :: 0 <= j < |content| && content[j].data == v
    {
      for i := 0 to |content|
        invariant forall j :: 0 <= j < i ==> content[j].data != v
      {
        if content[i].data == v {
          return true;
        }
      }
      return false;
    }

    method Clear()
      modifies this
      ensures content == []
    {
      content := [];
    }

    /** `at` and `operator[]`: `None` stands for `out_of_range`. */
    method At(i: nat) returns (r: Option<Entry<K, D>>)
      ensures i < |content| ==> r == Some(content[i])
      ensures i >= |content| ==> r == None
    {
      if i < |content| {
        r := Some(content[i]);
      } else {
        r := None;
      }
    }

    /** `remove(idx)`: an index past the end changes nothing. */
    method RemoveIndex(idx: nat)
      modifies this
      ensures idx >= |old(content)| ==> content == old(content)
      ensures idx < |old(content)| ==> content == Without(old(content), idx)
    {
      if idx >= |content| {
        return;
      }
      content := Without(content, idx);
    }

    /** `remove(key)`: only the last entry with the key goes. */
    method RemoveKey(k: K)
      modifies this
      ensures LastIndex(old(content), k).None? ==> content == old(content)
      ensures LastIndex(old(content), k).Some? ==>
                content == Without(old(content), LastIndex(old(content), k).value)
    {
      var idx: nat := |content|;
      for i := 0 to |content|
        invariant idx == |content| || (idx < i && content[idx].key == k)
        invariant forall j :: idx < j < i ==> content[j].key != k
        invariant idx == |content| ==> forall j :: 0 <= j < i ==> content[j].key != k
      {
        if content[i].key == k {
          idx := i;
        }
      }
      if idx >= |content| {
        return;
      }
      content := Without(content, idx);
    }

    /** `keys`: in insertion order, one per entry. */
    method Keys() returns (ks: seq<K>)
      ensures |ks| == |content|
      ensures forall i :: 0 <= i < |content| ==> ks[i] == content[i].key
    {
      ks := [];
      for i := 0 to |content|
        invariant |ks| == i
        invariant forall j :: 0 <= j < i ==> ks[j] == content[j].key
      {
        ks := ks + [content[i].key];
      }
    }

    method Size() returns (n: nat)
      ensures n == |content|
    {
      n := |content|;
    }

    method Empty() returns (b: bool)
      ensures b <==> content == []
    {
      b := |content| == 0;
    }

    /** `operator+(mapData)`: a new map; the receiver is untouched. */
    method Plus(e: Entry<K, D>) returns (m: Map<K, D>)
      ensures fresh(m) && m.content == content + [e]
    {
      m := new Map();
      m.content := content;
      m.PushBack(e);
    }

    /** `operator+=(mapData)`: appends, and returns a copy. */
    method PlusAssign(e: Entry<K, D>) returns (m: Map<K, D>)
      modifies this
      ensures content == old(content) + [e]
      ensures fresh(m) && m.content == content
    {
      m := Plus(e);
      content := m.content;
    }

    /** `operator=(mapData)`: the map holds that one entry. */
    method AssignEntry(e: Entry<K, D>)
      modifies this
      ensures content == [e]
    {
      Clear();
      PushBack(e);
    }

    /** `operator==`: the same entries in the same order. */
    method Equals(other: Map<K, D>) returns (b: bool)
      ensures b <==> content == other.content
    {
      if |content| != |other.content| {
        return false;
      }
      for i := 0 to |content|
        invariant content[..i] == other.content[..i]
      {
        if content[i] != other.content[i] {
          return false;
        }
        assert content[..i + 1] == content[..i] + [content[i]];
        assert other.content[..i + 1] == other.content[..i] + [other.content[i]];
      }
      assert content == content[..|content|];
      assert other.content == other.content[..|other.content|];
      b := true;
    }

    /** `erase(key)` as written: the index moves on after each erasure. */
    method EraseAsWritten(k: K)
      modifies this
      ensures content == Skipping(old(content), k)
    {
      var i := 0;
      while i < |content|
        invariant i <= |content| + 1
        invariant i <= |content| ==> content[..i] + Skipping(content[i..], k) == Skipping(old(content), k)
        invariant i == |content| + 1 ==> content == Skipping(old(content), k)
        decreases |content| + 1 - i
      {
        i := SkipVisit(k, i);
      }
      if i == |content| {
        assert content[i..] == [];
        assert content[..i] == content;
      }
    }

    /** One pass of the as-written `erase` loop body. */
    method SkipVisit(k: K, i: nat) returns (next: nat)
      modifies this
      requires i < |content|
      ensures next == i + 1 && next <= |content| + 1 && |content| <= old(|content|)
      ensures next <= |content| ==>
                content[..next] + Skipping(content[next..], k) == old(content[..i] + Skipping(content[i..], k))
      ensures next == |content| + 1 ==> content == old(content[..i] + Skipping(content[i..], k))
    {
      ghost var c := content;
      SkippingStep(c, i, k);
      if content[i].key == k {
        content := Without(content, i);
        if i + 1 < |c| {
          assert content[..i + 1] == c[..i] + [c[i + 1]];
          assert content[i + 1..] == c[i + 2..];
        } else {
          assert content == c[..i];
        }
      } else {
        assert content[..i + 1] == c[..i] + [c[i]];
      }
      next := i + 1;
    }

    /** `erase(key)` as evidently intended: every entry with the key goes. */
    method Erase(k: K)
      modifies this
      ensures content == Filter(old(content), k)
    {
      var i := 0;
      while i < |content|
        invariant i <= |content|
        invariant content[..i] + Filter(content[i..], k) == Filter(old(content), k)
        decreases |content| - i
      {
        ghost var c := content;
        FilterStep(c, i, k);
        if content[i].key == k {
          content := Without(content, i);
          assert content[..i] == c[..i];
          assert content[i..] == c[i + 1..];
        } else {
          i := i + 1;
        }
      }
      assert content[i..] == [];
      assert content[..i] == content;
    }
  }

  /** One visit of the corrected `erase` loop. */
  lemma FilterStep<K, D>(c: seq<Entry<K, D>>, i: nat, k: K)
    requires i < |c|
    ensures c[i].key == k ==> Filter(c[i..], k) == Filter(c[i + 1..], k)
    ensures c[i].key != k ==> c[..i] + Filter(c[i..], k) == c[..i + 1] + Filter(c[i + 1..], k)
  {
    var f := Filter(c[i + 1..], k);
    assert c[i..][1..] == c[i + 1..];
    assert Filter(c[i..], k) == (if c[i].key == k then [] else [c[i]]) + f;
    if c[i].key != k {
      SliceSnoc(c, i);
      ConcatAssoc(c[..i], [c[i]], f);
    }
  }

  /** One visit of the as-written `erase` loop. */
  lemma SkippingStep<K, D>(c: seq<Entry<K, D>>, i: nat, k: K)
    requires i < |c|
    ensures c[i].key != k ==> c[..i] + Skipping(c[i..], k) == c[..i + 1] + Skipping(c[i + 1..], k)
    ensures c[i].key == k && i + 1 < |c| ==>
              c[..i] + Skipping(c[i..], k) == c[..i] + [c[i + 1]] + Skipping(c[i + 2..], k)
    ensures c[i].key == k && i + 1 == |c| ==> c[..i] + Skipping(c[i..], k) == c[..i]
  {
    assert c[i..][1..] == c[i + 1..];
    assert c[..i + 1] == c[..i] + [c[i]];
    if i + 1 < |c| {
      assert c[i..][2..] == c[i + 2..];
    }
  }

  /** Looking a key up after `push_back_check` has stored it finds the new
      value, and other keys see what they saw before. */
  lemma {:induction false} FirstIndexAppend<K, D>(c: seq<Entry<K, D>>, e: Entry<K, D>, k: K)
    ensures FirstIndex(c, k).Some? ==> FirstIndex(c + [e], k) == FirstIndex(c, k)
    ensures FirstIndex(c, k).None? && e.key == k ==> FirstIndex(c + [e], k) == Some(|c|)
    ensures FirstIndex(c, k).None? && e.key != k ==> FirstIndex(c + [e], k).None?
  {
    var r := FirstIndex(c + [e], k);
    if FirstIndex(c, k).None? {
      assert forall j :: 0 <= j < |c| ==> (c + [e])[j].key != k;
      assert (c + [e])[|c|] == e;
    } else {
      var i := FirstIndex(c, k).value;
      assert (c + [e])[i] == c[i];
      assert forall j :: 0 <= j < i ==> (c + [e])[j] == c[j];
    }
  }

  /** After a successful `push_back_check` keys stay unique. */
  ghost predicate UniqueKeys<K, D>(c: seq<Entry<K, D>>) {
    forall i, j :: 0 <= i < j < |c| ==> c[i].key != c[j].key
  }

  lemma UniqueAfterCheckedPush<K, D>(c: seq<Entry<K, D>>, e: Entry<K, D>)
    requires UniqueKeys(c) && FirstIndex(c, e.key).None?
    ensures UniqueKeys(c + [e])
  {
    assert forall j :: 0 <= j < |c| ==> c[j].key != e.key;
    assert forall i :: 0 <= i < |c| ==> (c + [e])[i] == c[i];
  }

  /** With unique keys the first and the last entry with a key are the same
      one, so `remove(key)` takes the entry `get` finds. */
  lemma UniqueFirstIsLast<K, D>(c: seq<Entry<K, D>>, k: K)
    requires UniqueKeys(c)
    ensures FirstIndex(c, k) == LastIndex(c, k)
  {
  }

  /** The as-written `erase` keeps an entry with the key whenever two such
      entries are adjacent. */
  lemma SkippingKeepsAdjacent<K, D>(k: K, d1: D, d2: D)
    ensures Skipping([Entry(k, d1), Entry(k, d2)], k) == [Entry(k, d2)]
  {
    var c := [Entry(k, d1), Entry(k, d2)];
    assert c[2..] == [];
  }

  /** The corrected `erase` leaves no entry with the key and touches no
      other. */
  lemma FilterRemovesAll<K, D>(c: seq<Entry<K, D>>, k: K)
    ensures FirstIndex(Filter(c, k), k).None?
    ensures FirstIndex(c, k).None? ==> Filter(c, k) == c
    decreases |c|
  {
    if c != [] {
      assert c == [c[0]] + c[1..];
      FilterRemovesAll(c[1..], k);
    }
  }
}
