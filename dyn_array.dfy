/** The DynArray macros of cbuild.h (`cbuild_da_*`). A dynamic array is a
    `data` pointer with `size` used and `capacity` hasData slots. The
    StringBuilder macros (`cbuild_sb_*`) are the same macros on bytes, so a
    string builder is a `DynArray<Byte>`. */
module DynArrays {
  import opened Wrappers

  /** CBUILD_INIT_CAPACITY: the capacity of a first automatic allocation. */
  const INIT_CAPACITY: nat := 256

  /** The capacity `cbuild_da_resize(da, n)` sets: with n == 0 the first
      allocation gets INIT_CAPACITY and later ones double; otherwise n. */
  function ResizedCapacity(hasData: bool, capacity: nat, n: nat): (c: nat)
    ensures n != 0 ==> c == n
    ensures n == 0 && !hasData ==> c == INIT_CAPACITY
    ensures n == 0 && hasData ==> c == 2 * capacity
  {
    if n != 0 then n else if !hasData then INIT_CAPACITY else 2 * capacity
  }

  /** The array with position `i` removed, as memmove leaves it. */
  function RemoveAt<T>(s: seq<T>, i: nat): seq<T>
    requires i < |s|
  {
    s[..i] + s[i + 1..]
  }

  /** RemoveAt shifts the later elements left by one and keeps the order. */
  lemma RemoveAtShifts<T>(s: seq<T>, i: nat)
    requires i < |s|
    ensures |RemoveAt(s, i)| == |s| - 1
    ensures forall j :: 0 <= j < i ==> RemoveAt(s, i)[j] == s[j]
    ensures forall j :: i <= j < |s| - 1 ==> RemoveAt(s, i)[j] == s[j + 1]
    ensures multiset(RemoveAt(s, i)) == multiset(s) - multiset{s[i]}
  {
    assert s == s[..i] + [s[i]] + s[i + 1..];
  }

  /** The array after `cbuild_da_remove_unordered`: the last element moves
      into the hole. */
  function SwapRemove<T>(s: seq<T>, i: nat): seq<T>
    requires i < |s|
  {
    s[i := s[|s| - 1]][..|s| - 1]
  }

  /** SwapRemove loses exactly the element at `i` and moves only the last. */
  lemma SwapRemoveLoses<T>(s: seq<T>, i: nat)
    requires i < |s|
    ensures |SwapRemove(s, i)| == |s| - 1
    ensures multiset(SwapRemove(s, i)) == multiset(s) - multiset{s[i]}
    ensures forall j :: 0 <= j < |s| - 1 && j != i ==> SwapRemove(s, i)[j] == s[j]
  {
    var n := |s| - 1;
    if i == n {
      assert s == s[..n] + [s[n]];
    } else {
      SwapRemoveShape(s, i);
      MultisetSwap(s[..i], s[i], s[i + 1..n], s[n]);
    }
  }

  /** Below the last index, SwapRemove is the front, the last element, then the rest. */
  lemma SwapRemoveShape<T>(s: seq<T>, i: nat)
    requires i < |s| - 1
    ensures s == s[..i] + [s[i]] + s[i + 1..|s| - 1] + [s[|s| - 1]]
    ensures SwapRemove(s, i) == s[..i] + [s[|s| - 1]] + s[i + 1..|s| - 1]
  {
  }

  /** Taking `x` out of `a x b y` leaves the elements of `a y b`. */
  lemma MultisetSwap<T>(a: seq<T>, x: T, b: seq<T>, y: T)
    ensures multiset(a + [x] + b + [y]) - multiset{x} == multiset(a + [y] + b)
  {
  }

  class DynArray<T> {
    /** data[0..size) */
    var items: seq<T>
    var capacity: nat
    /** data != NULL */
    var hasData: bool

    ghost predicate Valid()
      reads this
    {
      |items| <= capacity
      && (!hasData ==> capacity == 0 && items == [])
      && (hasData ==> capacity >= 1)
    }

    /** A zero-initialised `cbuild_da_new(T)` struct. */
    constructor ()
      ensures Valid() && items == [] && capacity == 0 && !hasData
    {
      items, capacity, hasData := [], 0, false;
    }

    /** Growing when full always makes room for one more element. */
    static lemma FullGrowthFits(hasData: bool, capacity: nat, size: nat)
      requires size <= capacity && (!hasData ==> capacity == 0) && (hasData ==> capacity >= 1)
      requires size + 1 > capacity
      ensures ResizedCapacity(hasData, capacity, 0) >= size + 1
    {
    }

    /** `cbuild_da_resize`: sets the capacity by the growth rule and
        truncates the contents when they no longer fit. */
    method Resize(n: nat)
      requires Valid()
      modifies this
      ensures Valid() && hasData
      ensures capacity == ResizedCapacity(old(hasData), old(capacity), n)
      ensures items == if |old(items)| <= capacity then old(items) else old(items)[..capacity]
    {
      capacity := ResizedCapacity(hasData, capacity, n);
      hasData := true;
      if |items| > capacity {
        items := items[..capacity];
      }
    }

    /** `cbuild_da_append`: resizes only when full, then stores `x` at the
        old size. */
    method Append(x: T)
      requires Valid()
      modifies this
      ensures Valid() && hasData
      ensures items == old(items) + [x]
      ensures capacity == if |old(items)| + 1 > old(capacity)
                          then ResizedCapacity(old(hasData), old(capacity), 0) else old(capacity)
    {
      if |items| + 1 > capacity {
        FullGrowthFits(hasData, capacity, |items|);
        Resize(0);
      }
      items := items + [x];
    }

    /** `cbuild_da_append_arr` (and `cbuild_sb_append_cstr`, with the bytes
        before the terminating NUL): grows to capacity + |xs| when needed. */
    method AppendArr(xs: seq<T>)
      requires Valid()
      modifies this
      ensures Valid()
      ensures items == old(items) + xs
      ensures capacity == if |old(items)| + |xs| > old(capacity)
                          then old(capacity) + |xs| else old(capacity)
      ensures hasData == (old(hasData) || |old(items)| + |xs| > old(capacity))
    {
      if |items| + |xs| > capacity {
        Resize(capacity + |xs|);
      }
      items := items + xs;
    }

    /** `cbuild_da_set`: false on an index past the size. */
    method Set(idx: nat, x: T) returns (ok: bool)
      requires Valid()
      modifies this
      ensures Valid() && capacity == old(capacity) && hasData == old(hasData)
      ensures ok <==> idx < |old(items)|
      ensures items == if ok then old(items)[idx := x] else old(items)
    {
      ok := idx < |items|;
      if ok {
        items := items[idx := x];
      }
    }

    /** `cbuild_da_get`: the element, or None (NULL) past the size. */
    function Get(idx: nat): (r: Option<T>)
      reads this
      ensures r.Some? <==> idx < |items|
      ensures r.Some? ==> r.value == items[idx]
    {
      if idx >= |items| then None else Some(items[idx])
    }

    /** `cbuild_da_remove`: shifts the later elements left. */
    method Remove(idx: nat) returns (ok: bool)
      requires Valid()
      modifies this
      ensures Valid() && capacity == old(capacity) && hasData == old(hasData)
      ensures ok <==> idx < |old(items)|
      ensures items == if ok then RemoveAt(old(items), idx) else old(items)
    {
      ok := idx < |items|;
      if ok {
        items := RemoveAt(items, idx);
      }
    }

    /** `cbuild_da_remove_unordered`: the last element fills the hole. */
    method RemoveUnordered(idx: nat) returns (ok: bool)
      requires Valid()
      modifies this
      ensures Valid() && capacity == old(capacity) && hasData == old(hasData)
      ensures ok <==> idx < |old(items)|
      ensures items == if ok then SwapRemove(old(items), idx) else old(items)
    {
      ok := idx < |items|;
      if ok {
        items := SwapRemove(items, idx);
      }
    }

    /** `cbuild_da_clear`: frees the buffer. */
    method Clear()
      requires Valid()
      modifies this
      ensures Valid() && items == [] && capacity == 0 && !hasData
    {
      items, capacity, hasData := [], 0, false;
    }
  }
}
