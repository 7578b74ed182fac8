/** The bucket hash map of cbuild.h (`cbuild_map_*`): a key is the first
    `keySize` bytes of an element of `elemSize` bytes, hashed by djb2 and
    compared with memcmp, or, when `keySize` is 0, a `char*` to a C string
    hashed by djb2 over its bytes and compared with strcmp; a user hash
    and a user comparison replace the defaults. */
module BucketMaps {
  import opened Wrappers
  import opened Bytes
  import opened DynArrays

  const SIZE_MOD: int := 0x1_0000_0000_0000_0000

  /** djb2 over unsigned bytes in a 64-bit size_t: h := h * 33 + b. */
  function Djb2Step(h: nat, b: Byte): nat {
    (h * 33 + b as int) % SIZE_MOD
  }

  /** The left fold of Djb2Step from 5381. */
  function Djb2(s: Bytes): (h: nat)
    ensures h < SIZE_MOD
    decreases |s|
  {
    if s == [] then 5381 else Djb2Step(Djb2(s[..|s| - 1]), s[|s| - 1])
  }

  /** `__cbuild_int_map_hash_func`: the loop computes Djb2. */
  method HashFunc(data: Bytes) returns (h: nat)
    ensures h == Djb2(data) && h < SIZE_MOD
  {
    h := 5381;
    for i := 0 to |data|
      invariant h == Djb2(data[..i])
    {
      assert data[..i + 1][..i] == data[..i];
      h := (h * 33 + data[i] as int) % SIZE_MOD;
    }
    assert data[..|data|] == data;
  }

  /** The size of the `char*` a C-string key is stored as (a 64-bit
      target). */
  const PTR_SIZE: nat := 8

  /** An element of a bucket: `bucket` and `index` locate `vals[index]`. */
  datatype Slot = Slot(bucket: nat, index: nat)

  /** What `cbuild_map_get_raw` returns: CBUILD_PTR_ERR, NULL or a pointer. */
  datatype Lookup = PtrErr | Null | At(slot: Slot)

  function Zeros(n: nat): (z: Bytes)
    ensures |z| == n && forall i :: 0 <= i < n ==> z[i] == '\0'
  {
    seq(n, i => '\0')
  }

  /** The elements of all buckets in bucket order. */
  function Flatten(bs: seq<seq<Bytes>>): seq<Bytes>
    decreases |bs|
  {
    if bs == [] then [] else Flatten(bs[..|bs| - 1]) + bs[|bs| - 1]
  }

  /** Where `cbuild_map_iter_next` stops from cursor (ib, iv): the first
      slot at or after it, moving to index 0 of later buckets. */
  function NextSlot(bs: seq<seq<Bytes>>, ib: nat, iv: nat): (r: Option<Slot>)
    ensures r.Some? ==> ib <= r.value.bucket < |bs| && r.value.index < |bs[r.value.bucket]|
    ensures r.Some? ==> r.value.index == if r.value.bucket == ib then iv else 0
    ensures r.Some? ==> forall b :: ib < b < r.value.bucket ==> bs[b] == []
    ensures r.None? ==> ib >= |bs| || (iv >= |bs[ib]| && forall b :: ib < b < |bs| ==> bs[b] == [])
    decreases |bs| - ib
  {
    if ib >= |bs| then None
    else if iv < |bs[ib]| then Some(Slot(ib, iv))
    else NextSlot(bs, ib + 1, 0)
  }

  /** The elements an iteration has visited when its cursor is (ib, iv). */
  function Visited(bs: seq<seq<Bytes>>, ib: nat, iv: nat): seq<Bytes>
    requires ib <= |bs| && (ib < |bs| ==> iv <= |bs[ib]|)
  {
    Flatten(bs[..ib]) + if ib < |bs| then bs[ib][..iv] else []
  }

  /** One iteration step extends the visited elements by exactly the element
      it returns; when it returns nothing, every element has been visited. */
  lemma {:induction false} NextSlotVisits(bs: seq<seq<Bytes>>, ib: nat, iv: nat)
    requires ib <= |bs| && (ib < |bs| ==> iv <= |bs[ib]|)
    ensures NextSlot(bs, ib, iv).Some? ==>
      var s := NextSlot(bs, ib, iv).value;
      Visited(bs, s.bucket, s.index + 1) == Visited(bs, ib, iv) + [bs[s.bucket][s.index]]
    ensures NextSlot(bs, ib, iv).None? ==> Visited(bs, ib, iv) == Flatten(bs)
    decreases |bs| - ib
  {
    if ib == |bs| {
      assert bs[..ib] == bs;
    } else if iv < |bs[ib]| {
      assert bs[ib][..iv + 1] == bs[ib][..iv] + [bs[ib][iv]];
    } else {
      assert bs[ib][..iv] == bs[ib];
      assert bs[..ib + 1][..ib] == bs[..ib];
      if ib + 1 < |bs| {
        assert bs[ib + 1][..0] == [];
      }
      NextSlotVisits(bs, ib + 1, 0);
    }
  }

  class BucketMap {
    var buckets: seq<seq<Bytes>>
    /** `key_size`; 0 means the key is a `char*` to a C string. */
    var keySize: nat
    var elemSize: nat
    /** `hash_func`; None selects the default djb2 hash. */
    var hashFunc: Option<Bytes -> nat>
    /** `keycmp_func`, given the key and an element; None selects memcmp,
        or strcmp for C-string keys. */
    var keyCmp: Option<(Bytes, Bytes) -> bool>
    /** The memory C-string keys point into: the bytes before the NUL of
        the string a stored pointer value addresses. */
    var cString: Bytes -> Bytes
    var iterBuckets: nat
    var iterVals: nat

    /** The bytes a key argument points at: `key_size` bytes, or one
        pointer for C-string keys. */
    function KeyLen(): nat
      reads this
    {
      if keySize > 0 then keySize else PTR_SIZE
    }

    ghost predicate Valid()
      reads this
    {
      KeyLen() <= elemSize
      && forall b, i :: 0 <= b < |buckets| && 0 <= i < |buckets[b]| ==> |buckets[b][i]| == elemSize
    }

    /** Whether element `e` holds `key`: the user comparison, else memcmp
        over `key_size` bytes returns 0, else strcmp of the two C strings
        returns 0. */
    predicate Matches(e: Bytes, key: Bytes)
      reads this
    {
      KeyLen() <= |e| &&
      match keyCmp
      case Some(f) => f(key, e)
      case None =>
        if keySize > 0 then e[..keySize] == key
        else cString(key) == cString(e[..PTR_SIZE])
    }

    /** A zero-initialised map whose user set `key_size`, `elem_size` and
        possibly `hash_func` and `keycmp_func`; an element holds its key. */
    constructor (keySize: nat, elemSize: nat, hashFunc: Option<Bytes -> nat>,
                 keyCmp: Option<(Bytes, Bytes) -> bool>, cString: Bytes -> Bytes)
      requires (if keySize > 0 then keySize else PTR_SIZE) <= elemSize
      ensures Valid() && buckets == [] && iterBuckets == 0 && iterVals == 0
      ensures this.keySize == keySize && this.elemSize == elemSize && this.hashFunc == hashFunc
      ensures this.keyCmp == keyCmp && this.cString == cString
    {
      buckets := [];
      this.keySize, this.elemSize, this.hashFunc := keySize, elemSize, hashFunc;
      this.keyCmp, this.cString := keyCmp, cString;
      iterBuckets, iterVals := 0, 0;
    }

    /** The bucket `__cbuild_int_map_get_hash` picks for `key`: the user
        hash, djb2 over the key bytes, or djb2 over the C string's strlen
        bytes. */
    function BucketOf(key: Bytes): (b: nat)
      reads this
      requires |buckets| > 0
      ensures b < |buckets|
      ensures hashFunc.None? && keySize > 0 ==> b == Djb2(key) % |buckets|
      ensures hashFunc.None? && keySize == 0 ==> b == Djb2(cString(key)) % |buckets|
    {
      (match hashFunc
       case None => if keySize > 0 then Djb2(key) else Djb2(cString(key))
       case Some(f) => f(key)) % |buckets|
    }

    /** With the default hash and comparison, an element holding a key
        lies in the key's bucket when it is stored under its own key bytes:
        equal keys, and C-string keys with equal strings, hash alike. */
    lemma DefaultHashAgrees(e: Bytes, key: Bytes)
      requires |buckets| > 0 && hashFunc.None? && keyCmp.None?
      requires |key| == KeyLen() && Matches(e, key)
      ensures BucketOf(e[..KeyLen()]) == BucketOf(key)
    {
    }

    /** `__cbuild_int_map_check_bucket`: the first element of bucket `b`
        that `Matches` the key. */
    method CheckBucket(b: nat, key: Bytes) returns (r: Option<nat>)
      requires Valid() && b < |buckets| && |key| == KeyLen()
      ensures r.Some? ==> r.value < |buckets[b]| && Matches(buckets[b][r.value], key)
      ensures r.Some? ==> forall j :: 0 <= j < r.value ==> !Matches(buckets[b][j], key)
      ensures r.None? ==> forall j :: 0 <= j < |buckets[b]| ==> !Matches(buckets[b][j], key)
    {
      var vals := buckets[b];
      for i := 0 to |vals|
        invariant forall j :: 0 <= j < i ==> !Matches(buckets[b][j], key)
      {
        if Matches(vals[i], key) {
          return Some(i);
        }
      }
      r := None;
    }

    /** `cbuild_map_init`: `n` empty buckets. */
    method Init(n: nat)
      requires Valid()
      modifies this`buckets
      ensures Valid() && |buckets| == n && forall b :: 0 <= b < n ==> buckets[b] == []
    {
      buckets := seq(n, b => []);
    }

    /** `cbuild_map_get_raw`: CBUILD_PTR_ERR without buckets, else the first
        element with the key in the key's bucket, or NULL. */
    method Get(key: Bytes) returns (r: Lookup)
      requires Valid() && |key| == KeyLen()
      ensures |buckets| == 0 <==> r == PtrErr
      ensures |buckets| > 0 ==> (r == Null <==>
        forall j :: 0 <= j < |buckets[BucketOf(key)]| ==> !Matches(buckets[BucketOf(key)][j], key))
      ensures r.At? ==> (r.slot.bucket == BucketOf(key) && r.slot.index < |buckets[r.slot.bucket]|
        && Matches(buckets[r.slot.bucket][r.slot.index], key)
        && forall j :: 0 <= j < r.slot.index ==> !Matches(buckets[r.slot.bucket][j], key))
    {
      if |buckets| == 0 {
        return PtrErr;
      }
      var b := BucketOf(key);
      var found := CheckBucket(b, key);
      r := if found.Some? then At(Slot(b, found.value)) else Null;
    }

    /** `cbuild_map_get_or_alloc_raw`: NULL without buckets; an existing key's
        element; or a new zero-filled element at the end of the key's
        bucket (the caller then writes the key and value into it). */
    method GetOrAlloc(key: Bytes) returns (r: Option<Slot>)
      requires Valid() && |key| == KeyLen()
      modifies this`buckets
      ensures Valid() && |buckets| == |old(buckets)|
      ensures |old(buckets)| == 0 ==> r.None? && buckets == old(buckets)
      ensures |old(buckets)| > 0 ==> r.Some? && r.value.bucket == old(BucketOf(key))
      ensures r.Some? && r.value.index < |old(buckets)[r.value.bucket]| ==>
        buckets == old(buckets) && Matches(buckets[r.value.bucket][r.value.index], key)
      ensures r.Some? && r.value.index >= |old(buckets)[r.value.bucket]| ==>
        (forall j :: 0 <= j < |old(buckets)[r.value.bucket]| ==> !Matches(old(buckets)[r.value.bucket][j], key))
        && r.value.index == |old(buckets)[r.value.bucket]|
        && buckets == old(buckets)[r.value.bucket := old(buckets)[r.value.bucket] + [Zeros(elemSize)]]
    {
      if |buckets| == 0 {
        return None;
      }
      var b := BucketOf(key);
      var found := CheckBucket(b, key);
      if found.Some? {
        return Some(Slot(b, found.value));
      }
      var n := |buckets[b]|;
      buckets := buckets[b := buckets[b] + [Zeros(elemSize)]];
      r := Some(Slot(b, n));
    }

    /** A write through the element pointer get-or-alloc returned. */
    method Store(s: Slot, e: Bytes)
      requires Valid() && s.bucket < |buckets| && s.index < |buckets[s.bucket]| && |e| == elemSize
      modifies this`buckets
      ensures Valid()
      ensures buckets == old(buckets)[s.bucket := old(buckets)[s.bucket][s.index := e]]
    {
      buckets := buckets[s.bucket := buckets[s.bucket][s.index := e]];
    }

    /** `cbuild_map_remove_ex_raw` (without a clear callback): false without
        buckets or for an absent key; otherwise the bucket's last element
        moves into the hole. */
    method Remove(key: Bytes) returns (ok: bool)
      requires Valid() && |key| == KeyLen()
      modifies this`buckets
      ensures Valid() && |buckets| == |old(buckets)|
      ensures !ok ==> buckets == old(buckets)
      ensures !ok && |buckets| > 0 ==>
        forall j :: 0 <= j < |buckets[BucketOf(key)]| ==> !Matches(buckets[BucketOf(key)][j], key)
      ensures ok ==> |old(buckets)| > 0 && exists i :: (
        0 <= i < |old(buckets)[old(BucketOf(key))]|
        && Matches(old(buckets)[BucketOf(key)][i], key)
        && (forall j :: 0 <= j < i ==> !Matches(old(buckets)[BucketOf(key)][j], key))
        && buckets == old(buckets)[old(BucketOf(key)) := SwapRemove(old(buckets)[old(BucketOf(key))], i)])
    {
      if |buckets| == 0 {
        return false;
      }
      var b := BucketOf(key);
      var found := CheckBucket(b, key);
      if found.None? {
        return false;
      }
      var i := found.value;
      ghost var was := buckets;
      if |buckets[b]| == 1 {
        assert SwapRemove(buckets[b], i) == [];
        buckets := buckets[b := []];
      } else {
        buckets := buckets[b := SwapRemove(buckets[b], i)];
      }
      assert buckets == was[b := SwapRemove(was[b], i)];
      ok := true;
    }

    /** `cbuild_map_clear` (without a clear callback): no buckets left. */
    method Clear()
      requires Valid()
      modifies this`buckets
      ensures Valid() && buckets == []
    {
      buckets := [];
    }

    /** `cbuild_map_iter_reset`. */
    method IterReset()
      modifies this`iterBuckets, this`iterVals
      ensures iterBuckets == 0 && iterVals == 0
    {
      iterBuckets, iterVals := 0, 0;
    }

    /** `cbuild_map_iter_next`: the slot at the cursor, skipping exhausted
        buckets; the cursor moves one past it. At the end the cursor rests
        on `nbuckets`. */
    method IterNext() returns (r: Option<Slot>)
      modifies this`iterBuckets, this`iterVals
      ensures r == NextSlot(buckets, old(iterBuckets), old(iterVals))
      ensures r.Some? ==> iterBuckets == r.value.bucket && iterVals == r.value.index + 1
      ensures r.None? && old(iterBuckets) < |buckets| ==> iterBuckets == |buckets| && iterVals == 0
      ensures r.None? && old(iterBuckets) >= |buckets| ==>
        iterBuckets == old(iterBuckets) && iterVals == old(iterVals)
    {
      while iterBuckets < |buckets|
        invariant NextSlot(buckets, iterBuckets, iterVals) == NextSlot(buckets, old(iterBuckets), old(iterVals))
        invariant old(iterBuckets) < |buckets| ==> iterBuckets <= |buckets|
        invariant iterBuckets != old(iterBuckets) ==> iterVals == 0
        invariant iterBuckets >= old(iterBuckets)
        invariant old(iterBuckets) >= |buckets| ==> iterBuckets == old(iterBuckets) && iterVals == old(iterVals)
        decreases |buckets| - iterBuckets
      {
        if iterVals < |buckets[iterBuckets]| {
          r := Some(Slot(iterBuckets, iterVals));
          iterVals := iterVals + 1;
          return;
        }
        iterBuckets := iterBuckets + 1;
        iterVals := 0;
      }
      r := None;
    }

    /** A full `cbuild_map_foreach`: reset, then IterNext until NULL,
        visits every element once, in bucket order. */
    method ForEach() returns (visited: seq<Bytes>)
      requires Valid()
      modifies this`iterBuckets, this`iterVals
      ensures visited == Flatten(buckets)
    {
      IterReset();
      visited := [];
      if |buckets| > 0 { assert buckets[0][..0] == []; }
      while true
        invariant iterBuckets <= |buckets| && (iterBuckets < |buckets| ==> iterVals <= |buckets[iterBuckets]|)
        invariant iterBuckets == |buckets| ==> iterVals == 0
        invariant visited == Visited(buckets, iterBuckets, iterVals)
        decreases |Flatten(buckets)| - |visited|
      {
        ghost var ib, iv := iterBuckets, iterVals;
        NextSlotVisits(buckets, ib, iv);
        FlattenVisitedBound(buckets, ib, iv);
        var s := IterNext();
        if s.None? {
          return;
        }
        visited := visited + [buckets[s.value.bucket][s.value.index]];
        if iterBuckets < |buckets| {
          FlattenVisitedBound(buckets, iterBuckets, iterVals);
        }
      }
    }
  }

  /** The visited elements never outnumber all elements. */
  lemma {:induction false} FlattenVisitedBound(bs: seq<seq<Bytes>>, ib: nat, iv: nat)
    requires ib <= |bs| && (ib < |bs| ==> iv <= |bs[ib]|)
    ensures |Visited(bs, ib, iv)| <= |Flatten(bs)|
    decreases |bs| - ib
  {
    if ib < |bs| {
      assert bs[..ib + 1][..ib] == bs[..ib];
      FlattenVisitedBound(bs, ib + 1, 0);
      if ib + 1 < |bs| { assert bs[ib + 1][..0] == []; }
    } else {
      assert bs[..ib] == bs;
    }
  }
}
