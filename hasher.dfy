/** The string hashes of the C++ CBuild (`hash_djb2`, `hash_fnv_1a`): left
    folds over the bytes of a string into an unsigned 64-bit accumulator. */
module Hasher {
  import opened Bytes

  const Word: nat := 0x1_0000_0000_0000_0000

  const DjbInit: nat := 5381
  const FnvInit: nat := 14695981039346656037
  const FnvPrime: nat := 1099511628211

  /** `(uint64_t)c` for a `char` that is signed: bytes from 0x80 are
      sign-extended to 64 bits. */
  function Widen(c: Byte): (w: nat)
    ensures w < Word
    ensures c as int < 128 ==> w == c as int
    ensures c as int >= 128 ==> w == Word - 256 + c as int
  {
    Signed(c) % Word
  }

  /** `hash = ((hash << 5) + hash) + (uint64_t)c`, all mod 2^64. */
  function DjbStep(h: nat, c: Byte): (r: nat)
    ensures r < Word
  {
    (h * 33 + Widen(c)) % Word
  }

  /** `(uint64_t)c` as a 64-bit word, for the bitwise steps of FNV-1a:
      the number `Widen` gives, in bits. */
  function WidenBits(c: Byte): bv64 {
    Widen(c) as bv64
  }

  /** `hash ^= (uint64_t)c; hash *= prime`, with uint64 wrap-around. */
  function FnvStep(h: bv64, c: Byte): bv64 {
    (h ^ WidenBits(c)) * (FnvPrime as bv64)
  }

  /** The range-for loop of `hash_djb2` from accumulator `h`. */
  function DjbFold(h: nat, s: Bytes): nat
    decreases |s|
  {
    if s == [] then h else DjbFold(DjbStep(h, s[0]), s[1..])
  }

  function FnvFold(h: bv64, s: Bytes): bv64
    decreases |s|
  {
    if s == [] then h else FnvFold(FnvStep(h, s[0]), s[1..])
  }

  function Djb2(s: Bytes): nat {
    DjbFold(DjbInit, s)
  }

  function Fnv1a(s: Bytes): bv64 {
    FnvFold(FnvInit as bv64, s)
  }

  /** `hash_djb2`. */
  method HashDjb2(str: Bytes) returns (hash: nat)
    ensures hash == Djb2(str)
    ensures hash < Word
  {
    hash := DjbInit;
    for i := 0 to |str|
      invariant DjbFold(hash, str[i..]) == Djb2(str)
      invariant hash < Word
    {
      assert str[i..][1..] == str[i + 1..];
      hash := DjbStep(hash, str[i]);
    }
    assert str[|str|..] == [];
  }

  /** `hash_fnv_1a`. */
  method HashFnv1a(str: Bytes) returns (hash: bv64)
    ensures hash == Fnv1a(str)
  {
    hash := FnvInit as bv64;
    for i := 0 to |str|
      invariant FnvFold(hash, str[i..]) == Fnv1a(str)
    {
      assert str[i..][1..] == str[i + 1..];
      hash := FnvStep(hash, str[i]);
    }
    assert str[|str|..] == [];
  }

  /** Folding from a 64-bit value yields a 64-bit value. */
  lemma {:induction false} DjbFoldBound(h: nat, s: Bytes)
    requires h < Word
    ensures DjbFold(h, s) < Word
    decreases |s|
  {
    if s != [] {
      DjbFoldBound(DjbStep(h, s[0]), s[1..]);
    }
  }

  /** Folding a concatenation folds the second part from the hash of the
      first. */
  lemma {:induction false} DjbFoldAppend(h: nat, a: Bytes, b: Bytes)
    ensures DjbFold(h, a + b) == DjbFold(DjbFold(h, a), b)
    decreases |a|
  {
    if a != [] {
      assert (a + b)[1..] == a[1..] + b;
      DjbFoldAppend(DjbStep(h, a[0]), a[1..], b);
    } else {
      assert a + b == b;
    }
  }

  lemma {:induction false} FnvFoldAppend(h: bv64, a: Bytes, b: Bytes)
    ensures FnvFold(h, a + b) == FnvFold(FnvFold(h, a), b)
    decreases |a|
  {
    if a != [] {
      assert (a + b)[1..] == a[1..] + b;
      FnvFoldAppend(FnvStep(h, a[0]), a[1..], b);
    } else {
      assert a + b == b;
    }
  }

  /** The empty string hashes to the initial value, and appending a byte is
      one more step of the loop. */
  lemma Djb2Snoc(s: Bytes, c: Byte)
    ensures Djb2([]) == DjbInit
    ensures Djb2(s + [c]) == DjbStep(Djb2(s), c)
  {
    DjbFoldAppend(DjbInit, s, [c]);
    assert [c][1..] == [];
  }

  lemma Fnv1aSnoc(s: Bytes, c: Byte)
    ensures Fnv1a([]) == FnvInit as bv64
    ensures Fnv1a(s + [c]) == FnvStep(Fnv1a(s), c)
  {
    FnvFoldAppend(FnvInit as bv64, s, [c]);
    assert [c][1..] == [];
  }

  /** A byte from 0x80 enters the hash sign-extended: it differs from the
      zero-extended value by 2^64 - 256. */
  lemma HighByteSignExtended(h: nat, c: Byte)
    requires c as int >= 128
    ensures DjbStep(h, c) == (h * 33 + c as int + Word - 256) % Word
  {
  }
}
