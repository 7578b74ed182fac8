/** The UTF-8 helpers of cbuild.h: the encoder behind `cbuild_sb_append_utf8`,
    the lenient decoder `cbuild_sv_chop_utf8` and the strict validator
    `cbuild_sv_utf8valid`. Byte masks are written as the equivalent ranges
    and sums; MaskRanges and MaskDecode prove the two forms agree. */
module Utf8 {
  import opened Bytes
  import opened Wrappers

  const UINT32_MAX: int := 0xFFFF_FFFF
  const MAX_CODEPOINT: int := 0x10FFFF

  function B(x: int): Byte
    requires 0 <= x < 256
  {
    x as char
  }

  /** The low-byte masks of the lead-byte tests are range tests. */
  lemma MaskRanges(b: bv8)
    ensures (b & 0xE0 == 0xC0) <==> (0xC0 <= b <= 0xDF)
    ensures (b & 0xF0 == 0xE0) <==> (0xE0 <= b <= 0xEF)
    ensures (b & 0xF8 == 0xF0) <==> (0xF0 <= b <= 0xF7)
    ensures (b & 0xC0 == 0x80) <==> (0x80 <= b <= 0xBF)
  {
  }

  /** The decoder's shifts and masks are sums of remainders. */
  lemma MaskDecode(b1: bv32, b2: bv32)
    requires b1 < 256 && b2 < 256
    ensures (((b1 & 0x1F) << 6) | (b2 & 0x3F)) == (b1 % 32) * 64 + b2 % 64
  {
  }

  /** The number of bytes the encoder writes for `cp`. */
  function EncodedLength(cp: nat): nat {
    if cp <= 0x7F then 1 else if cp <= 0x7FF then 2 else if cp <= 0xFFFF then 3 else 4
  }

  /** The bytes `cbuild_sb_append_utf8` appends; None where it aborts with
      CBUILD_UNREACHABLE (a code point above 0x10FFFF). */
  function Encode(cp: nat): (r: Option<Bytes>)
    ensures r.Some? <==> cp <= MAX_CODEPOINT
    ensures r.Some? ==> |r.value| == EncodedLength(cp)
  {
    if cp <= 0x7F then Some([B(cp)])
    else if cp <= 0x7FF then
      Some([B(0xC0 + (cp / 64) % 32), B(0x80 + cp % 64)])
    else if cp <= 0xFFFF then
      Some([B(0xE0 + (cp / 4096) % 16), B(0x80 + (cp / 64) % 64), B(0x80 + cp % 64)])
    else if cp <= MAX_CODEPOINT then
      Some([B(0xF0 + (cp / 262144) % 8), B(0x80 + (cp / 4096) % 64),
            B(0x80 + (cp / 64) % 64), B(0x80 + cp % 64)])
    else None
  }

  /** `cbuild_sv_utf8cp_len`: the length the lead byte announces, when that
      many bytes are left; 1 otherwise, 0 for an empty view. */
  function CpLen(sv: Bytes): (n: nat)
    ensures n == 0 <==> sv == []
    ensures n <= |sv| && n <= 4
  {
    if |sv| == 0 then 0
    else if sv[0] as int < 0x80 then 1
    else if 0xC0 <= sv[0] as int <= 0xDF && |sv| >= 2 then 2
    else if 0xE0 <= sv[0] as int <= 0xEF && |sv| >= 3 then 3
    else if 0xF0 <= sv[0] as int <= 0xF7 && |sv| >= 4 then 4
    else 1
  }

  datatype Decoded = Decoded(cp: int, rest: Bytes)

  /** `cbuild_sv_chop_utf8`: decodes one code point from the lead byte's
      pattern without checking the continuation bytes; a byte that starts
      nothing decodes as itself. An empty view gives UINT32_MAX. */
  function ChopUtf8(sv: Bytes): (r: Decoded)
    ensures sv == [] ==> r == Decoded(UINT32_MAX, [])
    ensures sv != [] ==> r.rest == sv[CpLen(sv)..]
    ensures 0 <= r.cp <= UINT32_MAX
  {
    var n := CpLen(sv);
    if n == 0 then Decoded(UINT32_MAX, [])
    else if n == 1 then Decoded(sv[0] as int, sv[1..])
    else if n == 2 then
      Decoded((sv[0] as int % 32) * 64 + sv[1] as int % 64, sv[2..])
    else if n == 3 then
      Decoded((sv[0] as int % 16) * 4096 + (sv[1] as int % 64) * 64 + sv[2] as int % 64, sv[3..])
    else
      Decoded((sv[0] as int % 8) * 262144 + (sv[1] as int % 64) * 4096
              + (sv[2] as int % 64) * 64 + sv[3] as int % 64, sv[4..])
  }

  lemma EncodeChop2(cp: nat, rest: Bytes)
    requires 0x7F < cp <= 0x7FF
    ensures ChopUtf8(Encode(cp).value + rest) == Decoded(cp, rest)
  {
    var d0, d1 := cp / 64, cp % 64;
    assert Encode(cp).value == [B(0xC0 + d0), B(0x80 + d1)];
    Chop2(d0, d1, rest);
  }

  lemma EncodeChop3(cp: nat, rest: Bytes)
    requires 0x7FF < cp <= 0xFFFF
    ensures ChopUtf8(Encode(cp).value + rest) == Decoded(cp, rest)
  {
    var d0, d1, d2 := cp / 4096, (cp / 64) % 64, cp % 64;
    Digits3(cp);
    assert Encode(cp).value == [B(0xE0 + d0), B(0x80 + d1), B(0x80 + d2)];
    Chop3(d0, d1, d2, rest);
  }

  lemma EncodeChop4(cp: nat, rest: Bytes)
    requires 0xFFFF < cp <= MAX_CODEPOINT
    ensures ChopUtf8(Encode(cp).value + rest) == Decoded(cp, rest)
  {
    var d0, d1, d2, d3 := cp / 262144, (cp / 4096) % 64, (cp / 64) % 64, cp % 64;
    Digits4(cp);
    assert Encode(cp).value == [B(0xF0 + d0), B(0x80 + d1), B(0x80 + d2), B(0x80 + d3)];
    Chop4(d0, d1, d2, d3, rest);
  }

  /** ChopUtf8 on a two-byte form reads its two digits back. */
  lemma Chop2(d0: nat, d1: nat, rest: Bytes)
    requires 2 <= d0 < 32 && d1 < 64
    ensures ChopUtf8([B(0xC0 + d0), B(0x80 + d1)] + rest) == Decoded(d0 * 64 + d1, rest)
  {
    var s := [B(0xC0 + d0), B(0x80 + d1)] + rest;
    assert s[0] as int == 0xC0 + d0 && s[1] as int == 0x80 + d1;
    assert s[2..] == rest;
  }

  /** ChopUtf8 on a three-byte form reads its three digits back. */
  lemma Chop3(d0: nat, d1: nat, d2: nat, rest: Bytes)
    requires d0 < 16 && d1 < 64 && d2 < 64
    ensures ChopUtf8([B(0xE0 + d0), B(0x80 + d1), B(0x80 + d2)] + rest)
         == Decoded(d0 * 4096 + d1 * 64 + d2, rest)
  {
    var s := [B(0xE0 + d0), B(0x80 + d1), B(0x80 + d2)] + rest;
    assert s[0] as int == 0xE0 + d0 && s[1] as int == 0x80 + d1 && s[2] as int == 0x80 + d2;
    assert s[3..] == rest;
  }

  /** ChopUtf8 on a four-byte form reads its four digits back. */
  lemma Chop4(d0: nat, d1: nat, d2: nat, d3: nat, rest: Bytes)
    requires d0 < 8 && d1 < 64 && d2 < 64 && d3 < 64
    ensures ChopUtf8([B(0xF0 + d0), B(0x80 + d1), B(0x80 + d2), B(0x80 + d3)] + rest)
         == Decoded(d0 * 262144 + d1 * 4096 + d2 * 64 + d3, rest)
  {
    var s := [B(0xF0 + d0), B(0x80 + d1), B(0x80 + d2), B(0x80 + d3)] + rest;
    assert s[0] as int == 0xF0 + d0 && s[1] as int == 0x80 + d1;
    assert s[2] as int == 0x80 + d2 && s[3] as int == 0x80 + d3;
    assert s[4..] == rest;
  }

  /** A code point below 2^21 is its four base-64 digits. */
  lemma Digits4(cp: nat)
    requires cp <= MAX_CODEPOINT
    ensures cp / 262144 < 8
    ensures (cp / 262144) * 262144 + ((cp / 4096) % 64) * 4096 + ((cp / 64) % 64) * 64 + cp % 64 == cp
  {
    var q := cp / 4096;
    assert cp == q * 4096 + cp % 4096;
    assert q == (q / 64) * 64 + q % 64;
    assert q / 64 == cp / 262144;
    var r := cp % 4096;
    assert r == (r / 64) * 64 + r % 64;
    assert r / 64 == (cp / 64) % 64;
    assert r % 64 == cp % 64;
  }

  /** A code point below 2^16 is its base-4096 and two base-64 digits. */
  lemma Digits3(cp: nat)
    requires cp <= 0xFFFF
    ensures cp / 4096 < 16
    ensures (cp / 4096) * 4096 + ((cp / 64) % 64) * 64 + cp % 64 == cp
  {
    var r := cp % 4096;
    assert cp == (cp / 4096) * 4096 + r;
    assert r == (r / 64) * 64 + r % 64;
    assert r / 64 == (cp / 64) % 64;
    assert r % 64 == cp % 64;
  }

  /** Decoding what the encoder wrote gives the code point back and consumes
      exactly the encoded bytes. */
  lemma EncodeChop(cp: nat, rest: Bytes)
    requires cp <= MAX_CODEPOINT
    ensures ChopUtf8(Encode(cp).value + rest) == Decoded(cp, rest)
  {
    if cp <= 0x7F {
      assert (Encode(cp).value + rest)[1..] == rest;
    } else if cp <= 0x7FF {
      EncodeChop2(cp, rest);
    } else if cp <= 0xFFFF {
      EncodeChop3(cp, rest);
    } else {
      EncodeChop4(cp, rest);
    }
  }

  /** The code points the decoder reads from a view, one ChopUtf8 at a time. */
  function Decode(sv: Bytes): (cps: seq<int>)
    ensures |cps| <= |sv|
    decreases |sv|
  {
    if sv == [] then [] else [ChopUtf8(sv).cp] + Decode(ChopUtf8(sv).rest)
  }

  /** The concatenated encodings of a code point sequence. */
  function EncodeAll(cps: seq<nat>): (r: Bytes)
    requires forall i :: 0 <= i < |cps| ==> cps[i] <= MAX_CODEPOINT
  {
    if cps == [] then [] else Encode(cps[0]).value + EncodeAll(cps[1..])
  }

  /** Decode inverts EncodeAll. */
  lemma {:induction false} DecodeEncodeAll(cps: seq<nat>)
    requires forall i :: 0 <= i < |cps| ==> cps[i] <= MAX_CODEPOINT
    ensures Decode(EncodeAll(cps)) == cps
  {
    if cps != [] {
      var e := Encode(cps[0]).value;
      EncodeChop(cps[0], EncodeAll(cps[1..]));
      DecodeEncodeAll(cps[1..]);
      assert e + EncodeAll(cps[1..]) != [];
    }
  }

  /** `cbuild_sv_utf8len`: the number of ChopUtf8 steps to empty the view. */
  method Utf8Len(sv: Bytes) returns (n: nat)
    ensures n == |Decode(sv)|
  {
    n := 0;
    var rest := sv;
    while |rest| > 0
      invariant n + |Decode(rest)| == |Decode(sv)|
      decreases |rest|
    {
      rest := ChopUtf8(rest).rest;
      n := n + 1;
    }
  }

  /** The number of code points of an encoded sequence. */
  lemma Utf8LenEncodeAll(cps: seq<nat>)
    requires forall i :: 0 <= i < |cps| ==> cps[i] <= MAX_CODEPOINT
    ensures |Decode(EncodeAll(cps))| == |cps|
  {
    DecodeEncodeAll(cps);
  }

  /** `i` is where a code point starts (or the end) when the view is read
      one ChopUtf8 step at a time from the front. */
  predicate IsBoundary(sv: Bytes, i: nat)
    decreases |sv|
  {
    i == 0 || (sv != [] && i >= CpLen(sv) && IsBoundary(sv[CpLen(sv)..], i - CpLen(sv)))
  }

  /** From one boundary the next is one code point length on; nothing in
      between is a boundary. */
  lemma {:induction false} BoundaryStep(sv: Bytes, pos: nat)
    requires pos < |sv| && IsBoundary(sv, pos)
    ensures IsBoundary(sv, pos + CpLen(sv[pos..]))
    ensures forall q :: pos < q < pos + CpLen(sv[pos..]) ==> !IsBoundary(sv, q)
    decreases |sv|
  {
    var n := CpLen(sv);
    if pos == 0 {
      assert sv[pos..] == sv;
      assert IsBoundary(sv[n..], 0);
    } else {
      var t := sv[n..];
      assert sv[pos..] == t[pos - n..];
      BoundaryStep(t, pos - n);
      forall q | pos < q < pos + CpLen(sv[pos..]) ensures !IsBoundary(sv, q) {
        assert !IsBoundary(t, q - n);
      }
    }
  }

  /** `cbuild_sv_utf8chr`: the offset of the first code point, on the
      decoder's boundaries, that decodes to `c`; None for NULL. */
  method Utf8Chr(sv: Bytes, c: int) returns (r: Option<nat>)
    ensures r.Some? ==> r.value < |sv| && IsBoundary(sv, r.value) && ChopUtf8(sv[r.value..]).cp == c
    ensures r.Some? ==> forall q :: 0 <= q < r.value && IsBoundary(sv, q) ==> ChopUtf8(sv[q..]).cp != c
    ensures r.None? ==> forall q :: 0 <= q < |sv| && IsBoundary(sv, q) ==> ChopUtf8(sv[q..]).cp != c
  {
    var pos := 0;
    while pos < |sv|
      invariant pos <= |sv| && IsBoundary(sv, pos) && Misses(sv, c, pos)
      decreases |sv| - pos
    {
      if ChopUtf8(sv[pos..]).cp == c {
        return Some(pos);
      }
      MissesStep(sv, c, pos);
      pos := pos + CpLen(sv[pos..]);
    }
    r := None;
  }

  /** No code point before `pos`, on the decoder's boundaries, decodes to `c`. */
  predicate Misses(sv: Bytes, c: int, pos: nat) {
    forall q :: 0 <= q < pos && q <= |sv| && IsBoundary(sv, q) ==> ChopUtf8(sv[q..]).cp != c
  }

  /** A boundary whose code point is not `c` extends Misses to the next one. */
  lemma MissesStep(sv: Bytes, c: int, pos: nat)
    requires pos < |sv| && IsBoundary(sv, pos) && Misses(sv, c, pos) && ChopUtf8(sv[pos..]).cp != c
    ensures IsBoundary(sv, pos + CpLen(sv[pos..])) && Misses(sv, c, pos + CpLen(sv[pos..]))
  {
    BoundaryStep(sv, pos);
  }

  /** `cbuild_sv_chop_by_utf8`: the bytes before the first code point equal
      to `delim`; that code point is dropped. Without one, the whole view. */
  method ChopByUtf8(sv: Bytes, delim: int) returns (taken: Bytes, rest: Bytes)
    ensures |taken| <= |sv| && taken == sv[..|taken|]
    ensures |taken| < |sv| ==> (IsBoundary(sv, |taken|) && ChopUtf8(sv[|taken|..]).cp == delim
      && rest == sv[|taken| + CpLen(sv[|taken|..])..])
    ensures forall q :: 0 <= q < |taken| && IsBoundary(sv, q) ==> ChopUtf8(sv[q..]).cp != delim
    ensures |taken| == |sv| ==> rest == [] && forall q :: 0 <= q < |sv| && IsBoundary(sv, q) ==> ChopUtf8(sv[q..]).cp != delim
  {
    var at := Utf8Chr(sv, delim);
    if at.Some? {
      taken, rest := sv[..at.value], sv[at.value + CpLen(sv[at.value..])..];
    } else {
      taken, rest := sv, [];
    }
  }

  /** `cbuild_sv_chop_by_func_utf8`: walks code point by code point, asking
      `delim` about the view that starts there; at the first yes that code
      point is dropped and the bytes before it returned. */
  method ChopByFuncUtf8(sv: Bytes, delim: Bytes -> bool) returns (taken: Bytes, rest: Bytes)
    ensures |taken| <= |sv| && taken == sv[..|taken|]
    ensures |taken| < |sv| ==> (IsBoundary(sv, |taken|) && delim(sv[|taken|..])
      && rest == sv[|taken| + CpLen(sv[|taken|..])..])
    ensures forall q :: 0 <= q < |taken| && IsBoundary(sv, q) ==> !delim(sv[q..])
    ensures |taken| == |sv| ==> rest == []
  {
    var pos := 0;
    while pos < |sv|
      invariant pos <= |sv| && IsBoundary(sv, pos)
      invariant forall q :: 0 <= q < pos && IsBoundary(sv, q) ==> !delim(sv[q..])
      decreases |sv| - pos
    {
      var cplen := CpLen(sv[pos..]);
      if delim(sv[pos..]) {
        return sv[..pos], sv[pos + cplen..];
      }
      BoundaryStep(sv, pos);
      pos := pos + cplen;
    }
    taken, rest := sv, [];
  }

  predicate Tail(b: Byte) { 0x80 <= b as int <= 0xBF }

  /** One UTF8-char of section 4 of RFC 3629 as a whole byte string, except
      that the validator also refuses the byte 0x00 (its ASCII test is
      `signed char > 0`). */
  predicate Utf8Char(c: Bytes) {
    (|c| == 1 && 0x01 <= c[0] as int <= 0x7F)
    || (|c| == 2 && 0xC2 <= c[0] as int <= 0xDF && Tail(c[1]))
    || (|c| == 3 && c[0] as int == 0xE0 && 0xA0 <= c[1] as int <= 0xBF && Tail(c[2]))
    || (|c| == 3 && 0xE1 <= c[0] as int <= 0xEC && Tail(c[1]) && Tail(c[2]))
    || (|c| == 3 && c[0] as int == 0xED && 0x80 <= c[1] as int <= 0x9F && Tail(c[2]))
    || (|c| == 3 && 0xEE <= c[0] as int <= 0xEF && Tail(c[1]) && Tail(c[2]))
    || (|c| == 4 && c[0] as int == 0xF0 && 0x90 <= c[1] as int <= 0xBF && Tail(c[2]) && Tail(c[3]))
    || (|c| == 4 && 0xF1 <= c[0] as int <= 0xF3 && Tail(c[1]) && Tail(c[2]) && Tail(c[3]))
    || (|c| == 4 && c[0] as int == 0xF4 && 0x80 <= c[1] as int <= 0x8F && Tail(c[2]) && Tail(c[3]))
  }

  /** The length of the UTF8-char a lead byte opens, 0 for a byte that
      opens none (NUL, a tail byte, C0, C1, F5..FF). */
  function LeadLen(b: Byte): nat {
    if 0x01 <= b as int <= 0x7F then 1
    else if 0xC2 <= b as int <= 0xDF then 2
    else if 0xE0 <= b as int <= 0xEF then 3
    else if 0xF0 <= b as int <= 0xF4 then 4
    else 0
  }

  /** The lead byte decides a UTF8-char's length. */
  lemma CharLength(c: Bytes)
    requires Utf8Char(c)
    ensures |c| == LeadLen(c[0])
  {
  }

  /** `s` begins with a UTF8-char. */
  predicate StartsWithChar(s: Bytes) {
    |s| > 0 && 1 <= LeadLen(s[0]) <= |s| && Utf8Char(s[..LeadLen(s[0])])
  }

  /** StartsWithChar is the grammar's "some prefix is a UTF8-char". */
  lemma StartsWithCharIff(s: Bytes)
    ensures StartsWithChar(s) <==> exists k :: 1 <= k <= |s| && Utf8Char(s[..k])
  {
    if k :| 1 <= k <= |s| && Utf8Char(s[..k]) {
      CharLength(s[..k]);
    }
  }

  /** A sequence of UTF8-char, the RFC's UTF8-octets (without 0x00); since
      the lead byte fixes the length, the split is unique. */
  predicate Utf8Text(s: Bytes)
    decreases |s|
  {
    s == [] || (StartsWithChar(s) && Utf8Text(s[LeadLen(s[0])..]))
  }

  /** The number of UTF8-chars of a valid text. */
  function CharCount(s: Bytes): nat
    requires Utf8Text(s)
    decreases |s|
  {
    if s == [] then 0 else 1 + CharCount(s[LeadLen(s[0])..])
  }

  /** Appending one UTF8-char to a text gives a text with one more char. */
  lemma {:induction false} TextSnoc(a: Bytes, c: Bytes)
    requires Utf8Text(a) && Utf8Char(c)
    ensures Utf8Text(a + c) && CharCount(a + c) == CharCount(a) + 1
    decreases |a|
  {
    CharLength(c);
    var s := a + c;
    if a == [] {
      assert s == c && s[..|c|] == c && s[|c|..] == [];
    } else {
      var k := LeadLen(a[0]);
      TextSnoc(a[k..], c);
      assert s[0] == a[0] && s[..k] == a[..k] && s[k..] == a[k..] + c;
    }
  }

  /** A text followed by bytes that start no UTF8-char is not a text. */
  lemma {:induction false} TextStuck(s: Bytes, p: nat)
    requires p < |s| && Utf8Text(s[..p]) && !StartsWithChar(s[p..])
    ensures !Utf8Text(s)
    decreases p
  {
    if p == 0 {
      assert s[p..] == s;
    } else {
      var a := s[..p];
      var k := LeadLen(a[0]);
      var t := s[k..];
      assert a[0] == s[0] && a[..k] == s[..k] && a[k..] == t[..p - k] && s[p..] == t[p - k..];
      TextStuck(t, p - k);
    }
  }

  /** What `cbuild_sv_utf8valid` reports. */
  datatype Validity = Valid | Invalid(idx: nat)

  /** The byte-range table of the validator's branches: how many tail bytes
      a lead byte takes and the range of the first of them; 0 tails marks a
      byte that starts nothing (a lone tail, C0, C1 or F5..FF). */
  function LeadInfo(c: Byte): (nat, int, int) {
    if 0xC2 <= c as int <= 0xDF then (1, 0x80, 0xBF)
    else if c as int == 0xE0 then (2, 0xA0, 0xBF)
    else if 0xE1 <= c as int <= 0xEC then (2, 0x80, 0xBF)
    else if c as int == 0xED then (2, 0x80, 0x9F)
    else if 0xEE <= c as int <= 0xEF then (2, 0x80, 0xBF)
    else if c as int == 0xF0 then (3, 0x90, 0xBF)
    else if 0xF1 <= c as int <= 0xF3 then (3, 0x80, 0xBF)
    else if c as int == 0xF4 then (3, 0x80, 0x8F)
    else (0, 0, 0)
  }

  /** The bytes after a non-ASCII lead byte pass the validator's checks. */
  predicate TailsOk(sv: Bytes, pos: nat)
    requires pos < |sv|
  {
    var (need, lo, hi) := LeadInfo(sv[pos]);
    need > 0 && pos + need < |sv| && lo <= sv[pos + 1] as int <= hi
    && forall q :: pos + 2 <= q <= pos + need ==> Tail(sv[q])
  }

  /** `cbuild_sv_utf8valid`: Valid exactly for UTF-8 text without NUL bytes;
      otherwise the 1-based number of the code point where decoding failed
      (the one examined when the error was found), as stored in `*idx`. */
  method Utf8Valid(sv: Bytes) returns (r: Validity)
    ensures r == Valid <==> Utf8Text(sv)
    ensures r.Invalid? ==> exists p :: (0 <= p < |sv| && Utf8Text(sv[..p])
      && !StartsWithChar(sv[p..]) && r.idx == CharCount(sv[..p]) + 1)
  {
    var pos, ret := 0, 0;
    while pos < |sv|
      invariant pos <= |sv| && Utf8Text(sv[..pos]) && ret == CharCount(sv[..pos])
    {
      var c := sv[pos];
      ret := ret + 1;
      if 0x01 <= c as int <= 0x7F {
        assert Utf8Char(sv[pos..pos + 1]);
        Advance(sv, pos, 1);
        pos := pos + 1;
      } else {
        var (need, lo, hi) := LeadInfo(c);
        var ok := need > 0 && pos + need < |sv| && lo <= sv[pos + 1] as int <= hi;
        var j := 2;
        while ok && j <= need
          invariant 2 <= j
          invariant ok ==> need > 0 && pos + need < |sv| && lo <= sv[pos + 1] as int <= hi
          invariant !ok ==> !TailsOk(sv, pos)
          invariant ok ==> forall q :: pos + 2 <= q < pos + j && q <= pos + need ==> Tail(sv[q])
        {
          ok := Tail(sv[pos + j]);
          j := j + 1;
        }
        if !ok {
          assert !TailsOk(sv, pos);
          NoLead(sv, pos);
          TextStuck(sv, pos);
          return Invalid(ret);
        }
        assert TailsOk(sv, pos);
        Lead(sv, pos);
        Advance(sv, pos, need + 1);
        pos := pos + need + 1;
      }
    }
    assert sv[..pos] == sv;
    r := Valid;
  }

  /** The loop step: one more UTF8-char read. */
  lemma Advance(sv: Bytes, pos: nat, k: nat)
    requires pos + k <= |sv| && Utf8Text(sv[..pos]) && Utf8Char(sv[pos..pos + k])
    ensures Utf8Text(sv[..pos + k]) && CharCount(sv[..pos + k]) == CharCount(sv[..pos]) + 1
  {
    assert sv[..pos + k] == sv[..pos] + sv[pos..pos + k];
    TextSnoc(sv[..pos], sv[pos..pos + k]);
  }

  /** Passing checks after a non-ASCII lead byte mean a UTF8-char. */
  lemma Lead(sv: Bytes, pos: nat)
    requires pos < |sv| && !(0x01 <= sv[pos] as int <= 0x7F) && TailsOk(sv, pos)
    ensures pos + LeadInfo(sv[pos]).0 + 1 <= |sv|
    ensures Utf8Char(sv[pos..pos + LeadInfo(sv[pos]).0 + 1])
  {
    var (need, lo, hi) := LeadInfo(sv[pos]);
    var c := sv[pos..pos + need + 1];
    assert forall m :: 0 <= m <= need ==> c[m] == sv[pos + m];
    assert Tail(c[need]) by { if need >= 2 { assert Tail(sv[pos + need]); } }
    if need == 3 { assert Tail(sv[pos + 2]); }
  }

  /** Failing checks after a non-ASCII lead byte mean no UTF8-char starts. */
  lemma NoLead(sv: Bytes, pos: nat)
    requires pos < |sv| && !(0x01 <= sv[pos] as int <= 0x7F) && !TailsOk(sv, pos)
    ensures !StartsWithChar(sv[pos..])
  {
    var t := sv[pos..];
    if StartsWithChar(t) {
      var k := LeadLen(t[0]);
      var c := t[..k];
      assert forall m :: 0 <= m < k ==> c[m] == sv[pos + m];
      assert LeadInfo(sv[pos]).0 == k - 1;
      assert TailsOk(sv, pos);
    }
  }

  /** The encoder writes one UTF8-char for every code point but 0 and the
      surrogates D800..DFFF, which the validator refuses. */
  lemma EncodeIsChar(cp: nat)
    requires cp <= MAX_CODEPOINT
    ensures Utf8Char(Encode(cp).value) <==> cp != 0 && !(0xD800 <= cp <= 0xDFFF)
  {
    if 0x80 <= cp <= 0x7FF {
      IsChar2(cp);
    } else if 0x800 <= cp <= 0xFFFF {
      IsChar3(cp);
    } else if cp > 0xFFFF {
      IsChar4(cp);
    }
  }

  lemma IsChar2(cp: nat)
    requires 0x80 <= cp <= 0x7FF
    ensures Utf8Char(Encode(cp).value)
  {
    var e := Encode(cp).value;
    assert e[0] as int == 0xC0 + cp / 64;
  }

  lemma IsChar3(cp: nat)
    requires 0x800 <= cp <= 0xFFFF
    ensures Utf8Char(Encode(cp).value) <==> !(0xD800 <= cp <= 0xDFFF)
  {
    var e := Encode(cp).value;
    assert e[0] as int == 0xE0 + cp / 4096;
    assert e[1] as int == 0x80 + (cp / 64) % 64;
  }

  lemma IsChar4(cp: nat)
    requires 0xFFFF < cp <= MAX_CODEPOINT
    ensures Utf8Char(Encode(cp).value)
  {
    var e := Encode(cp).value;
    assert e[0] as int == 0xF0 + cp / 262144;
    assert e[1] as int == 0x80 + (cp / 4096) % 64;
  }
}
