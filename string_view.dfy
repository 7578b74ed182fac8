/** String views of cbuild.h: a byte range that the chop and trim functions
    shrink from the front or the back. A view is modelled by the bytes it
    covers; a function that moves `sv` forward returns the new view. */
module StringView {
  import opened Bytes

  /** What a chop returns: the bytes taken off the front and the view left. */
  datatype Chopped = Chopped(taken: Bytes, rest: Bytes)

  function Min(a: nat, b: nat): nat { if a < b then a else b }

  /** `cbuild_sv_chop`: takes the first `n` bytes, or all of them when the
      view is shorter. */
  function Chop(sv: Bytes, n: nat): (r: Chopped)
    ensures r.taken + r.rest == sv
    ensures |r.taken| == Min(n, |sv|)
    ensures n >= |sv| ==> r.taken == sv && r.rest == []
  {
    var k := Min(n, |sv|);
    Chopped(sv[..k], sv[k..])
  }

  /** memchr: the index of the first `c`, or -1 (as `cbuild_sv_find`). */
  function Find(sv: Bytes, c: Byte): (r: int)
    ensures -1 <= r < |sv|
    ensures r == -1 <==> c !in sv
    ensures r >= 0 ==> sv[r] == c && c !in sv[..r]
  {
    if |sv| == 0 then -1
    else if sv[0] == c then 0
    else
      var k := Find(sv[1..], c);
      assert sv == [sv[0]] + sv[1..];
      if k == -1 then -1
      else
        assert sv[..k + 1] == [sv[0]] + sv[1..][..k];
        k + 1
  }

  /** memrchr: the index of the last `c`, or -1 (as `cbuild_sv_rfind`). */
  function RFind(sv: Bytes, c: Byte): (r: int)
    ensures -1 <= r < |sv|
    ensures r == -1 <==> c !in sv
    ensures r >= 0 ==> sv[r] == c && c !in sv[r + 1..]
  {
    if |sv| == 0 then -1
    else if sv[|sv| - 1] == c then |sv| - 1
    else
      var k := RFind(sv[..|sv| - 1], c);
      DropLast(sv, c, k + 1);
      if k == -1 then -1 else k
  }

  /** Without `c` in the last byte, `sv[i..]` holds `c` just when its part
      before that byte does. */
  lemma DropLast(sv: Bytes, c: Byte, i: nat)
    requires i < |sv| && sv[|sv| - 1] != c
    ensures c in sv[i..] <==> c in sv[..|sv| - 1][i..]
  {
    assert sv[i..] == sv[..|sv| - 1][i..] + [sv[|sv| - 1]];
  }

  /** A `c` at `i` with none after it is what `RFind` finds. */
  lemma RFindIsLast(s: Bytes, c: Byte, i: int)
    requires 0 <= i < |s| && s[i] == c
    requires forall m :: i < m < |s| ==> s[m] != c
    ensures RFind(s, c) == i
  {
    var tail := s[i + 1..];
    assert forall m :: 0 <= m < |tail| ==> tail[m] == s[i + 1 + m];
    assert c !in tail;
  }

  /** The `RFind` postcondition in index form. */
  lemma NoneAfter(s: Bytes, c: Byte, k: int)
    requires k == RFind(s, c)
    ensures forall m :: k < m < |s| ==> s[m] != c
  {
    if k >= 0 {
      NoneInTail(s, c, k + 1);
    } else {
      NoneInTail(s, c, 0);
    }
  }

  /** No `c` in `s[i..]` means no index from `i` on holds `c`. */
  lemma NoneInTail(s: Bytes, c: Byte, i: nat)
    requires i <= |s| && c !in s[i..]
    ensures forall m :: i <= m < |s| ==> s[m] != c
  {
    forall m | i <= m < |s| ensures s[m] != c {
      assert s[m] == s[i..][m - i];
    }
  }

  function Contains(sv: Bytes, c: Byte): (r: bool)
    ensures r <==> c in sv
  {
    Find(sv, c) != -1
  }

  /** `cbuild_sv_chop_by_delim`: the bytes before the first `delim`; the
      delimiter itself is dropped. Without a delimiter the whole view is
      taken. */
  function ChopByDelim(sv: Bytes, delim: Byte): (r: Chopped)
    ensures delim in sv ==> r.taken + [delim] + r.rest == sv && delim !in r.taken
    ensures delim !in sv ==> r.taken == sv && r.rest == []
  {
    var i := Find(sv, delim);
    if i >= 0 then
      assert sv == sv[..i] + [delim] + sv[i + 1..];
      Chopped(sv[..i], sv[i + 1..])
    else Chop(sv, |sv|)
  }

  /** `needle` occurs in `sv` starting at index `i`. */
  predicate OccursAt(sv: Bytes, needle: Bytes, i: nat) {
    i + |needle| <= |sv| && sv[i..i + |needle|] == needle
  }

  lemma OccursAtTail(sv: Bytes, needle: Bytes, i: nat)
    requires |sv| > 0
    ensures OccursAt(sv[1..], needle, i) <==> OccursAt(sv, needle, i + 1)
  {
    if i + |needle| <= |sv[1..]| {
      assert sv[1..][i..i + |needle|] == sv[i + 1..i + 1 + |needle|];
    }
  }

  /** memmem as `cbuild_sv_find_sv` uses it on glibc and the BSDs: the first
      occurrence of `needle`, an empty needle being found at 0, or -1. */
  function FindSv(sv: Bytes, needle: Bytes): (r: int)
    ensures -1 <= r <= |sv|
    ensures r == -1 <==> forall i: nat :: !OccursAt(sv, needle, i)
    ensures r >= 0 ==> OccursAt(sv, needle, r) && forall j: nat :: j < r ==> !OccursAt(sv, needle, j)
    decreases |sv|
  {
    if OccursAt(sv, needle, 0) then 0
    else if |sv| <= |needle| then
      assert forall i: nat :: !OccursAt(sv, needle, i);
      -1
    else
      var k := FindSv(sv[1..], needle);
      forall i: nat ensures OccursAt(sv[1..], needle, i) <==> OccursAt(sv, needle, i + 1) {
        OccursAtTail(sv, needle, i);
      }
      if k == -1 then
        assert forall i: nat :: !OccursAt(sv, needle, i) by {
          forall i: nat ensures !OccursAt(sv, needle, i) {
            if i > 0 { assert !OccursAt(sv[1..], needle, i - 1); }
          }
        }
        -1
      else
        assert forall j: nat :: j < k + 1 ==> !OccursAt(sv, needle, j) by {
          forall j: nat | j < k + 1 ensures !OccursAt(sv, needle, j) {
            if j > 0 { assert !OccursAt(sv[1..], needle, j - 1); }
          }
        }
        k + 1
  }

  function ContainsSv(sv: Bytes, needle: Bytes): (r: bool)
    ensures r <==> exists i: nat :: OccursAt(sv, needle, i)
  {
    FindSv(sv, needle) != -1
  }

  /** The first index where two equal-length, different strings differ. */
  function FirstDiff(a: Bytes, b: Bytes): (i: nat)
    requires |a| == |b| && a != b
    ensures i < |a| && a[..i] == b[..i] && a[i] != b[i]
  {
    if a[0] != b[0] then 0
    else
      assert a == [a[0]] + a[1..] && b == [b[0]] + b[1..];
      var k := FirstDiff(a[1..], b[1..]);
      assert a[..k + 1] == [a[0]] + a[1..][..k];
      assert b[..k + 1] == [b[0]] + b[1..][..k];
      k + 1
  }

  /** The sign of memcmp over equal lengths: bytes compare as unsigned char. */
  function MemCmp(a: Bytes, b: Bytes): (r: int)
    requires |a| == |b|
    ensures -1 <= r <= 1
    ensures r == 0 <==> a == b
    ensures a != b ==> (r < 0 <==> a[FirstDiff(a, b)] < b[FirstDiff(a, b)])
  {
    if |a| == 0 then 0
    else if a[0] < b[0] then -1
    else if a[0] > b[0] then 1
    else
      assert a == [a[0]] + a[1..] && b == [b[0]] + b[1..];
      MemCmp(a[1..], b[1..])
  }

  /** `cbuild_sv_cmp` (and `cbuild_sb_cmp`, which has the same body): the
      shorter operand is smaller with -2/2; equal sizes give the memcmp sign. */
  function Cmp(a: Bytes, b: Bytes): (r: int)
    ensures r == -2 <==> |a| < |b|
    ensures r == 2 <==> |a| > |b|
    ensures |a| == |b| ==> -1 <= r <= 1 && (r == 0 <==> a == b)
    ensures |a| == |b| && a != b ==> (r == -1 <==> a[FirstDiff(a, b)] < b[FirstDiff(a, b)])
  {
    if |a| < |b| then -2
    else if |a| > |b| then 2
    else MemCmp(a, b)
  }

  /** Swapping the operands of Cmp negates the result. */
  lemma {:induction false} FirstDiffSwap(a: Bytes, b: Bytes)
    requires |a| == |b| && a != b
    ensures FirstDiff(b, a) == FirstDiff(a, b)
  {
    if a[0] == b[0] {
      assert a == [a[0]] + a[1..] && b == [b[0]] + b[1..];
      FirstDiffSwap(a[1..], b[1..]);
    }
  }

  /** Swapping the operands of Cmp negates the result. */
  lemma CmpSwap(a: Bytes, b: Bytes)
    ensures Cmp(b, a) == -Cmp(a, b)
  {
    if |a| == |b| && a != b {
      FirstDiffSwap(a, b);
    }
  }

  /** 'A'..'Z' lowered by adding 32; every other byte unchanged. */
  function LowerAscii(c: Byte): Byte {
    if 'A' <= c <= 'Z' then (c as int + 32) as char else c
  }

  function Folded(s: Bytes): (r: Bytes)
    ensures |r| == |s| && forall i :: 0 <= i < |s| ==> r[i] == LowerAscii(s[i])
  {
    seq(|s|, i requires 0 <= i < |s| => LowerAscii(s[i]))
  }

  /** `cbuild_sv_cmp_icase`: like Cmp on the case-folded bytes, except that
      the first difference is the difference of two plain `char`s, which
      are signed: bytes from 0x80 up are below every ASCII byte. */
  method CmpIcase(a: Bytes, b: Bytes) returns (r: int)
    ensures r == -2 <==> |a| < |b|
    ensures r == 2 <==> |a| > |b|
    ensures |a| == |b| ==> -1 <= r <= 1 && (r == 0 <==> Folded(a) == Folded(b))
    ensures |a| == |b| && Folded(a) != Folded(b) ==>
      var i := FirstDiff(Folded(a), Folded(b));
      r == -1 <==> Signed(Folded(a)[i]) < Signed(Folded(b)[i])
  {
    if |a| < |b| { return -2; }
    if |a| > |b| { return 2; }
    var fa, fb := Folded(a), Folded(b);
    for i := 0 to |a|
      invariant fa[..i] == fb[..i]
    {
      var ac, bc := LowerAscii(a[i]), LowerAscii(b[i]);
      var diff := Signed(ac) - Signed(bc);
      if diff != 0 {
        assert fa != fb by { assert fa[i] != fb[i]; }
        assert fa[..i + 1] != fb[..i + 1];
        SharedPrefixFirstDiff(fa, fb, i);
        return if diff < 0 then -1 else 1;
      }
      assert fa[..i + 1] == fa[..i] + [fa[i]] && fb[..i + 1] == fb[..i] + [fb[i]];
    }
    assert fa == fa[..|a|] && fb == fb[..|a|];
    r := 0;
  }

  /** Two strings that agree below `i` and differ at `i` first differ at `i`. */
  lemma SharedPrefixFirstDiff(a: Bytes, b: Bytes, i: nat)
    requires |a| == |b| && i < |a| && a[..i] == b[..i] && a[i] != b[i]
    ensures a != b && FirstDiff(a, b) == i
  {
    assert a != b;
  }

  /** `cbuild_sv_prefix`: the view starts with `prefix`. */
  function Prefix(sv: Bytes, prefix: Bytes): (r: bool)
    ensures r <==> exists rest :: sv == prefix + rest
  {
    if |sv| < |prefix| then false
    else
      assert sv == sv[..|prefix|] + sv[|prefix|..];
      Cmp(sv[..|prefix|], prefix) == 0
  }

  /** `cbuild_sv_suffix`: the view ends with `suffix`. */
  function Suffix(sv: Bytes, suffix: Bytes): (r: bool)
    ensures r <==> exists front :: sv == front + suffix
  {
    if |sv| < |suffix| then false
    else
      assert sv == sv[..|sv| - |suffix|] + sv[|sv| - |suffix|..];
      Cmp(sv[|sv| - |suffix|..], suffix) == 0
  }

  /** `cbuild_sv_trim_left`: drops the leading white space and returns how
      many bytes went. */
  method TrimLeft(sv: Bytes) returns (n: nat, rest: Bytes)
    ensures n <= |sv| && rest == sv[n..]
    ensures forall k :: 0 <= k < n ==> IsSpace(sv[k])
    ensures n < |sv| ==> !IsSpace(sv[n])
  {
    var i := 0;
    while i < |sv| && IsSpace(sv[i])
      invariant i <= |sv|
      invariant forall k :: 0 <= k < i ==> IsSpace(sv[k])
    {
      i := i + 1;
    }
    n, rest := i, sv[i..];
  }

  /** `cbuild_sv_trim_right`: drops the trailing white space. */
  method TrimRight(sv: Bytes) returns (n: nat, rest: Bytes)
    ensures n <= |sv| && rest == sv[..|sv| - n]
    ensures forall k :: |sv| - n <= k < |sv| ==> IsSpace(sv[k])
    ensures n < |sv| ==> !IsSpace(sv[|sv| - n - 1])
  {
    var i := |sv|;
    while i > 0 && IsSpace(sv[i - 1])
      invariant 0 <= i <= |sv|
      invariant forall k :: i <= k < |sv| ==> IsSpace(sv[k])
    {
      i := i - 1;
    }
    n, rest := |sv| - i, sv[..i];
  }

  /** `rest` is `sv` from index `a` on, with only white space around it. */
  predicate TrimmedAt(sv: Bytes, rest: Bytes, a: nat) {
    a + |rest| <= |sv| && rest == sv[a..a + |rest|]
    && (forall k :: 0 <= k < a ==> IsSpace(sv[k]))
    && (forall k :: a + |rest| <= k < |sv| ==> IsSpace(sv[k]))
  }

  /** `cbuild_sv_trim`: both ends; the result is the number of bytes dropped. */
  method Trim(sv: Bytes) returns (n: nat, rest: Bytes)
    ensures n + |rest| == |sv|
    ensures exists a: nat :: TrimmedAt(sv, rest, a)
    ensures rest != [] ==> !IsSpace(rest[0]) && !IsSpace(rest[|rest| - 1])
  {
    var l, mid := TrimLeft(sv);
    var r, tail := TrimRight(mid);
    n, rest := l + r, tail;
    assert rest == sv[l..l + |rest|];
    assert forall k :: l + |rest| <= k < |sv| ==> IsSpace(sv[k]) by {
      forall k | l + |rest| <= k < |sv| ensures IsSpace(sv[k]) {
        assert sv[k] == mid[k - l];
      }
    }
    assert TrimmedAt(sv, rest, l);
  }

  /** `cbuild_sv_chop_by_func`: scans indices 0..|sv| for the first one the
      delimiter function accepts. Before the end the view is split there and
      the delimiter byte dropped; otherwise the whole view is taken. The
      function sees the view and the index, as the C callback does. */
  method ChopByFunc(sv: Bytes, delim: (Bytes, nat) -> bool) returns (r: Chopped)
    ensures (exists i :: 0 <= i < |sv| && delim(sv, i)) ==>
      var i := |r.taken|;
      i < |sv| && r.taken == sv[..i] && r.rest == sv[i + 1..] && delim(sv, i)
      && forall j :: 0 <= j < i ==> !delim(sv, j)
    ensures (forall i :: 0 <= i < |sv| ==> !delim(sv, i)) ==> r.taken == sv && r.rest == []
  {
    var i := 0;
    while i <= |sv| && !delim(sv, i)
      invariant i <= |sv| + 1
      invariant forall j :: 0 <= j < i ==> !delim(sv, j)
    {
      i := i + 1;
    }
    if i >= |sv| {
      r := Chop(sv, i);
    } else {
      r := Chopped(sv[..i], sv[i + 1..]);
    }
  }
}
