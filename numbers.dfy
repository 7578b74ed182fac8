/** Decimal numerals: `std::to_string` for non-negative integers and the C
    library's `atoi`, both on bytes. */
module Numbers {
  import opened Bytes

  predicate IsDigit(c: Byte) {
    '0' <= c <= '9'
  }

  function DigitValue(c: Byte): (d: nat)
    requires IsDigit(c)
    ensures d < 10
  {
    c as int - '0' as int
  }

  function DigitChar(d: nat): (c: Byte)
    requires d < 10
    ensures IsDigit(c) && DigitValue(c) == d
  {
    ('0' as int + d) as char
  }

  predicate AllDigits(s: Bytes) {
    forall i :: 0 <= i < |s| ==> IsDigit(s[i])
  }

  /** The value of a string of digits, most significant first. */
  function DigitsValue(s: Bytes): nat
    requires AllDigits(s)
  {
    if s == [] then 0 else DigitsValue(s[..|s| - 1]) * 10 + DigitValue(s[|s| - 1])
  }

  /** `std::to_string(n)`: the shortest decimal numeral of `n`. */
  function Decimal(n: nat): (s: Bytes)
    ensures s != [] && AllDigits(s)
    ensures |s| > 1 ==> s[0] != '0'
  {
    if n < 10 then [DigitChar(n)] else Decimal(n / 10) + [DigitChar(n % 10)]
  }

  /** Reading a numeral back gives the number. */
  lemma {:induction false} DecimalValue(n: nat)
    ensures DigitsValue(Decimal(n)) == n
  {
    if n >= 10 {
      var s := Decimal(n);
      assert s[..|s| - 1] == Decimal(n / 10);
      DecimalValue(n / 10);
    }
  }

  /** Different numbers have different numerals. */
  lemma DecimalInjective(m: nat, n: nat)
    requires Decimal(m) == Decimal(n)
    ensures m == n
  {
    DecimalValue(m);
    DecimalValue(n);
  }

  /** The length of the run of digits at the front of `s`. */
  function DigitRun(s: Bytes): (k: nat)
    ensures k <= |s| && AllDigits(s[..k])
    ensures k < |s| ==> !IsDigit(s[k])
  {
    if s == [] || !IsDigit(s[0]) then 0
    else
      var k := 1 + DigitRun(s[1..]);
      assert forall i :: 1 <= i < k ==> s[..k][i] == s[1..][..k - 1][i - 1];
      k
  }

  /** C `isspace` in the "C" locale. */
  function SpaceRun(s: Bytes): (k: nat)
    ensures k <= |s|
    ensures forall i :: 0 <= i < k ==> IsSpace(s[i])
    ensures k < |s| ==> !IsSpace(s[k])
  {
    if s == [] || !IsSpace(s[0]) then 0 else 1 + SpaceRun(s[1..])
  }

  /** `atoi`: leading white space, an optional sign, then the longest run
      of digits; 0 when there are none. Overflow (undefined in C) is not
      modelled: the value is the mathematical one. */
  function Atoi(s: Bytes): int
  {
    var t := s[SpaceRun(s)..];
    if t != [] && (t[0] == '-' || t[0] == '+') then
      var u := t[1..];
      var v: int := DigitsValue(u[..DigitRun(u)]);
      if t[0] == '-' then -v else v
    else DigitsValue(t[..DigitRun(t)])
  }

  /** A numeral followed by a non-digit reads back as its number. */
  lemma AtoiDecimal(n: nat, rest: Bytes)
    requires rest == [] || !IsDigit(rest[0])
    ensures Atoi(Decimal(n) + rest) == n
  {
    var s := Decimal(n) + rest;
    var d := Decimal(n);
    assert s[0] == d[0];
    assert SpaceRun(s) == 0;
    assert s[..|d|] == d;
    DigitRunOf(s, d, rest);
    DecimalValue(n);
  }

  lemma {:induction false} DigitRunOf(s: Bytes, d: Bytes, rest: Bytes)
    requires AllDigits(d) && (rest == [] || !IsDigit(rest[0])) && s == d + rest
    ensures DigitRun(s) == |d|
    decreases |d|
  {
    if d != [] {
      assert s[1..] == d[1..] + rest;
      DigitRunOf(s[1..], d[1..], rest);
    }
  }
}
