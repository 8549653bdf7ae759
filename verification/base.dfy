/** Helpers standing in for the parts of Go and its standard library the
    compiler relies on: 64-bit `int` arithmetic with truncating division,
    `unicode.IsLetter`/`IsNumber`, and `strconv.Itoa`/`Atoi`. */
module Base {

  datatype Option<+T> = None | Some(value: T)

  const MaxInt64: int := 0x7FFF_FFFF_FFFF_FFFF
  const MinInt64: int := -0x8000_0000_0000_0000
  const TwoTo64: int := 0x1_0000_0000_0000_0000

  predicate InInt64(x: int) {
    MinInt64 <= x <= MaxInt64
  }

  /** Go's `int` is 64 bits wide: an overflowing sum, difference or
      product wraps around into the signed range. */
  function Wrap64(x: int): (r: int)
    ensures InInt64(r)
    ensures (r - x) % TwoTo64 == 0
    ensures InInt64(x) ==> r == x
  {
    (x - MinInt64) % TwoTo64 + MinInt64
  }

  function Abs(x: int): nat {
    if x < 0 then -x else x
  }

  /** Go's `/` on integers: the quotient is truncated toward zero. */
  function TruncDiv(a: int, b: int): (q: int)
    requires b != 0
    ensures Abs(q) == Abs(a) / Abs(b)
    ensures (a < 0) == (b < 0) ==> q >= 0
    ensures (a < 0) != (b < 0) ==> q <= 0
  {
    var n: int := NatDiv(Abs(a), Abs(b));
    if (a < 0) == (b < 0) then n else -n
  }

  function NatDiv(x: nat, y: nat): nat
    requires y > 0
  {
    x / y
  }

  /** Go's `%` on integers: the remainder left by TruncDiv, which takes
      the sign of the dividend. */
  function TruncMod(a: int, b: int): (r: int)
    requires b != 0
  {
    a - b * TruncDiv(a, b)
  }

  /** The remainder is smaller than the divisor in magnitude and is never
      of the opposite sign to the dividend (unlike Dafny's `%`). */
  lemma TruncModBounds(a: int, b: int)
    requires b != 0
    ensures Abs(TruncMod(a, b)) < Abs(b)
    ensures a >= 0 ==> TruncMod(a, b) >= 0
    ensures a <= 0 ==> TruncMod(a, b) <= 0
  {
    var q := Abs(a) / Abs(b);
    var m := Abs(a) % Abs(b);
    assert Abs(a) == Abs(b) * q + m;
    if (a < 0) == (b < 0) {
      assert TruncDiv(a, b) == q;
      if a >= 0 {
        assert b * q == Abs(b) * q;
        assert TruncMod(a, b) == m;
      } else {
        assert b * q == -(Abs(b) * q);
        assert TruncMod(a, b) == -m;
      }
    } else {
      assert TruncDiv(a, b) == -q;
      if a >= 0 {
        assert b * -q == Abs(b) * q;
        assert TruncMod(a, b) == m;
      } else {
        assert b * -q == -(Abs(b) * q);
        assert TruncMod(a, b) == -m;
      }
    }
  }

  /** On non-negative operands Go's and Dafny's division agree. */
  lemma TruncDivAgreesOnNaturals(a: int, b: int)
    requires a >= 0 && b > 0
    ensures TruncDiv(a, b) == a / b && TruncMod(a, b) == a % b
  {
  }

  // ----- characters -----

  /** ASCII stand-in for `unicode.IsLetter`. */
  predicate IsLetter(c: char) {
    ('a' <= c <= 'z') || ('A' <= c <= 'Z')
  }

  /** ASCII stand-in for `unicode.IsNumber`. */
  predicate IsDigit(c: char) {
    '0' <= c <= '9'
  }

  predicate AllDigits(s: string) {
    forall i :: 0 <= i < |s| ==> IsDigit(s[i])
  }

  function DigitValue(c: char): nat
    requires IsDigit(c)
  {
    (c as int) - ('0' as int)
  }

  function DigitChar(d: nat): (c: char)
    requires d < 10
    ensures IsDigit(c) && DigitValue(c) == d
  {
    ('0' as int + d) as char
  }

  /** The number a string of decimal digits denotes (most significant first). */
  function DecimalValue(s: string): nat
    requires AllDigits(s)
  {
    if |s| == 0 then 0 else DecimalValue(s[..|s| - 1]) * 10 + DigitValue(s[|s| - 1])
  }

  /** The decimal spelling of a natural number, without leading zeros. */
  function NatToString(n: nat): (s: string)
    ensures |s| > 0 && AllDigits(s)
    ensures DecimalValue(s) == n
    ensures |s| > 1 ==> s[0] != '0'
  {
    if n < 10 then [DigitChar(n)]
    else
      var p := NatToString(n / 10);
      var s := p + [DigitChar(n % 10)];
      assert s[..|s| - 1] == p;
      s
  }

  /** `strconv.Itoa`. */
  function Itoa(n: int): (s: string)
    ensures |s| > 0
    ensures n >= 0 ==> AllDigits(s) && DecimalValue(s) == n
    ensures n < 0 ==> s[0] == '-' && AllDigits(s[1..]) && DecimalValue(s[1..]) == -n
  {
    if n < 0 then "-" + NatToString(-n) else NatToString(n)
  }

  /** `strconv.Atoi` on 64-bit Go: an optional sign followed by decimal
      digits. The flag is false on a syntax error (value 0) and on an
      out-of-range value (clamped to the nearest bound), as in Go. */
  function Atoi(s: string): (r: (int, bool))
    ensures InInt64(r.0)
    ensures r.1 && |s| > 0 && AllDigits(s) ==> r.0 == DecimalValue(s)
    ensures |s| > 0 && AllDigits(s) && DecimalValue(s) > MaxInt64 ==> r == (MaxInt64, false)
    ensures |s| > 0 && AllDigits(s) && DecimalValue(s) <= MaxInt64 ==> r == (DecimalValue(s), true)
  {
    if |s| > 0 && (s[0] == '-' || s[0] == '+') then
      var digits := s[1..];
      if |digits| == 0 || !AllDigits(digits) then (0, false)
      else
        var d: int := DecimalValue(digits);
        var v: int := if s[0] == '-' then -d else d;
        if v > MaxInt64 then (MaxInt64, false)
        else if v < MinInt64 then (MinInt64, false)
        else (v, true)
    else if |s| == 0 || !AllDigits(s) then (0, false)
    else if DecimalValue(s) > MaxInt64 then (MaxInt64, false)
    else (DecimalValue(s), true)
  }

  /** Atoi reads back every 64-bit value Itoa writes. */
  lemma AtoiItoa(n: int)
    requires InInt64(n)
    ensures Atoi(Itoa(n)) == (n, true)
  {
    var s := Itoa(n);
    if n < 0 {
      assert s[1..] == NatToString(-n);
    } else {
      assert !IsDigit('-') && !IsDigit('+');
      assert IsDigit(s[0]);
    }
  }
}
