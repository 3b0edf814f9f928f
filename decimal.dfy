/**
 * Decimal numerals as the Java platform reads and writes them:
 * `Integer.valueOf` / `Long.valueOf` (an optional sign, then one or more
 * ASCII digits, range-checked against the type's width) and
 * `Integer.toString` / `Long.toString`.
 */
module Decimal {
  import opened Wrappers

  const IntMin: int := -0x8000_0000
  const IntMax: int := 0x7fff_ffff
  const LongMin: int := -0x8000_0000_0000_0000
  const LongMax: int := 0x7fff_ffff_ffff_ffff

  /** Java's `int`. */
  newtype Int32 = x: int | -0x8000_0000 <= x <= 0x7fff_ffff

  predicate IsDigit(c: char) {
    '0' <= c <= '9'
  }

  predicate AllDigits(s: string) {
    forall i | 0 <= i < |s| :: IsDigit(s[i])
  }

  function DigitChar(d: nat): (c: char)
    requires d < 10
    ensures IsDigit(c) && c as int - '0' as int == d
  {
    ('0' as int + d) as char
  }

  function Pow10(n: nat): (p: nat)
    ensures p >= 1
  {
    if n == 0 then 1 else 10 * Pow10(n - 1)
  }

  /** The value of a string of digits, most significant digit first. */
  function DigitsValue(s: string): nat
    requires AllDigits(s)
  {
    if s == [] then 0 else DigitsValue(s[..|s| - 1]) * 10 + (s[|s| - 1] as int - '0' as int)
  }

  /** The shortest digit string of `n` (no leading zero). */
  function NatDigits(n: nat): (s: string)
    ensures |s| > 0 && AllDigits(s)
    decreases n
  {
    if n < 10 then [DigitChar(n)] else NatDigits(n / 10) + [DigitChar(n % 10)]
  }

  /** `Integer.toString` and `Long.toString`: a minus sign for negatives, then the digits. */
  function ToString(n: int): string {
    if n < 0 then "-" + NatDigits(-n) else NatDigits(n)
  }

  /** The syntax `Long.parseLong` accepts, without its range check. */
  function ParseDecimal(s: string): Option<int> {
    if |s| > 0 && (s[0] == '-' || s[0] == '+') then
      var digits := s[1..];
      if |digits| > 0 && AllDigits(digits) then
        var magnitude: int := DigitsValue(digits);
        Some(if s[0] == '-' then -magnitude else magnitude)
      else None
    else if |s| > 0 && AllDigits(s) then Some(DigitsValue(s))
    else None
  }

  /** `Integer.valueOf`: a numeral whose value fits in 32 bits, or nothing. */
  function ParseInt(s: string): Option<int> {
    match ParseDecimal(s)
    case Some(v) => if IntMin <= v <= IntMax then Some(v) else None
    case None => None
  }

  /** `Long.valueOf`: a numeral whose value fits in 64 bits, or nothing. */
  function ParseLong(s: string): Option<int> {
    match ParseDecimal(s)
    case Some(v) => if LongMin <= v <= LongMax then Some(v) else None
    case None => None
  }

  function Abs(n: int): nat {
    if n < 0 then -n else n
  }

  /** `k` zero digits. */
  function Zeros(k: nat): (z: string)
    ensures |z| == k && AllDigits(z)
  {
    seq(k, i => '0')
  }

  /**
   * The spellings of `n` that Java's parsers accept: an optional sign
   * (`+` only for a non-negative, `-` only for a non-positive value), any
   * number of leading zeros, then the shortest digits of `|n|`.
   */
  ghost predicate Numeral(s: string, n: int) {
    exists k: nat ::
      || (n >= 0 && s == Zeros(k) + NatDigits(Abs(n)))
      || (n >= 0 && s == "+" + Zeros(k) + NatDigits(Abs(n)))
      || (n <= 0 && s == "-" + Zeros(k) + NatDigits(Abs(n)))
  }

  lemma {:induction false} NatDigitsValue(n: nat)
    ensures DigitsValue(NatDigits(n)) == n
  {
    if n >= 10 {
      NatDigitsValue(n / 10);
      var s := NatDigits(n / 10) + [DigitChar(n % 10)];
      assert s[..|s| - 1] == NatDigits(n / 10);
    }
  }

  /** Reading back what `ToString` wrote gives the number again. */
  lemma ParseToString(n: int)
    ensures ParseDecimal(ToString(n)) == Some(n)
  {
    if n < 0 {
      NatDigitsValue(-n);
      assert ToString(n)[1..] == NatDigits(-n);
    } else {
      NatDigitsValue(n);
      assert NatDigits(n)[0] != '-' && NatDigits(n)[0] != '+';
    }
  }

  lemma ParseIntToString(n: int)
    requires IntMin <= n <= IntMax
    ensures ParseInt(ToString(n)) == Some(n)
  {
    ParseToString(n);
  }

  lemma ParseLongToString(n: int)
    requires LongMin <= n <= LongMax
    ensures ParseLong(ToString(n)) == Some(n)
  {
    ParseToString(n);
  }

  /** A digit string without a leading zero is at least ten to its length less one. */
  lemma {:induction false} DigitsValueAtLeast(s: string)
    requires |s| > 0 && AllDigits(s) && s[0] != '0'
    ensures DigitsValue(s) >= Pow10(|s| - 1)
  {
    if |s| > 1 {
      var init := s[..|s| - 1];
      assert init[0] == s[0];
      DigitsValueAtLeast(init);
      assert DigitsValue(s) >= DigitsValue(init) * 10;
    }
  }

  /**
   * An unsigned numeral of twenty or more digits without a leading zero
   * does not fit in a Java `long`, so `Long.valueOf` rejects it rather
   * than wrapping it.
   */
  lemma LongRejectsTwentyDigits(s: string)
    requires |s| >= 20 && AllDigits(s) && s[0] != '0'
    ensures ParseLong(s) == None
  {
    DigitsValueAtLeast(s);
    Pow10Monotone(19, |s| - 1);
    Pow10Nineteen();
    assert s[0] != '-' && s[0] != '+';
    assert ParseDecimal(s) == Some(DigitsValue(s));
  }

  lemma Pow10Nineteen()
    ensures Pow10(19) == 10_000_000_000_000_000_000
  {
    assert Pow10(4) == 10_000;
    assert Pow10(8) == 100_000_000;
    assert Pow10(12) == 1_000_000_000_000;
    assert Pow10(16) == 10_000_000_000_000_000;
  }

  lemma {:induction false} Pow10Monotone(m: nat, n: nat)
    requires m <= n
    ensures Pow10(m) <= Pow10(n)
  {
    if m < n {
      Pow10Monotone(m, n - 1);
    }
  }
  /** Leading zeros do not change the value of a digit string. */
  lemma {:induction false} ZerosValue(k: nat, t: string)
    requires AllDigits(t)
    ensures DigitsValue(Zeros(k) + t) == DigitsValue(t)
    decreases |t|, k
  {
    if t == [] {
      assert Zeros(k) + t == Zeros(k);
      if k > 0 {
        assert Zeros(k)[..k - 1] == Zeros(k - 1) + [];
        ZerosValue(k - 1, []);
      }
    } else {
      var init := t[..|t| - 1];
      assert (Zeros(k) + t)[..|Zeros(k) + t| - 1] == Zeros(k) + init;
      ZerosValue(k, init);
    }
  }

  /** Appending a digit to a positive number appends its character. */
  lemma NatDigitsSnoc(v: nat, d: nat)
    requires v > 0 && d < 10
    ensures NatDigits(v * 10 + d) == NatDigits(v) + [DigitChar(d)]
  {
    var n := v * 10 + d;
    assert n / 10 == v && n % 10 == d;
  }

  lemma DigitCharOf(c: char)
    requires IsDigit(c)
    ensures DigitChar(c as int - '0' as int) == c
  {
  }

  /** Every non-empty digit string is some leading zeros, then the shortest digits of its value. */
  lemma {:induction false} DigitsForm(d: string) returns (k: nat)
    requires |d| > 0 && AllDigits(d)
    ensures d == Zeros(k) + NatDigits(DigitsValue(d))
  {
    var last := d[|d| - 1];
    var c := last as int - '0' as int;
    DigitCharOf(last);
    if |d| == 1 {
      k := 0;
      assert d == [last];
    } else {
      var init := d[..|d| - 1];
      var j := DigitsForm(init);
      var v := DigitsValue(init);
      assert d == init + [last];
      if v == 0 {
        k := j + 1;
        assert Zeros(j) + ['0'] == Zeros(k);
        assert DigitsValue(d) == c;
      } else {
        k := j;
        NatDigitsSnoc(v, c);
      }
    }
  }

  /** What `ParseDecimal` accepts is a spelling of its value. */
  lemma ParsedIsNumeral(s: string, n: int)
    requires ParseDecimal(s) == Some(n)
    ensures Numeral(s, n)
  {
    if s[0] == '-' || s[0] == '+' {
      var k := DigitsForm(s[1..]);
      assert s == [s[0]] + (Zeros(k) + NatDigits(DigitsValue(s[1..])));
      if s[0] == '-' {
        assert s == "-" + Zeros(k) + NatDigits(Abs(n));
      } else {
        assert s == "+" + Zeros(k) + NatDigits(Abs(n));
      }
    } else {
      var k := DigitsForm(s);
      assert s == Zeros(k) + NatDigits(Abs(n));
    }
  }

  /** An unsigned spelling, leading zeros and all, reads back as its value. */
  lemma UnsignedNumeralParses(k: nat, m: nat)
    ensures ParseDecimal(Zeros(k) + NatDigits(m)) == Some(m)
  {
    var digits := Zeros(k) + NatDigits(m);
    ZerosValue(k, NatDigits(m));
    NatDigitsValue(m);
    assert IsDigit(digits[0]);
  }

  /** A signed spelling reads back as its value. */
  lemma SignedNumeralParses(sign: char, k: nat, m: nat)
    requires sign == '-' || sign == '+'
    ensures ParseDecimal([sign] + Zeros(k) + NatDigits(m)) == Some(if sign == '-' then -(m as int) else m)
  {
    var digits := Zeros(k) + NatDigits(m);
    ZerosValue(k, NatDigits(m));
    NatDigitsValue(m);
    assert ([sign] + Zeros(k) + NatDigits(m))[1..] == digits;
  }

  /**
   * `ParseDecimal` succeeds exactly on the spellings of its result: it
   * accepts `"+5"`, `"007"` and `"-0"`, and nothing that is not a numeral.
   */
  lemma ParseDecimalNumeral(s: string, n: int)
    ensures ParseDecimal(s) == Some(n) <==> Numeral(s, n)
  {
    if ParseDecimal(s) == Some(n) {
      ParsedIsNumeral(s, n);
    }
    if Numeral(s, n) {
      var k: nat :|
        || (n >= 0 && s == Zeros(k) + NatDigits(Abs(n)))
        || (n >= 0 && s == "+" + Zeros(k) + NatDigits(Abs(n)))
        || (n <= 0 && s == "-" + Zeros(k) + NatDigits(Abs(n)));
      if n >= 0 && s == Zeros(k) + NatDigits(Abs(n)) {
        UnsignedNumeralParses(k, Abs(n));
      } else if n >= 0 && s == "+" + Zeros(k) + NatDigits(Abs(n)) {
        SignedNumeralParses('+', k, Abs(n));
      } else {
        SignedNumeralParses('-', k, Abs(n));
      }
    }
  }

  /** `Integer.valueOf` gives `n` exactly for the spellings of a 32-bit `n`. */
  lemma ParseIntNumeral(s: string, n: int)
    ensures ParseInt(s) == Some(n) <==> Numeral(s, n) && IntMin <= n <= IntMax
  {
    ParseDecimalNumeral(s, n);
  }

  /** `Long.valueOf` gives `n` exactly for the spellings of a 64-bit `n`. */
  lemma ParseLongNumeral(s: string, n: int)
    ensures ParseLong(s) == Some(n) <==> Numeral(s, n) && LongMin <= n <= LongMax
  {
    ParseDecimalNumeral(s, n);
  }
}
