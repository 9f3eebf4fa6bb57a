// Numerals: the strict u32 and decimal spellings of the request grammar, with
// exact decimals in place of binary floats.
module Decimals {
  import opened Wrappers
  import opened Text

  const U32_MAX: nat := 0xFFFF_FFFF

  type U32 = n: nat | n <= U32_MAX

  predicate IsDigit(c: char) {
    '0' <= c <= '9'
  }

  predicate AllDigits(s: string) {
    forall c :: c in s ==> IsDigit(c)
  }

  function DigitChar(d: nat): (c: char)
    requires d < 10
    ensures IsDigit(c)
  {
    (d + '0' as int) as char
  }

  function DigitValue(c: char): nat
    requires IsDigit(c)
  {
    c as int - '0' as int
  }

  // The number a run of digits spells.
  function ToNat(s: string): nat
    requires AllDigits(s)
  {
    if s == "" then 0 else 10 * ToNat(s[..|s| - 1]) + DigitValue(s[|s| - 1])
  }

  // The spelling of a number without leading zeros.
  function FromNat(n: nat): (s: string)
    ensures |s| >= 1 && AllDigits(s)
    ensures n > 0 ==> s[0] != '0'
  {
    if n < 10 then [DigitChar(n)] else FromNat(n / 10) + [DigitChar(n % 10)]
  }

  lemma {:induction false} ToNatFromNat(n: nat)
    ensures ToNat(FromNat(n)) == n
  {
    if n >= 10 {
      ToNatFromNat(n / 10);
      var s := FromNat(n);
      assert s[..|s| - 1] == FromNat(n / 10);
    }
  }

  // parse_u32
  function ParseU32(s: string): (r: Option<U32>)
    ensures r.Some? ==> s != "" && AllDigits(s)
  {
    if s == "" || !AllDigits(s) then None
    else if ToNat(s) > U32_MAX then None
    else Some(ToNat(s))
  }

  lemma U32RoundTrip(n: U32)
    ensures ParseU32(FromNat(n)) == Some(n)
  {
    ToNatFromNat(n);
  }

  function Pow10(k: nat): (p: nat)
    ensures p > 0
  {
    if k == 0 then 1 else 10 * Pow10(k - 1)
  }

  // units / 10^scale
  datatype Decimal = Decimal(units: nat, scale: nat) {
    // No trailing zero in the fraction: one representation per number.
    predicate Normal() {
      scale == 0 || units % 10 != 0
    }

    function Value(): (v: real)
      ensures v >= 0.0
    {
      units as real / Pow10(scale) as real
    }

    // The remainder by a whole number, Rust's `%` on a non-negative float.
    function Mod(m: nat): Decimal
      requires m > 0
    {
      ModPositive(m, scale);
      Decimal(units % (m * Pow10(scale)), scale)
    }
  }

  lemma ModPositive(m: nat, k: nat)
    requires m > 0
    ensures m * Pow10(k) > 0
  {
  }

  function Normalise(units: nat, scale: nat): (d: Decimal)
    ensures d.Normal()
  {
    if scale > 0 && units % 10 == 0 then Normalise(units / 10, scale - 1)
    else Decimal(units, scale)
  }

  // parse_f64: digits, or digits on both sides of one point.
  function ParseDecimal(s: string): (r: Option<Decimal>)
    ensures r.Some? ==> r.value.Normal()
  {
    match SplitOnce(s, '.')
    case Some((whole, frac)) =>
      if whole != "" && frac != "" && AllDigits(whole) && AllDigits(frac)
      then Some(Normalise(ToNat(whole + frac), |frac|))
      else None
    case None =>
      if s != "" && AllDigits(s) then Some(Decimal(ToNat(s), 0)) else None
  }

  // The integer digits and the fraction digits of units / 10^scale.
  function Digits(units: nat, scale: nat): (p: (string, string))
    ensures AllDigits(p.0) && AllDigits(p.1) && |p.0| >= 1 && |p.1| == scale
  {
    if scale == 0 then (FromNat(units), "")
    else
      var (whole, frac) := Digits(units / 10, scale - 1);
      (whole, frac + [DigitChar(units % 10)])
  }

  // fmt_f64
  function PrintDecimal(d: Decimal): string {
    var (whole, frac) := Digits(d.units, d.scale);
    if d.scale == 0 then whole else whole + ['.'] + frac
  }

  lemma ToNatSnoc(s: string, c: char)
    requires AllDigits(s) && IsDigit(c)
    ensures AllDigits(s + [c]) && ToNat(s + [c]) == 10 * ToNat(s) + DigitValue(c)
  {
    assert (s + [c])[..|s|] == s;
  }

  lemma {:induction false} DigitsSpell(units: nat, scale: nat)
    ensures ToNat(Digits(units, scale).0 + Digits(units, scale).1) == units
  {
    if scale == 0 {
      ToNatFromNat(units);
      assert Digits(units, scale).0 + "" == FromNat(units);
    } else {
      DigitsSpell(units / 10, scale - 1);
      var (whole, frac) := Digits(units / 10, scale - 1);
      var last := [DigitChar(units % 10)];
      ConcatAssoc(whole, frac, last);
      ToNatSnoc(whole + frac, DigitChar(units % 10));
    }
  }

  lemma DecimalRoundTrip(d: Decimal)
    requires d.Normal()
    ensures ParseDecimal(PrintDecimal(d)) == Some(d)
  {
    var (whole, frac) := Digits(d.units, d.scale);
    DigitsSpell(d.units, d.scale);
    if d.scale == 0 {
      assert whole + "" == whole;
      SplitOnceNone(whole, '.');
    } else {
      SplitOnceAt(whole, frac, '.');
    }
  }

  // A digit run is its number's own spelling behind some zeros: reading
  // forgets the leading zeros and nothing else.
  lemma {:induction false} LeadingZeros(s: string) returns (k: nat)
    requires s != "" && AllDigits(s)
    ensures k < |s| && s[k..] == FromNat(ToNat(s)) && forall i :: 0 <= i < k ==> s[i] == '0'
  {
    var front, last := s[..|s| - 1], s[|s| - 1];
    var digit := DigitValue(last);
    assert [DigitChar(digit)] == [last];
    if |s| == 1 {
      assert front == "";
      k := 0;
    } else {
      var j := LeadingZeros(front);
      if ToNat(front) == 0 {
        assert |front[j..]| == 1 && front[j..][0] == '0';
        assert front[j] == '0';
        k := |s| - 1;
        assert s[k..] == [last];
        assert forall i :: 0 <= i < k ==> s[i] == front[i];
      } else {
        k := j;
        assert ToNat(s) / 10 == ToNat(front) && ToNat(s) % 10 == digit;
        assert s[k..] == front[k..] + [last];
      }
    }
  }

  function Zeros(k: int): (s: string)
    ensures AllDigits(s)
  {
    if k <= 0 then "" else Zeros(k - 1) + ['0']
  }

  lemma {:induction false} ZerosRead(k: int)
    ensures ToNat(Zeros(k)) == 0
  {
    if k > 0 {
      ZerosRead(k - 1);
      var less, all := Zeros(k - 1), Zeros(k);
      assert all == less + ['0'] && all[..|all| - 1] == less;
    }
  }

  lemma {:induction false} PaddingReads(k: int, s: string)
    requires AllDigits(s)
    ensures ToNat(Zeros(k) + s) == ToNat(s)
  {
    var t := Zeros(k) + s;
    if s == "" {
      assert t == Zeros(k);
      ZerosRead(k);
    } else {
      assert t[..|t| - 1] == Zeros(k) + s[..|s| - 1];
      PaddingReads(k, s[..|s| - 1]);
    }
  }

  // ----- which texts are read as what -----

  // A number's own spelling behind any number of zeros.
  ghost predicate SpellsNat(s: string, n: nat) {
    exists k: nat :: s == Zeros(k) + FromNat(n)
  }

  lemma {:induction false} AllZeros(s: string)
    requires forall i :: 0 <= i < |s| ==> s[i] == '0'
    ensures s == Zeros(|s|)
  {
    if s != "" {
      var front := s[..|s| - 1];
      AllZeros(front);
      assert s == front + ['0'] && |front| == |s| - 1;
    }
  }

  lemma SpelledIsNumber(s: string, n: nat)
    requires SpellsNat(s, n)
    ensures s != "" && AllDigits(s) && ToNat(s) == n
  {
    var k: nat :| s == Zeros(k) + FromNat(n);
    PaddingReads(k, FromNat(n));
    ToNatFromNat(n);
  }

  lemma NumberIsSpelled(s: string)
    requires s != "" && AllDigits(s)
    ensures SpellsNat(s, ToNat(s))
  {
    var k := LeadingZeros(s);
    ZerosInFront(s, k);
    assert s == Zeros(k) + FromNat(ToNat(s));
  }

  lemma ZerosInFront(s: string, k: nat)
    requires k <= |s| && forall i :: 0 <= i < k ==> s[i] == '0'
    ensures s == Zeros(k) + s[k..]
  {
    AllZeros(s[..k]);
  }

  // The strict integer form reads exactly the spellings of numbers of 32 bits.
  lemma ParseU32Iff(s: string, n: nat)
    ensures ParseU32(s) == Some(n) <==> n < 4_294_967_296 && SpellsNat(s, n)
  {
    if ParseU32(s) == Some(n) {
      NumberIsSpelled(s);
    }
    if SpellsNat(s, n) {
      SpelledIsNumber(s, n);
    }
  }

  // Digits, or digits on both sides of a point, that stand for the number.
  ghost predicate SpellsDecimal(s: string, d: Decimal) {
    || (s != "" && AllDigits(s) && d.Value() == ToNat(s) as real)
    || exists whole, frac :: SpellsPoint(s, whole, frac, d)
  }

  predicate SpellsPoint(s: string, whole: string, frac: string, d: Decimal) {
    && whole != "" && frac != "" && AllDigits(whole) && AllDigits(frac) && s == whole + ['.'] + frac
    && d.Value() == ToNat(whole + frac) as real / Pow10(|frac|) as real
  }

  lemma ReadIsSpelled(s: string)
    requires ParseDecimal(s).Some?
    ensures SpellsDecimal(s, ParseDecimal(s).value)
  {
    match SplitOnce(s, '.')
    case Some((whole, frac)) =>
      assert s == whole + ['.'] + frac;
      ParsedValue(whole, frac);
      assert SpellsPoint(s, whole, frac, ParseDecimal(s).value);
    case None =>
  }

  lemma SpelledIsRead(s: string, d: Decimal)
    requires SpellsDecimal(s, d)
    ensures ParseDecimal(s).Some? && ParseDecimal(s).value.Value() == d.Value()
  {
    if whole, frac :| SpellsPoint(s, whole, frac, d) {
      ParsedValue(whole, frac);
    } else {
      assert '.' !in s;
      SplitOnceNone(s, '.');
    }
  }

  // The decimal form reads exactly the texts that stand for a number, and as that
  // number: no sign, no exponent, no bare point.
  lemma ParseDecimalIff(s: string, d: Decimal)
    ensures ParseDecimal(s) == Some(d) <==> d.Normal() && SpellsDecimal(s, d)
  {
    if ParseDecimal(s).Some? {
      ReadIsSpelled(s);
    }
    if d.Normal() && SpellsDecimal(s, d) {
      SpelledIsRead(s, d);
      NormalUnique(ParseDecimal(s).value, d);
    }
  }

  // The number a point form spells, whatever zeros it carries.
  lemma ParsedValue(whole: string, frac: string)
    requires whole != "" && frac != "" && AllDigits(whole) && AllDigits(frac)
    ensures ParseDecimal(whole + ['.'] + frac).Some?
    ensures ParseDecimal(whole + ['.'] + frac).value.Value()
         == ToNat(whole + frac) as real / Pow10(|frac|) as real
  {
    SplitOnceAt(whole, frac, '.');
    NormaliseValue(ToNat(whole + frac), |frac|);
  }

  // What a decimal's spelling is made of, and how it begins.
  lemma DecimalShape(d: Decimal)
    ensures PrintDecimal(d) != "" && IsDigit(PrintDecimal(d)[0])
    ensures forall c :: c in PrintDecimal(d) ==> IsDigit(c) || c == '.'
  {
  }

  lemma PowAdd(a: nat, b: nat)
    ensures Pow10(a + b) == Pow10(a) * Pow10(b)
  {
    if a > 0 {
      PowAdd(a - 1, b);
    }
  }

  // Dropping trailing zeros keeps the number.
  lemma {:induction false} NormaliseValue(units: nat, scale: nat)
    ensures Normalise(units, scale).Value() == Decimal(units, scale).Value()
  {
    if scale > 0 && units % 10 == 0 {
      NormaliseValue(units / 10, scale - 1);
      TenthsCancel(units / 10, Pow10(scale - 1));
    }
  }

  lemma TenthsCancel(u: nat, p: nat)
    requires p > 0
    ensures (10 * u) as real / (10 * p) as real == u as real / p as real
  {
    var x := u as real / p as real;
    assert (10 * u) as real == x * (10 * p) as real;
  }

  // Two normal decimals that are the same number are the same decimal, so
  // comparing decimals is comparing the numbers they stand for.
  lemma NormalUnique(a: Decimal, b: Decimal)
    requires a.Normal() && b.Normal() && a.Value() == b.Value()
    ensures a == b
  {
    if a.scale <= b.scale {
      NormalUniqueOrdered(a, b);
    } else {
      NormalUniqueOrdered(b, a);
    }
  }

  lemma NormalUniqueOrdered(a: Decimal, b: Decimal)
    requires a.Normal() && b.Normal() && a.Value() == b.Value() && a.scale <= b.scale
    ensures a == b
  {
    var k := b.scale - a.scale;
    PowAdd(a.scale, k);
    CrossMultiply(a.units, Pow10(a.scale), b.units, Pow10(b.scale));
    CancelFactor(Pow10(a.scale), a.units, Pow10(k), b.units);
    if k > 0 {
      MultipleOfTen(a.units, Pow10(k - 1), b.units);
    }
  }

  lemma MultipleOfTen(u: nat, p: nat, v: nat)
    requires u * (10 * p) == v
    ensures v % 10 == 0
  {
    assert v == 10 * (u * p);
  }

  lemma CrossMultiply(u: nat, p: nat, v: nat, q: nat)
    requires p > 0 && q > 0 && u as real / p as real == v as real / q as real
    ensures u * q == v * p
  {
    var x := u as real / p as real;
    assert x * p as real == u as real && x * q as real == v as real;
    assert (u * q) as real == x * p as real * q as real == (v * p) as real;
  }

  lemma CancelFactor(p: nat, u: nat, q: nat, v: nat)
    requires p > 0 && u * (p * q) == v * p
    ensures u * q == v
  {
    assert u * (p * q) == (u * q) * p;
  }
}
