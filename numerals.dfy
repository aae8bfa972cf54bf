/** Exact models of Python's `int()` and `float()` on the strings the normalisers hand
    them: strings of digits, and strings of digits and decimal points. */
module Numerals {
  import opened Wrappers
  import opened Text

  /** An exact non-negative decimal number, `units / 10^scale`: "12.50" reads as
      Decimal(1250, 2). It stands for the float that Python would round it to. */
  datatype Decimal = Decimal(units: nat, scale: nat)

  const Zero := Decimal(0, 0)

  function Pow10(n: nat): (p: nat)
    ensures p >= 1
  {
    if n == 0 then 1 else 10 * Pow10(n - 1)
  }

  /** The number a decimal denotes. */
  ghost function Value(d: Decimal): real {
    d.units as real / Pow10(d.scale) as real
  }

  predicate AllDigits(s: string) {
    forall i :: 0 <= i < |s| ==> IsDigit(s[i])
  }

  predicate AllNumeric(s: string) {
    forall i :: 0 <= i < |s| ==> IsNumeric(s[i])
  }

  function DigitValue(c: char): (d: nat)
    requires IsDigit(c)
    ensures d < 10
  {
    c as int - '0' as int
  }

  function DigitChar(d: nat): (c: char)
    requires d < 10
    ensures IsDigit(c) && DigitValue(c) == d
  {
    ('0' as int + d) as char
  }

  /** The natural number a string of decimal digits spells (leading zeros allowed). */
  function DigitsValue(s: string): (n: nat)
    requires AllDigits(s)
    ensures n < Pow10(|s|)
  {
    if s == [] then 0
    else
      var m := DigitsValue(s[..|s| - 1]);
      assert m * 10 <= (Pow10(|s| - 1) - 1) * 10;
      m * 10 + DigitValue(s[|s| - 1])
  }

  lemma AllDigitsConcat(a: string, b: string)
    requires AllDigits(a) && AllDigits(b)
    ensures AllDigits(a + b)
  {
    forall i | 0 <= i < |a + b| ensures IsDigit((a + b)[i]) {
      if i >= |a| { assert (a + b)[i] == b[i - |a|]; }
    }
  }

  /** Reading digits left to right: the value of `a + b` shifts `a` by the length of `b`. */
  lemma {:induction false} DigitsValueConcat(a: string, b: string)
    requires AllDigits(a) && AllDigits(b)
    ensures AllDigits(a + b)
    ensures DigitsValue(a + b) == DigitsValue(a) * Pow10(|b|) + DigitsValue(b)
  {
    AllDigitsConcat(a, b);
    if b == [] {
      assert a + b == a;
    } else {
      var b', c := b[..|b| - 1], b[|b| - 1];
      AllDigitsConcat(a, b');
      assert (a + b)[..|a + b| - 1] == a + b';
      assert (a + b)[|a + b| - 1] == c;
      DigitsValueConcat(a, b');
      var x, p, y := DigitsValue(a), Pow10(|b'|), DigitsValue(b');
      assert DigitsValue(a + b) == (x * p + y) * 10 + DigitValue(c);
      assert DigitsValue(b) == y * 10 + DigitValue(c);
      assert Pow10(|b|) == p * 10;
      ShiftStep(x, p, y);
    }
  }

  lemma ShiftStep(x: nat, p: nat, y: nat)
    ensures (x * p + y) * 10 == x * (p * 10) + y * 10
  {
  }

  /** A string of n zeros. */
  function Zeros(n: nat): (s: string)
    ensures |s| == n && AllDigits(s)
  {
    seq(n, _ => '0')
  }

  /** Leading zeros do not change the value. */
  lemma {:induction false} ZerosValue(n: nat)
    ensures DigitsValue(Zeros(n)) == 0
  {
    if n > 0 {
      assert Zeros(n)[..n - 1] == Zeros(n - 1);
      ZerosValue(n - 1);
    }
  }

  /** The canonical decimal rendering of a natural number, without leading zeros. */
  function ShowNat(n: nat): (s: string)
    ensures s != [] && AllDigits(s)
    ensures DigitsValue(s) == n
    ensures |s| == 1 || s[0] != '0'
  {
    if n < 10 then
      [DigitChar(n)]
    else
      var s := ShowNat(n / 10) + [DigitChar(n % 10)];
      assert s[..|s| - 1] == ShowNat(n / 10);
      s
  }

  /** The first position of `c` in `s`. */
  function IndexOf(s: string, c: char): (i: nat)
    requires c in s
    ensures i < |s| && s[i] == c && c !in s[..i]
  {
    if s[0] == c then 0
    else
      var i := IndexOf(s[1..], c);
      assert s[..i + 1] == [s[0]] + s[1..][..i];
      i + 1
  }

  /** A string Python's `float()` accepts among those made of digits and points:
      at most one point and at least one digit ("1.", ".5" and "12" qualify;
      "", "." and "1.2.3" do not). */
  predicate IsNumeral(t: string) {
    multiset(t)['.'] <= 1 && exists i :: 0 <= i < |t| && IsDigit(t[i])
  }

  /** The most digits CPython's `int()` converts from a decimal string: the default of
      `sys.get_int_max_str_digits()` (Python 3.10.7 and later). Leading zeros count. */
  const MaxIntDigits: nat := 4300

  /** Python's `int(t)` on a string of digits: it fails on the empty string and, with
      ValueError, on a string of more than `MaxIntDigits` digits. */
  function ParseInt(t: string): (r: Option<nat>)
    requires AllDigits(t)
    ensures r.Some? <==> (exists i :: 0 <= i < |t| && IsDigit(t[i])) && |t| <= MaxIntDigits
    ensures r.Some? ==> r.value == DigitsValue(Retain(t, IsDigit))
  {
    RetainAll(t, IsDigit);
    if t == [] || |t| > MaxIntDigits then None else Some(DigitsValue(t))
  }

  /** Python's `float(t)` on a string of digits and points, computed exactly: the
      digits give the units and the digits after the point give the scale. */
  function ParseFloat(t: string): (r: Option<Decimal>)
    requires AllNumeric(t)
    ensures r.Some? <==> IsNumeral(t)
    ensures r.Some? ==> AllDigits(Retain(t, IsDigit)) && r.value.units == DigitsValue(Retain(t, IsDigit))
  {
    if '.' !in t then
      assert AllDigits(t);
      RetainAll(t, IsDigit);
      if t == [] then None else Some(Decimal(DigitsValue(t), 0))
    else
      var i := IndexOf(t, '.');
      var whole, frac := t[..i], t[i + 1..];
      SplitAtPoint(t, i);
      if '.' in frac || (whole == [] && frac == []) then None
      else Some(Decimal(DigitsValue(whole + frac), |frac|))
  }

  /** What splitting a string of digits and points at its first point gives. */
  lemma SplitAtPoint(t: string, i: nat)
    requires AllNumeric(t) && i < |t| && t[i] == '.' && '.' !in t[..i]
    ensures AllDigits(t[..i])
    ensures multiset(t)['.'] == 1 + multiset(t[i + 1..])['.']
    ensures '.' !in t[i + 1..] ==> AllDigits(t[i + 1..]) && AllDigits(t[..i] + t[i + 1..])
    ensures '.' !in t[i + 1..] ==> Retain(t, IsDigit) == t[..i] + t[i + 1..]
    ensures '.' !in t[i + 1..] ==> ((exists j :: 0 <= j < |t| && IsDigit(t[j])) <==> t[..i] + t[i + 1..] != [])
  {
    var whole, frac := t[..i], t[i + 1..];
    assert t == whole + ['.'] + frac;
    NoPointAllDigits(t, 0, i);
    PointCount(whole, frac);
    if '.' !in frac {
      NoPointAllDigits(t, i + 1, |t|);
      AllDigitsConcat(whole, frac);
      RetainAroundPoint(whole, frac);
      DigitAroundPoint(whole, frac);
    }
  }

  lemma PointCount(whole: string, frac: string)
    requires '.' !in whole
    ensures multiset(whole + ['.'] + frac)['.'] == 1 + multiset(frac)['.']
  {
    assert multiset(whole + ['.'] + frac) == multiset(whole) + multiset(['.']) + multiset(frac);
  }

  lemma RetainAroundPoint(whole: string, frac: string)
    requires AllDigits(whole) && AllDigits(frac)
    ensures Retain(whole + ['.'] + frac, IsDigit) == whole + frac
  {
    assert Retain(['.'], IsDigit) == [];
    assert Retain(whole + ['.'], IsDigit) == whole by {
      RetainConcat(whole, ['.'], IsDigit);
      RetainAll(whole, IsDigit);
    }
    assert Retain(frac, IsDigit) == frac by {
      RetainAll(frac, IsDigit);
    }
    RetainConcat(whole + ['.'], frac, IsDigit);
  }

  lemma DigitAroundPoint(whole: string, frac: string)
    requires AllDigits(whole) && AllDigits(frac)
    ensures var t := whole + ['.'] + frac;
      (exists j :: 0 <= j < |t| && IsDigit(t[j])) <==> whole + frac != []
  {
    var t := whole + ['.'] + frac;
    if whole != [] {
      assert IsDigit(t[0]);
    } else if frac != [] {
      assert IsDigit(t[|whole| + 1]);
    } else {
      assert t == ['.'];
    }
  }

  lemma NoPointAllDigits(t: string, lo: nat, hi: nat)
    requires lo <= hi <= |t| && AllNumeric(t) && '.' !in t[lo..hi]
    ensures AllDigits(t[lo..hi])
  {
    forall j | 0 <= j < hi - lo ensures IsDigit(t[lo..hi][j]) {
      assert t[lo..hi][j] in t[lo..hi];
      assert t[lo..hi][j] == t[lo + j];
    }
  }

  lemma {:induction false} IndexOfFirst(s: string, c: char, k: nat)
    requires k < |s| && s[k] == c && c !in s[..k]
    ensures IndexOf(s, c) == k
  {
    if k > 0 {
      assert s[0] == s[..k][0];
      assert s[1..][..k - 1] == s[1..k];
      assert forall x :: x in s[1..k] ==> x in s[..k];
      IndexOfFirst(s[1..], c, k - 1);
    }
  }

  /** `float` of a digit string alone ("12"): the number it spells, with no fraction. */
  lemma ParseFloatWhole(a: string)
    requires AllDigits(a) && a != []
    ensures AllNumeric(a)
    ensures ParseFloat(a) == Some(Decimal(DigitsValue(a), 0))
  {
  }

  /** `float` of "a.b" for digit strings a and b: the digits of a and b read as one
      number, scaled down by the number of digits after the point; "." alone fails. */
  lemma ParseFloatParts(a: string, b: string)
    requires AllDigits(a) && AllDigits(b)
    ensures AllNumeric(a + ['.'] + b) && AllDigits(a + b)
    ensures ParseFloat(a + ['.'] + b) == if a + b == [] then None else Some(Decimal(DigitsValue(a + b), |b|))
  {
    var t := a + ['.'] + b;
    forall j | 0 <= j < |t| ensures IsNumeric(t[j]) {
      if j < |a| { assert t[j] == a[j]; } else if j > |a| { assert t[j] == b[j - |a| - 1]; }
    }
    AllDigitsConcat(a, b);
    assert t[..|a|] == a && t[|a| + 1..] == b;
    IndexOfFirst(t, '.', |a|);
  }

  /** The value of "a.b" is the integer part a plus the fraction b / 10^|b|. */
  lemma ValueOfParts(a: string, b: string)
    requires AllDigits(a) && AllDigits(b)
    ensures AllDigits(a + b)
    ensures Value(Decimal(DigitsValue(a + b), |b|))
         == DigitsValue(a) as real + DigitsValue(b) as real / Pow10(|b|) as real
  {
    DigitsValueConcat(a, b);
    FractionSplit(DigitsValue(a), DigitsValue(b), Pow10(|b|));
  }

  lemma FractionSplit(x: nat, y: nat, p: nat)
    requires p >= 1
    ensures ((x * p + y) as real) / (p as real) == x as real + y as real / p as real
  {
    assert (x * p + y) as real == x as real * p as real + y as real;
  }

  /** Left-pads a digit string with zeros to at least `width` characters. */
  function PadLeft(s: string, width: nat): (r: string)
    requires AllDigits(s)
    ensures AllDigits(r) && |r| >= width && |r| >= |s|
    ensures DigitsValue(r) == DigitsValue(s)
  {
    if |s| < width then
      DigitsValueConcat(Zeros(width - |s|), s);
      ZerosValue(width - |s|);
      Zeros(width - |s|) + s
    else
      s
  }

  /** A rendering of a decimal with exactly `scale` digits after the point
      (none and no point when the scale is 0): Decimal(1250, 2) is "12.50". */
  function ShowDecimal(d: Decimal): (s: string)
    ensures AllNumeric(s)
  {
    if d.scale == 0 then
      ShowNat(d.units)
    else
      var digits := PadLeft(ShowNat(d.units), d.scale + 1);
      var k := |digits| - d.scale;
      ParseFloatParts(digits[..k], digits[k..]);
      digits[..k] + ['.'] + digits[k..]
  }

  /** `float` reads back every rendered decimal exactly. */
  lemma ParseShowDecimal(d: Decimal)
    ensures ParseFloat(ShowDecimal(d)) == Some(d)
  {
    if d.scale == 0 {
      ParseFloatWhole(ShowNat(d.units));
    } else {
      var digits := PadLeft(ShowNat(d.units), d.scale + 1);
      var k := |digits| - d.scale;
      assert ShowDecimal(d) == digits[..k] + ['.'] + digits[k..];
      SplitDigits(digits, k);
      ParseFloatParts(digits[..k], digits[k..]);
      assert |digits[k..]| == d.scale;
      assert DigitsValue(digits[..k] + digits[k..]) == d.units;
    }
  }

  lemma SplitDigits(s: string, k: nat)
    requires AllDigits(s) && k <= |s|
    ensures AllDigits(s[..k]) && AllDigits(s[k..]) && s[..k] + s[k..] == s
  {
    forall j | 0 <= j < k ensures IsDigit(s[..k][j]) { assert s[..k][j] == s[j]; }
    forall j | 0 <= j < |s| - k ensures IsDigit(s[k..][j]) { assert s[k..][j] == s[k + j]; }
  }

  /** `int` reads back the canonical rendering of every natural number short enough for
      it, and refuses the rest. */
  lemma ParseShowNat(n: nat)
    ensures ParseInt(ShowNat(n)) == if |ShowNat(n)| <= MaxIntDigits then Some(n) else None
  {
    assert IsDigit(ShowNat(n)[0]);
  }

  /** The rendering of n has at most k digits exactly when n < 10^k, so `int` reads back
      exactly the numbers below 10^MaxIntDigits. */
  lemma ShowNatFits(n: nat, k: nat)
    requires k >= 1
    ensures |ShowNat(n)| <= k <==> n < Pow10(k)
  {
    var len := |ShowNat(n)|;
    if len <= k {
      Pow10Monotone(len, k);
    } else {
      ShowNatLeading(n);
      Pow10Monotone(k, len - 1);
    }
  }

  lemma {:induction false} Pow10Monotone(a: nat, b: nat)
    requires a <= b
    ensures Pow10(a) <= Pow10(b)
    decreases b
  {
    if a < b {
      Pow10Monotone(a, b - 1);
    }
  }

  /** A rendering without a leading zero: n is at least 10^(digits - 1). */
  lemma {:induction false} ShowNatLeading(n: nat)
    ensures n == 0 || Pow10(|ShowNat(n)| - 1) <= n
  {
    if n >= 10 {
      ShowNatLeading(n / 10);
      assert |ShowNat(n)| == |ShowNat(n / 10)| + 1;
    }
  }
}
