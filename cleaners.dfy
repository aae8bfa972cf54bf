/** The field normalisers of load_data.py: each reads one raw text cell of the
    catalog export and returns a typed value, a default, or an error. */
module Cleaners {
  import opened Wrappers
  import opened Errors
  import opened Text
  import opened Numerals

  /** The cells `clean_price`, `clean_percentage` and `clean_rating_count` map to
      their default: blank once stripped, or equal to "nan" in any letter case.
      The "nan" test is made on the cell as given, not on the stripped cell. */
  predicate IsDefaulted(s: string) {
    IsBlank(s) || IsNanText(s)
  }

  /** `clean_price`: 0 for a blank or "nan" cell; otherwise the `float` of the
      cell's digits and points, or `ValueError` when they do not form a number. */
  function CleanPrice(price: string): (r: Result<Decimal, Error>)
    ensures IsDefaulted(price) ==> r == Ok(Zero)
    ensures !IsDefaulted(price) ==> (r.Ok? <==> IsNumeral(Retain(price, IsNumeric)))
    ensures !IsDefaulted(price) && r.Ok? ==>
              AllNumeric(Retain(price, IsNumeric)) && Some(r.value) == ParseFloat(Retain(price, IsNumeric))
    ensures r.Err? ==> r.error == NotANumber(Price, price)
  {
    if Strip(price) == [] || IsNanText(price) then
      Ok(Zero)
    else
      match ParseFloat(Retain(price, IsNumeric))
      case Some(d) => Ok(d)
      case None => Err(NotANumber(Price, price))
  }

  /** The shared rule of `clean_percentage` and `clean_rating_count`: 0 for a blank
      or "nan" cell, otherwise `int` of the cell's digits, which fails when there is none
      or when there are more than `int` converts. */
  function WholeNumber(s: string): Option<nat> {
    if Strip(s) == [] || IsNanText(s) then Some(0)
    else ParseInt(Retain(s, IsDigit))
  }

  /** `clean_percentage`: "15%" gives 15. */
  function CleanPercentage(percentage: string): (r: Result<nat, Error>)
    ensures IsDefaulted(percentage) ==> r == Ok(0)
    ensures !IsDefaulted(percentage) ==>
              (r.Ok? <==> (exists i :: 0 <= i < |percentage| && IsDigit(percentage[i])) && |Retain(percentage, IsDigit)| <= MaxIntDigits)
    ensures !IsDefaulted(percentage) && r.Ok? ==>
              AllDigits(Retain(percentage, IsDigit)) && r.value == DigitsValue(Retain(percentage, IsDigit))
    ensures r.Err? ==> r.error == NotANumber(Percentage, percentage)
  {
    match WholeNumber(percentage)
    case Some(n) => Ok(n)
    case None => Err(NotANumber(Percentage, percentage))
  }

  /** `clean_rating_count`: "1,234" gives 1234. */
  function CleanRatingCount(count: string): (r: Result<nat, Error>)
    ensures IsDefaulted(count) ==> r == Ok(0)
    ensures !IsDefaulted(count) ==>
              (r.Ok? <==> (exists i :: 0 <= i < |count| && IsDigit(count[i])) && |Retain(count, IsDigit)| <= MaxIntDigits)
    ensures !IsDefaulted(count) && r.Ok? ==>
              AllDigits(Retain(count, IsDigit)) && r.value == DigitsValue(Retain(count, IsDigit))
    ensures r.Err? ==> r.error == NotANumber(RatingCount, count)
  {
    match WholeNumber(count)
    case Some(n) => Ok(n)
    case None => Err(NotANumber(RatingCount, count))
  }

  /** `clean_rating`: never raises. A missing cell, blank or "nan" text, text without
      digits or points and text whose digits and points are not a number all give
      None; any other cell gives the number its digits and points spell. */
  function CleanRating(rating: Option<string>): (r: Option<Decimal>)
    ensures r.Some? <==> rating.Some? && IsNumeral(Retain(rating.value, IsNumeric))
    ensures r.Some? ==>
              AllNumeric(Retain(rating.value, IsNumeric)) && r == ParseFloat(Retain(rating.value, IsNumeric))
  {
    match rating
    case None => None
    case Some(raw) =>
      var text := Strip(raw);
      RetainStrip(raw, IsNumeric);
      NanHasNoNumerals(text);
      if text == [] || IsNanText(text) then
        None
      else
        var cleaned := Retain(text, IsNumeric);
        if cleaned == [] then None else ParseFloat(cleaned)
  }

  /** "nan" in any letter case holds no digit and no point. */
  lemma NanHasNoNumerals(s: string)
    ensures IsNanText(s) ==> Retain(s, IsNumeric) == []
  {
    if IsNanText(s) {
      assert forall i :: 0 <= i < |s| ==> !IsNumeric(s[i]);
    }
  }

  /** A cell with a digit in it is neither blank nor "nan". */
  lemma DigitNotDefaulted(s: string, i: nat)
    requires i < |s| && IsDigit(s[i])
    ensures !IsDefaulted(s)
  {
  }

  /** A digit the filter keeps is a digit of the cell. */
  lemma FilteredDigitNotDefaulted(s: string, keep: char -> bool, j: nat)
    requires j < |Retain(s, keep)| && IsDigit(Retain(s, keep)[j])
    ensures !IsDefaulted(s)
  {
    RetainFrom(s, keep);
    var i :| 0 <= i < |s| && s[i] == Retain(s, keep)[j];
    DigitNotDefaulted(s, i);
  }

  /** A price whose digits and points read "a.b" is the number a + b / 10^|b|,
      held exactly as the digits of a and b with |b| of them after the point. */
  lemma CleanPriceReadsPoint(price: string, a: string, b: string)
    requires AllDigits(a) && AllDigits(b) && a + b != []
    requires Retain(price, IsNumeric) == a + ['.'] + b
    ensures AllDigits(a + b)
    ensures CleanPrice(price) == Ok(Decimal(DigitsValue(a + b), |b|))
    ensures Value(CleanPrice(price).value) == DigitsValue(a) as real + DigitsValue(b) as real / Pow10(|b|) as real
  {
    ParseFloatParts(a, b);
    ValueOfParts(a, b);
    if a != [] {
      FilteredDigitNotDefaulted(price, IsNumeric, 0);
    } else {
      assert IsDigit((a + ['.'] + b)[1]);
      FilteredDigitNotDefaulted(price, IsNumeric, 1);
    }
  }

  /** A price whose digits and points are the digits a alone is the whole number a. */
  lemma CleanPriceReadsWhole(price: string, a: string)
    requires AllDigits(a) && a != []
    requires Retain(price, IsNumeric) == a
    ensures CleanPrice(price) == Ok(Decimal(DigitsValue(a), 0))
  {
    ParseFloatWhole(a);
    FilteredDigitNotDefaulted(price, IsNumeric, 0);
  }

  /** Every decimal comes back from any price text whose digits and points render it,
      whatever currency sign, separators or words surround them. */
  lemma CleanPriceShown(price: string, d: Decimal)
    requires Retain(price, IsNumeric) == ShowDecimal(d)
    ensures CleanPrice(price) == Ok(d)
  {
    ParseShowDecimal(d);
    var j :| 0 <= j < |ShowDecimal(d)| && IsDigit(ShowDecimal(d)[j]);
    FilteredDigitNotDefaulted(price, IsNumeric, j);
  }

  /** `clean_rating` reads back every rendered decimal, surrounded by anything
      that is neither a digit nor a point. */
  lemma CleanRatingShown(rating: string, d: Decimal)
    requires Retain(rating, IsNumeric) == ShowDecimal(d)
    ensures CleanRating(Some(rating)) == Some(d)
  {
    ParseShowDecimal(d);
  }

  /** A count written with thousands separators: 1234 is "1,234". */
  function Grouped(n: nat): (s: string)
    decreases n
  {
    if n < 1000 then ShowNat(n)
    else Grouped(n / 1000) + [','] + ThreeDigits(n % 1000)
  }

  /** The three digits of m, with leading zeros: 7 is "007". */
  function ThreeDigits(m: nat): (s: string)
    requires m < 1000
    ensures |s| == 3 && AllDigits(s) && DigitsValue(s) == m
  {
    var s := [DigitChar(m / 100), DigitChar(m / 10 % 10), DigitChar(m % 10)];
    assert s[..2][..1] == s[..1] && s[..1][..0] == [];
    assert DigitsValue(s[..1]) == m / 100;
    assert DigitsValue(s[..2]) == m / 100 * 10 + m / 10 % 10 == m / 10;
    s
  }

  /** Deleting the separators from a grouped count leaves its plain rendering. */
  lemma {:induction false} GroupedDigits(n: nat)
    ensures Retain(Grouped(n), IsDigit) == ShowNat(n)
    decreases n
  {
    if n < 1000 {
      RetainAll(ShowNat(n), IsDigit);
    } else {
      var g, t := Grouped(n / 1000), ThreeDigits(n % 1000);
      GroupedDigits(n / 1000);
      assert Grouped(n) == g + [','] + t;
      RetainConcat(g + [','], t, IsDigit);
      RetainConcat(g, [','], IsDigit);
      assert Retain([','], IsDigit) == [];
      RetainAll(t, IsDigit);
      ShowNatGroup(n);
    }
  }

  /** The plain rendering of n is that of its thousands followed by its last three digits. */
  lemma ShowNatGroup(n: nat)
    requires n >= 1000
    ensures ShowNat(n) == ShowNat(n / 1000) + ThreeDigits(n % 1000)
  {
    var q, m := n / 1000, n % 1000;
    assert n == q * 1000 + m;
    assert n / 10 == q * 100 + m / 10;
    assert n / 100 == q * 10 + m / 100;
    assert n / 100 / 10 == q;
    assert n / 10 / 10 == n / 100;
    assert n % 10 == m % 10;
    assert n / 10 % 10 == m / 10 % 10;
    assert n / 100 % 10 == m / 100;
    assert ShowNat(n / 100) == ShowNat(q) + [DigitChar(m / 100)];
    assert ShowNat(n / 10) == ShowNat(n / 100) + [DigitChar(m / 10 % 10)];
    assert ShowNat(n) == ShowNat(n / 10) + [DigitChar(m % 10)];
  }

  /** `clean_rating_count` reads back every count written with thousands separators
      whose digits `int` converts, and raises on the longer ones. */
  lemma CleanRatingCountGrouped(n: nat)
    ensures CleanRatingCount(Grouped(n)) ==
              if |ShowNat(n)| <= MaxIntDigits then Ok(n) else Err(NotANumber(RatingCount, Grouped(n)))
  {
    GroupedDigits(n);
    FilteredDigitNotDefaulted(Grouped(n), IsDigit, 0);
  }

  /** `clean_percentage` reads back every percentage written as digits and a sign whose
      digits `int` converts, and raises on the longer ones. */
  lemma CleanPercentageSign(n: nat)
    ensures CleanPercentage(ShowNat(n) + ['%']) ==
              if |ShowNat(n)| <= MaxIntDigits then Ok(n) else Err(NotANumber(Percentage, ShowNat(n) + ['%']))
  {
    var digits := ShowNat(n);
    var s := digits + ['%'];
    assert Retain(s, IsDigit) == digits by {
      RetainConcat(digits, ['%'], IsDigit);
      RetainAll(digits, IsDigit);
    }
    assert s[0] == digits[0];
    assert IsDigit(s[0]);
    DigitNotDefaulted(s, 0);
  }

  /** The "nan" test does not strip: " nan " is not taken for a missing price, its
      digits and points are the empty string, and `float("")` raises. */
  lemma PaddedNanPriceRaises()
    ensures CleanPrice(" nan ") == Err(NotANumber(Price, " nan "))
  {
    var s := " nan ";
    assert !IsSpace(s[1]);
    assert forall i :: 0 <= i < |s| ==> !IsNumeric(s[i]);
  }

  /** Any text whose digits and points contain two points ("1.2.3", "4.5.3") is not
      a number: `clean_price` raises on it and `clean_rating` gives None. */
  lemma TwoPointsRejected(s: string, i: nat, j: nat)
    requires i < j < |Retain(s, IsNumeric)|
    requires Retain(s, IsNumeric)[i] == '.' && Retain(s, IsNumeric)[j] == '.'
    ensures CleanPrice(s) == Err(NotANumber(Price, s))
    ensures CleanRating(Some(s)) == None
  {
    var t := Retain(s, IsNumeric);
    TwoPointsNotNumeral(t, i, j);
    RetainFrom(s, IsNumeric);
    var k :| 0 <= k < |s| && s[k] == t[i];
    PointNotDefaulted(s, k);
  }

  lemma TwoPointsNotNumeral(t: string, i: nat, j: nat)
    requires i < j < |t| && t[i] == '.' && t[j] == '.'
    ensures !IsNumeral(t)
  {
    assert t == t[..j] + t[j..];
    assert multiset(t) == multiset(t[..j]) + multiset(t[j..]);
    assert t[..j][i] == '.' && t[j..][0] == '.';
    assert '.' in multiset(t[..j]) && '.' in multiset(t[j..]);
  }

  lemma PointNotDefaulted(s: string, k: nat)
    requires k < |s| && s[k] == '.'
    ensures !IsDefaulted(s)
  {
    assert !IsSpace(s[k]);
  }

  /** "1.2.3" as a price raises. */
  lemma DottedPriceRaises()
    ensures CleanPrice("1.2.3") == Err(NotANumber(Price, "1.2.3"))
  {
    RetainAll("1.2.3", IsNumeric);
    TwoPointsRejected("1.2.3", 1, 3);
  }

  /** A price written as a currency sign, digits, a thousands separator and more
      digits reads as the whole number the digits spell. */
  lemma CleanPriceGrouped(sign: char, a: string, b: string)
    requires !IsNumeric(sign) && AllDigits(a) && AllDigits(b) && a != []
    ensures AllDigits(a + b)
    ensures CleanPrice([sign] + a + [','] + b) == Ok(Decimal(DigitsValue(a + b), 0))
  {
    var price := [sign] + a + [','] + b;
    assert Retain(price, IsNumeric) == a + b by {
      RetainFour([sign], a, [','], b, IsNumeric);
      RetainAll(a, IsNumeric);
      RetainAll(b, IsNumeric);
      assert Retain([sign], IsNumeric) == [];
      assert Retain([','], IsNumeric) == [];
    }
    AllDigitsConcat(a, b);
    CleanPriceReadsWhole(price, a + b);
  }

  /** "₹1,099" reads as 1099. */
  lemma RupeePrice()
    ensures CleanPrice("₹1,099") == Ok(Decimal(1099, 0))
  {
    ValueOf1099();
    assert "₹1,099" == ['₹'] + "1" + [','] + "099";
    assert "1" + "099" == "1099";
    CleanPriceGrouped('₹', "1", "099");
  }

  lemma RetainFour(a: string, b: string, c: string, d: string, keep: char -> bool)
    ensures Retain(a + b + c + d, keep) == Retain(a, keep) + Retain(b, keep) + Retain(c, keep) + Retain(d, keep)
  {
    RetainConcat(a + b + c, d, keep);
    RetainConcat(a + b, c, keep);
    RetainConcat(a, b, keep);
  }

  lemma ValueOf1099()
    ensures AllDigits("1099") && DigitsValue("1099") == 1099
  {
    var t := ThreeDigits(99);
    assert t == "099";
    assert "1" + t == "1099";
    DigitsValueConcat("1", t);
    assert "1"[..0] == [];
    assert DigitsValue("1") == 1;
    assert Pow10(3) == 1000;
  }
}
