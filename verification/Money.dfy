/** Money is a decimal string with up to four fraction digits; arithmetic is on units of 0.0001. */
module Money {
  import opened Wrappers
  import opened Decimal

  const MONEY_SCALE := 4
  const SCALE := 10_000
  const MAX_WHOLE_DIGITS := 15

  /** The part before the first dot and the part after it; a string without a dot has no second part. */
  function SplitDot(s: string): (string, Option<string>) {
    if s == "" then ("", None)
    else if s[0] == '.' then ("", Some(s[1..]))
    else
      var (whole, frac) := SplitDot(s[1..]);
      ([s[0]] + whole, frac)
  }

  function Negative(s: string): bool {
    s != "" && s[0] == '-'
  }

  function Body(s: string): string {
    if Negative(s) then s[1..] else s
  }

  /** A sign, digits, and perhaps a dot and one to four digits; any number of whole digits. */
  predicate Numeral(s: string) {
    var (whole, frac) := SplitDot(Body(s));
    whole != "" && AllDigits(whole) && (frac.Some? ==> 1 <= |frac.value| <= MONEY_SCALE && AllDigits(frac.value))
  }

  predicate Matches(s: string) {
    Numeral(s) && |SplitDot(Body(s)).0| <= MAX_WHOLE_DIGITS
  }

  function Units(s: string): int
    requires Numeral(s)
  {
    var (whole, frac) := SplitDot(Body(s));
    var padded := frac.GetOr("") + "0000";
    assert AllDigits(padded[..MONEY_SCALE]);
    var units := Value(whole) * SCALE + Value(padded[..MONEY_SCALE]);
    if Negative(s) then -units else units
  }

  /** None where the source throws. */
  function ToUnits(s: string): Option<int> {
    if Matches(s) then Some(Units(s)) else None
  }

  function FromUnits(units: int): string {
    var abs := if units < 0 then -units else units;
    (if units < 0 then "-" else "") + Print(abs / SCALE) + "." + PadStart(Print(abs % SCALE), MONEY_SCALE)
  }

  function NormalizeMoney(s: string): Option<string> {
    var u := ToUnits(s);
    if u.Some? then Some(FromUnits(u.value)) else None
  }

  function SumUnits(values: seq<string>): Option<int> {
    if values == [] then Some(0)
    else
      var init, last := SumUnits(values[..|values| - 1]), ToUnits(values[|values| - 1]);
      if init.None? || last.None? then None else Some(init.value + last.value)
  }

  function SumMoney(values: seq<string>): Option<string> {
    var u := SumUnits(values);
    if u.Some? then Some(FromUnits(u.value)) else None
  }

  /** Amounts with at most fifteen whole digits lie strictly between these bounds. */
  function Limit(): int {
    Pow10(MAX_WHOLE_DIGITS) * SCALE
  }

  lemma {:induction false} SplitDotOfDigits(whole: string, frac: string)
    requires AllDigits(whole)
    ensures SplitDot(whole + "." + frac) == (whole, Some(frac))
  {
    var s := whole + "." + frac;
    if whole == "" {
      assert s[1..] == frac;
    } else {
      SplitDotOfDigits(whole[1..], frac);
      assert s[0] == whole[0] && s[1..] == whole[1..] + "." + frac;
      assert whole == [whole[0]] + whole[1..];
    }
  }

  function Whole(units: nat): string {
    Print(units / SCALE)
  }

  function Fraction(units: nat): string {
    PadStart(Print(units % SCALE), MONEY_SCALE)
  }

  lemma FractionReads(units: nat)
    ensures |Fraction(units)| == MONEY_SCALE && AllDigits(Fraction(units)) && Value(Fraction(units)) == units % SCALE
  {
    PaddedPrint(units % SCALE, MONEY_SCALE);
    PrintLength(units % SCALE, MONEY_SCALE);
    FourDigits();
  }

  /** A sign before the text only marks it as negative. */
  lemma SignedBody(units: int, text: string)
    requires text != "" && text[0] != '-'
    ensures var s := (if units < 0 then "-" else "") + text;
            Negative(s) == (units < 0) && Body(s) == text
  {
  }

  lemma PrintedParts(units: int)
    ensures var abs := if units < 0 then -units else units;
            var (whole, frac) := SplitDot(Body(FromUnits(units)));
            && whole == Whole(abs) && frac == Some(Fraction(abs))
            && Negative(FromUnits(units)) == (units < 0)
            && |frac.value| == MONEY_SCALE && AllDigits(frac.value) && Value(frac.value) == abs % SCALE
  {
    var abs := if units < 0 then -units else units;
    var text := Whole(abs) + "." + Fraction(abs);
    assert FromUnits(units) == (if units < 0 then "-" else "") + text;
    FractionReads(abs);
    assert Whole(abs) != "" && IsDigit(Whole(abs)[0]);
    hide FromUnits, Print, PadStart, Value, Whole, Fraction, SplitDot, Body, Negative;
    SignedBody(units, text);
    SplitDotOfDigits(Whole(abs), Fraction(abs));
  }

  lemma FourDigits()
    ensures Pow10(4) == SCALE
  {
    assert Pow10(1) == 10 && Pow10(2) == 100 && Pow10(3) == 1000;
  }

  /** Reading a printed amount gives it back, for amounts of any size. */
  lemma UnitsOfPrinted(units: int)
    ensures Numeral(FromUnits(units)) && Units(FromUnits(units)) == units
  {
    var abs := if units < 0 then -units else units;
    var (whole, frac) := SplitDot(Body(FromUnits(units)));
    PrintedParts(units);
    ValueOfPrint(abs / SCALE);
    assert (frac.value + "0000")[..MONEY_SCALE] == frac.value;
  }

  /** The round trip fails only where the pattern's fifteen whole digits run out. */
  lemma MoneyRoundTrip(units: int)
    ensures ToUnits(FromUnits(units)) ==
            if -Limit() < units < Limit() then Some(units) else None
  {
    var abs := if units < 0 then -units else units;
    PrintedParts(units);
    UnitsOfPrinted(units);
    PrintLength(abs / SCALE, MAX_WHOLE_DIGITS);
    assert abs / SCALE < Pow10(MAX_WHOLE_DIGITS) <==> abs < Limit();
  }

  /** Comparing canonical strings decides equality of amounts. */
  lemma CanonicalInjective(a: int, b: int)
    ensures FromUnits(a) == FromUnits(b) <==> a == b
  {
    UnitsOfPrinted(a);
    UnitsOfPrinted(b);
  }

  lemma {:induction false} MatchesBound(s: string)
    requires Matches(s)
    ensures -Limit() < Units(s) < Limit()
  {
    var (whole, frac) := SplitDot(Body(s));
    var padded := frac.GetOr("") + "0000";
    assert AllDigits(padded[..MONEY_SCALE]);
    ValueBound(whole);
    PowGrows(|whole|, MAX_WHOLE_DIGITS);
    ValueBound(padded[..MONEY_SCALE]);
    FourDigits();
  }

  /** Normalizing keeps the amount and is idempotent. */
  lemma NormalizeKeepsAmount(s: string)
    requires Matches(s)
    ensures NormalizeMoney(s).Some? && ToUnits(NormalizeMoney(s).value) == ToUnits(s)
    ensures NormalizeMoney(NormalizeMoney(s).value) == NormalizeMoney(s)
  {
    MatchesBound(s);
    MoneyRoundTrip(Units(s));
  }

  function Sum(units: seq<int>): int {
    if units == [] then 0 else Sum(units[..|units| - 1]) + units[|units| - 1]
  }

  function Printed(units: seq<int>): (s: seq<string>)
    ensures |s| == |units| && forall i :: 0 <= i < |s| ==> s[i] == FromUnits(units[i])
  {
    seq(|units|, i requires 0 <= i < |units| => FromUnits(units[i]))
  }

  /** Adding printed amounts up is exact, however many there are. */
  lemma {:induction false} SumOfPrinted(units: seq<int>)
    requires forall i :: 0 <= i < |units| ==> -Limit() < units[i] < Limit()
    ensures SumMoney(Printed(units)) == Some(FromUnits(Sum(units)))
  {
    hide FromUnits, ToUnits;
    if units != [] {
      var init := units[..|units| - 1];
      SumOfPrinted(init);
      assert Printed(units)[..|units| - 1] == Printed(init);
      MoneyRoundTrip(units[|units| - 1]);
      assert SumUnits(Printed(init)).Some?;
      CanonicalInjective(SumUnits(Printed(init)).value, Sum(init));
    }
  }

  /** So comparing the printed totals of two lists decides whether the lists add up to the same amount. */
  lemma EqualTotalsEqualSums(a: seq<int>, b: seq<int>)
    requires forall i :: 0 <= i < |a| ==> -Limit() < a[i] < Limit()
    requires forall i :: 0 <= i < |b| ==> -Limit() < b[i] < Limit()
    ensures SumMoney(Printed(a)) == SumMoney(Printed(b)) <==> Sum(a) == Sum(b)
  {
    SumOfPrinted(a);
    SumOfPrinted(b);
    CanonicalInjective(Sum(a), Sum(b));
  }

  // -------------------------------------------------------------------------
  // Reading any text
  // -------------------------------------------------------------------------

  /** A sign or none, the whole digits, and no fraction or a dot and its digits. */
  function Amount(negative: bool, whole: string, frac: string): string {
    (if negative then "-" else "") + whole + (if frac == "" then "" else "." + frac)
  }

  predicate Digits(s: string, most: nat) {
    |s| <= most && AllDigits(s)
  }

  lemma ZeroAppended(s: string)
    requires AllDigits(s)
    ensures AllDigits(s + "0") && Value(s + "0") == 10 * Value(s)
  {
    assert (s + "0")[..|s|] == s && DigitValue('0') == 0;
  }

  lemma {:induction false} ValueShifted(s: string, k: nat)
    requires AllDigits(s)
    ensures AllDigits(s + Zeros(k)) && Value(s + Zeros(k)) == Value(s) * Pow10(k)
  {
    if k == 0 {
      assert s + Zeros(0) == s && Pow10(0) == 1;
    } else {
      ValueShifted(s, k - 1);
      ZerosCommute(k - 1);
      assert Zeros(k) == Zeros(k - 1) + "0" && Pow10(k) == 10 * Pow10(k - 1);
      assert s + Zeros(k) == (s + Zeros(k - 1)) + "0";
      hide Value, Zeros, Pow10, AllDigits;
      ZeroAppended(s + Zeros(k - 1));
      Regroup(Value(s), Pow10(k - 1));
    }
  }

  lemma Regroup(a: int, p: int)
    ensures 10 * (a * p) == a * (10 * p)
  {
  }

  lemma {:induction false} SplitNoDot(whole: string)
    requires AllDigits(whole)
    ensures SplitDot(whole) == (whole, None)
  {
    if whole != "" {
      SplitNoDot(whole[1..]);
      assert whole == [whole[0]] + whole[1..];
    }
  }

  lemma PaddedFraction(frac: string)
    requires Digits(frac, MONEY_SCALE)
    ensures AllDigits((frac + "0000")[..MONEY_SCALE])
    ensures Value((frac + "0000")[..MONEY_SCALE]) == Value(frac) * Pow10(MONEY_SCALE - |frac|)
  {
    var k := MONEY_SCALE - |frac|;
    ZerosAreDigits(k);
    assert "0000"[..k] == Zeros(k) by { FourZeros(k); }
    assert (frac + "0000")[..MONEY_SCALE] == frac + Zeros(k);
    hide Value, Pow10, Zeros;
    ValueShifted(frac, k);
  }

  lemma FourZeros(k: nat)
    requires k <= 4
    ensures "0000"[..k] == Zeros(k)
  {
    assert Zeros(0) == "" && Zeros(1) == "0" && Zeros(2) == "00" && Zeros(3) == "000" && Zeros(4) == "0000";
  }

  lemma BodyOfAmount(negative: bool, whole: string, frac: string)
    requires whole != "" && Digits(whole, MAX_WHOLE_DIGITS)
    ensures Negative(Amount(negative, whole, frac)) == negative
    ensures Body(Amount(negative, whole, frac)) == whole + (if frac == "" then "" else "." + frac)
  {
    assert IsDigit(whole[0]);
  }

  /** What an amount denotes: a fraction of k digits counts in units of 10^-k. */
  lemma UnitsOfAmount(negative: bool, whole: string, frac: string)
    requires whole != "" && Digits(whole, MAX_WHOLE_DIGITS) && Digits(frac, MONEY_SCALE)
    ensures var units := Value(whole) * SCALE + Value(frac) * Pow10(MONEY_SCALE - |frac|);
            ToUnits(Amount(negative, whole, frac)) == Some(if negative then -units else units)
  {
    hide *;
    BodyOfAmount(negative, whole, frac);
    AmountSplits(whole, frac);
    PaddedFraction(frac);
    UnitsOfParts(Amount(negative, whole, frac), negative, whole, frac);
  }

  lemma UnitsOfParts(s: string, negative: bool, whole: string, frac: string)
    requires whole != "" && Digits(whole, MAX_WHOLE_DIGITS) && Digits(frac, MONEY_SCALE) && Negative(s) == negative
    requires SplitDot(Body(s)) == (whole, if frac == "" then None else Some(frac))
    requires AllDigits((frac + "0000")[..MONEY_SCALE])
    ensures var units := Value(whole) * SCALE + Value((frac + "0000")[..MONEY_SCALE]);
            ToUnits(s) == Some(if negative then -units else units)
  {
    hide Value, SplitDot, Body, Negative, AllDigits;
  }

  lemma AmountSplits(whole: string, frac: string)
    requires Digits(whole, MAX_WHOLE_DIGITS)
    ensures SplitDot(whole + (if frac == "" then "" else "." + frac)) ==
            (whole, if frac == "" then None else Some(frac))
  {
    hide AllDigits, SplitDot;
    if frac == "" {
      SplitNoDot(whole);
      assert whole + "" == whole;
    } else {
      SplitDotOfDigits(whole, frac);
      assert whole + ("." + frac) == whole + "." + frac;
    }
  }

  lemma {:induction false} SplitDotJoins(s: string)
    ensures s == SplitDot(s).0 + match SplitDot(s).1 { case None => "" case Some(frac) => "." + frac }
  {
    if s != "" && s[0] != '.' {
      SplitDotJoins(s[1..]);
    }
  }

  /** Nothing else is read: a text is an amount exactly when it is written so, with one to fifteen whole digits and,
      after a dot, one to four more. */
  lemma ReadExactly(s: string)
    ensures ToUnits(s).Some? <==>
            exists negative, whole, frac :: whole != "" && Digits(whole, MAX_WHOLE_DIGITS) &&
                                            Digits(frac, MONEY_SCALE) && s == Amount(negative, whole, frac)
  {
    if negative, whole, frac :| whole != "" && Digits(whole, MAX_WHOLE_DIGITS) && Digits(frac, MONEY_SCALE) &&
                                s == Amount(negative, whole, frac) {
      UnitsOfAmount(negative, whole, frac);
    }
    if ToUnits(s).Some? { WrittenAsAmount(s); }
  }

  lemma WrittenAsAmount(s: string)
    requires ToUnits(s).Some?
    ensures var (whole, frac) := SplitDot(Body(s));
            && s == Amount(Negative(s), whole, frac.GetOr(""))
            && whole != "" && Digits(whole, MAX_WHOLE_DIGITS) && Digits(frac.GetOr(""), MONEY_SCALE)
  {
    hide Value, SplitDot;
    SplitDotJoins(Body(s));
  }
}
