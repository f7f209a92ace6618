/** The VAT rate shown in the AliquotaIVA combo boxes: the stored value when
    it is one of the offered rates, otherwise the offered rate nearest to it,
    and 22.00 when there is no usable value. Rates are compared exactly, as
    integers, instead of through binary floating point. */
module VatRate {
  import opened Wrappers
  import opened Text

  /** The rates the combo box offers, in list order. */
  const Rates: seq<string> := ["4.00", "5.00", "10.00", "22.00"]

  /** The same rates in hundredths of a percent point. */
  const RateHundredths: seq<nat> := [400, 500, 1000, 2200]

  const DefaultRate: string := "22.00"

  /** A decimal literal: (-1)^negative * mantissa / 10^scale. */
  datatype Decimal = Decimal(negative: bool, mantissa: nat, scale: nat)

  predicate DigitsWithOptionalDot(s: string)
  {
    CountChar(s, '.') <= 1 && (forall i :: 0 <= i < |s| ==> IsDigit(s[i]) || s[i] == '.')
    && exists i :: 0 <= i < |s| && IsDigit(s[i])
  }

  /** The digits of `s` with its dot removed. */
  function WithoutDot(s: string): (r: string)
    requires forall i :: 0 <= i < |s| ==> IsDigit(s[i]) || s[i] == '.'
    ensures AllDigits(r)
  {
    if s == [] then []
    else if s[0] == '.' then WithoutDot(s[1..])
    else [s[0]] + WithoutDot(s[1..])
  }

  /** `float(s)` for plain decimal literals: surrounding whitespace, an
      optional sign, digits with at most one dot and at least one digit.
      None where Python raises ValueError. */
  function ParseDecimal(s: string): (r: Option<Decimal>)
    ensures Strip(s) == "" ==> r.None?
  {
    var t := Strip(s);
    if t == [] then None
    else
      var negative := t[0] == '-';
      var body := if t[0] == '-' || t[0] == '+' then t[1..] else t;
      if !DigitsWithOptionalDot(body) then None
      else
        var scale := if '.' in body then |After(body, '.')| else 0;
        Some(Decimal(negative, DigitsValue(WithoutDot(body)), scale))
  }

  /** |rate/100 - d| scaled by 100 * 10^scale, so that it is an integer. */
  function Distance(rateHundredths: nat, d: Decimal): nat
  {
    var a := rateHundredths * Pow10(d.scale);
    var b: int := 100 * d.mantissa;
    var diff := if d.negative then a + b else a - b;
    if diff < 0 then -diff else diff
  }

  /** Python's `min` over indices: the first index holding the least value. */
  function ArgMin(ds: seq<nat>): (i: nat)
    requires |ds| > 0
    ensures i < |ds|
    ensures forall j :: 0 <= j < |ds| ==> ds[i] <= ds[j]
    ensures forall j :: 0 <= j < i ==> ds[j] > ds[i]
  {
    if |ds| == 1 then 0
    else
      var k := ArgMin(ds[..|ds| - 1]);
      if ds[|ds| - 1] < ds[k] then |ds| - 1 else k
  }

  function Distances(d: Decimal): (ds: seq<nat>)
    ensures |ds| == |RateHundredths|
    ensures forall j :: 0 <= j < |ds| ==> ds[j] == Distance(RateHundredths[j], d)
  {
    [Distance(400, d), Distance(500, d), Distance(1000, d), Distance(2200, d)]
  }

  /** The rate the combo box shows for a stored AliquotaIVA text. */
  function DisplayedRate(value: string): (r: string)
    ensures r in Rates
    ensures value in Rates ==> r == value
    ensures value !in Rates && ParseDecimal(value).None? ==> r == DefaultRate
    ensures value !in Rates && ParseDecimal(value).Some? ==>
      exists i :: 0 <= i < |Rates| && r == Rates[i] && IsNearest(i, ParseDecimal(value).value)
  {
    if value in Rates then value
    else if value == "" then DefaultRate
    else match ParseDecimal(value)
      case None => DefaultRate
      case Some(d) =>
        var i := ArgMin(Distances(d));
        assert IsNearest(i, d);
        Rates[i]
  }

  /** Rate `i` is at least as close to `d` as every other rate, and strictly
      closer than every rate listed before it. */
  predicate IsNearest(i: nat, d: Decimal)
  {
    i < |RateHundredths|
    && (forall j :: 0 <= j < |RateHundredths| ==> Distance(RateHundredths[i], d) <= Distance(RateHundredths[j], d))
    && (forall j :: 0 <= j < i ==> Distance(RateHundredths[j], d) > Distance(RateHundredths[i], d))
  }

  /** There is only one nearest rate in this sense, so the choice is determined. */
  lemma {:induction false} NearestUnique(i: nat, k: nat, d: Decimal)
    requires IsNearest(i, d) && IsNearest(k, d)
    ensures i == k
  {
    assert Distance(RateHundredths[i], d) <= Distance(RateHundredths[k], d);
    assert Distance(RateHundredths[k], d) <= Distance(RateHundredths[i], d);
  }

  /** A value halfway between 5 and 10 gets the first of the two. */
  lemma {:induction false} TieGoesToFirst()
    ensures IsNearest(1, Decimal(false, 75, 1))
  {
    assert Distance(400, Decimal(false, 75, 1)) == 3500;
    assert Distance(500, Decimal(false, 75, 1)) == 2500;
    assert Distance(1000, Decimal(false, 75, 1)) == 2500;
    assert Distance(2200, Decimal(false, 75, 1)) == 14500;
  }
}
