/** The decimal text fields of a detail line (Quantita, PrezzoUnitario,
    PrezzoTotale): the keystroke validator, the focus-out formatter, the
    formatting of the value loaded into the field, and the formatting applied
    when the line is saved back into the document. */
module NumericField {
  import opened Wrappers
  import opened Text

  /** The only numeric field whose integer part is not capped. */
  const UncappedField: string := "PrezzoTotale"

  const NumericFields: seq<string> := ["Quantita", "PrezzoUnitario", "PrezzoTotale"]

  const MaxIntegerDigits: nat := 15
  const FractionDigits: nat := 7

  /** The text a numeric field falls back to. */
  const ZeroValue: string := "0.0000000"

  predicate DigitOrDot(s: string) { forall i :: 0 <= i < |s| ==> IsDigit(s[i]) || s[i] == '.' }

  predicate IntegerPartFits(field: string, ip: string)
  {
    field == UncappedField || |ip| <= MaxIntegerDigits
  }

  /** The keystroke validator: `text` is what the field would hold after the key. */
  function Validate(field: string, text: string): bool
  {
    if text == "" then true
    else if !DigitOrDot(text) then false
    else if CountChar(text, '.') > 1 then false
    else if '.' in text then
      IntegerPartFits(field, Before(text, '.')) && |After(text, '.')| <= FractionDigits
    else IntegerPartFits(field, text)
  }

  /** The shape a field may take while it is edited: digits, optionally
      followed by a dot and at most seven digits. */
  predicate Shaped(field: string, text: string, ip: string, dp: string)
  {
    AllDigits(ip) && AllDigits(dp) && |dp| <= FractionDigits && IntegerPartFits(field, ip)
    && (text == ip + "." + dp || (dp == "" && text == ip))
  }

  lemma {:induction false} DigitsHaveNoDot(s: string)
    requires AllDigits(s)
    ensures '.' !in s && DigitOrDot(s)
  {
  }

  /** The validator accepts exactly the shaped texts (the empty text included). */
  lemma {:induction false} ValidateAcceptsShaped(field: string, text: string, ip: string, dp: string)
    requires Shaped(field, text, ip, dp)
    ensures Validate(field, text)
  {
    DigitsHaveNoDot(ip);
    DigitsHaveNoDot(dp);
    if text == ip + "." + dp {
      BeforeAfterJoin(ip, dp, '.');
      BeforeAfter(text, '.');
      assert CountChar(dp, '.') == 0;
      assert forall i :: 0 <= i < |text| ==> IsDigit(text[i]) || text[i] == '.' by {
        forall i | 0 <= i < |text| ensures IsDigit(text[i]) || text[i] == '.' {
          if i < |ip| { assert text[i] == ip[i]; }
          else if i > |ip| { assert text[i] == dp[i - |ip| - 1]; }
        }
      }
    }
  }

  lemma {:induction false} ValidateOnlyShaped(field: string, text: string)
    requires Validate(field, text)
    ensures exists ip, dp :: Shaped(field, text, ip, dp)
  {
    if text == "" {
      assert Shaped(field, text, "", "");
    } else if '.' in text {
      var ip, dp := Before(text, '.'), After(text, '.');
      BeforeAfter(text, '.');
      assert AllDigits(ip) by {
        forall i | 0 <= i < |ip| ensures IsDigit(ip[i]) { assert ip[i] == text[i] && ip[i] != '.'; }
      }
      assert '.' !in dp;
      assert AllDigits(dp) by {
        forall i | 0 <= i < |dp| ensures IsDigit(dp[i]) { assert dp[i] == text[|ip| + 1 + i]; }
      }
      assert Shaped(field, text, ip, dp);
    } else {
      assert AllDigits(text) by {
        forall i | 0 <= i < |text| ensures IsDigit(text[i]) { assert text[i] != '.'; }
      }
      assert Shaped(field, text, text, "");
    }
  }

  /** `(d + "0000000")[:7]`: exactly seven fractional digits. */
  function Pad7(d: string): (r: string)
    ensures |r| == FractionDigits
    ensures |d| > FractionDigits ==> r == d[..FractionDigits]
    ensures '.' !in d ==> '.' !in r
    ensures ',' !in d ==> ',' !in r
    ensures AllDigits(d) ==> AllDigits(r)
  {
    if |d| <= FractionDigits then d + Zeros(FractionDigits - |d|) else d[..FractionDigits]
  }

  lemma {:induction false} StripZerosKeepsValue(ip: string)
    ensures AllDigits(ip) ==> AllDigits(LStripChar(ip, '0'))
    ensures AllDigits(ip) ==> DigitsValue(LStripChar(ip, '0')) == DigitsValue(ip)
  {
    if AllDigits(ip) { DigitsValueLStripZeros(ip); }
  }

  /** The integer part with its leading zeros removed, `"0"` when none remains. */
  function StripLeadingZeros(ip: string): (r: string)
    ensures r != [] && (r[0] == '0' ==> r == "0")
    ensures '.' !in ip ==> '.' !in r
    ensures ',' !in ip ==> ',' !in r
    ensures |r| <= |ip| || r == "0"
    ensures AllDigits(ip) ==> AllDigits(r) && DigitsValue(r) == DigitsValue(ip)
  {
    if ip != "0" then
      var s := LStripChar(ip, '0');
      StripZerosKeepsValue(ip);
      assert forall k :: 0 <= k < |s| ==> s[k] == ip[|ip| - |s| + k];
      if s == "" then "0" else s
    else ip
  }

  /** The canonical form: one dot, exactly seven digits after it, no
      leading zero before it except a lone `0`. */
  predicate Canonical(t: string)
  {
    ',' !in t && Formatted(t)
  }

  predicate Formatted(t: string)
  {
    CountChar(t, '.') == 1 && |After(t, '.')| == FractionDigits
    && Before(t, '.') != [] && (Before(t, '.')[0] == '0' ==> Before(t, '.') == "0")
  }

  function IntegerPart(v: string): string { if '.' in v then Before(v, '.') else v }

  function FractionPart(v: string): string { if '.' in v then After(v, '.') else "" }

  lemma {:induction false} PartsHaveNoDot(v: string)
    requires CountChar(v, '.') <= 1
    ensures '.' !in IntegerPart(v) && '.' !in FractionPart(v)
  {
    if '.' in v { BeforeAfter(v, '.'); }
  }

  lemma {:induction false} PartsComeFrom(v: string)
    ensures ',' !in v ==> ',' !in IntegerPart(v) && ',' !in FractionPart(v)
  {
    if '.' in v { BeforeAfter(v, '.'); }
  }

  /** The formatting shared by focus-out and the initial display of a
      value with at most one dot. */
  function FormatDecimal(v: string): (r: string)
    requires CountChar(v, '.') <= 1
    ensures Formatted(r)
    ensures Before(r, '.') == StripLeadingZeros(IntegerPart(v))
    ensures After(r, '.') == Pad7(FractionPart(v))
    ensures ',' !in v ==> ',' !in r
  {
    PartsHaveNoDot(v);
    var ip := StripLeadingZeros(IntegerPart(v));
    var dp := Pad7(FractionPart(v));
    PartsComeFrom(v);
    JoinAround(ip, dp, '.');
    NotInJoin(ip, dp, '.', ',');
    ip + "." + dp
  }

  /** The fallback text is in canonical form. */
  lemma {:induction false} ZeroValueCanonical()
    ensures Canonical(ZeroValue)
  {
    var a, b := "0", "0000000";
    assert ZeroValue == a + "." + b;
    BeforeAfterJoin(a, b, '.');
    CountAround(a, '.', b);
  }

  /** The focus-out handler: None when the text has two or more dots (the
      source's `split` raises; the field is flagged and its text kept). */
  function FocusOut(text: string): (r: Option<string>)
    ensures r.None? <==> CountChar(ReplaceChar(text, ',', '.'), '.') > 1
    ensures r.Some? ==> Canonical(r.value)
    ensures ReplaceChar(text, ',', '.') == "" ==> r == Some(ZeroValue)
  {
    var v := ReplaceChar(text, ',', '.');
    if v == "" then
      ZeroValueCanonical();
      Some(ZeroValue)
    else if CountChar(v, '.') > 1 then None
    else
      ReplaceRemoves(text, ',', '.');
      Some(FormatDecimal(v))
  }

  /** The value the field shows when the line is loaded: an empty value
      stays empty and a value the formatter rejects becomes zero. */
  function InitialText(value: string): (r: string)
    ensures value == "" <==> r == ""
    ensures value != "" ==> Formatted(r)
    ensures value != "" && ',' !in value ==> Canonical(r)
    ensures CountChar(value, '.') > 1 ==> r == ZeroValue
  {
    if value == "" then ""
    else if CountChar(value, '.') > 1 then
      ZeroValueCanonical();
      ZeroValue
    else
      var r := FormatDecimal(value);
      assert r != "" by { assert '.' in r; }
      r
  }

  /** Without a comma, a loaded value is shown as focus-out would format it. */
  lemma {:induction false} InitialTextIsFocusOut(value: string)
    requires ',' !in value && value != "" && CountChar(value, '.') <= 1
    ensures Some(InitialText(value)) == FocusOut(value)
  {
    FocusOutNoComma(value);
  }

  /** The magnitude of a shaped text in units of 10^-7. */
  function Scaled(ip: string, dp: string): nat
    requires AllDigits(ip) && AllDigits(dp) && |dp| <= FractionDigits
  {
    DigitsValue(ip) * Pow10(FractionDigits) + DigitsValue(dp) * Pow10(FractionDigits - |dp|)
  }

  lemma {:induction false} SplitOfShaped(field: string, text: string, ip: string, dp: string)
    requires Shaped(field, text, ip, dp)
    ensures CountChar(text, '.') <= 1 && IntegerPart(text) == ip && FractionPart(text) == dp
  {
    DigitsHaveNoDot(ip);
    DigitsHaveNoDot(dp);
    if text == ip + "." + dp {
      BeforeAfterJoin(ip, dp, '.');
      BeforeAfter(text, '.');
    }
  }

  /** Without a comma, focus-out is the shared formatting. */
  lemma {:induction false} FocusOutNoComma(text: string)
    requires ',' !in text && text != "" && CountChar(text, '.') <= 1
    ensures FocusOut(text) == Some(FormatDecimal(text))
  {
    ReplaceAbsent(text, ',', '.');
  }

  lemma {:induction false} FormatDecimalKeepsValue(v: string)
    requires CountChar(v, '.') <= 1
    requires AllDigits(IntegerPart(v)) && AllDigits(FractionPart(v))
    requires |FractionPart(v)| <= FractionDigits
    ensures AllDigits(Before(FormatDecimal(v), '.')) && AllDigits(After(FormatDecimal(v), '.'))
    ensures Scaled(Before(FormatDecimal(v), '.'), After(FormatDecimal(v), '.'))
         == Scaled(IntegerPart(v), FractionPart(v))
  {
    PartsKeepValue(IntegerPart(v), FractionPart(v));
  }

  /** Stripping the integer part's leading zeros and padding the fraction
      to seven digits keep the value. */
  lemma {:induction false} PartsKeepValue(ip: string, dp: string)
    requires AllDigits(ip) && AllDigits(dp) && |dp| <= FractionDigits
    ensures AllDigits(StripLeadingZeros(ip)) && AllDigits(Pad7(dp))
    ensures Scaled(StripLeadingZeros(ip), Pad7(dp)) == Scaled(ip, dp)
  {
    PadKeepsValue(dp);
    ScaledSame(ip, dp, StripLeadingZeros(ip), Pad7(dp));
  }

  /** Padding with zeros scales the fraction's digits by a power of ten. */
  lemma {:induction false} PadKeepsValue(dp: string)
    requires AllDigits(dp) && |dp| <= FractionDigits
    ensures AllDigits(Pad7(dp))
    ensures DigitsValue(Pad7(dp)) == DigitsValue(dp) * Pow10(FractionDigits - |dp|)
  {
    PadAppendsZeros(dp);
    AppendZerosValue(dp, FractionDigits - |dp|);
  }

  lemma {:induction false} PadAppendsZeros(dp: string)
    requires |dp| <= FractionDigits
    ensures Pad7(dp) == dp + Zeros(FractionDigits - |dp|)
  {
  }

  lemma {:induction false} AppendZerosValue(dp: string, e: nat)
    requires AllDigits(dp)
    ensures AllDigits(dp + Zeros(e)) && DigitsValue(dp + Zeros(e)) == DigitsValue(dp) * Pow10(e)
  {
    DigitsValueAppendZeros(dp, e);
  }

  /** Two shapes with the same integer value and the same fraction, the
      second padded to seven digits, have the same magnitude. */
  lemma {:induction false} ScaledSame(ip: string, dp: string, ip2: string, dp2: string)
    requires AllDigits(ip) && AllDigits(dp) && |dp| <= FractionDigits
    requires AllDigits(ip2) && AllDigits(dp2) && |dp2| == FractionDigits
    requires DigitsValue(ip2) == DigitsValue(ip)
    requires DigitsValue(dp2) == DigitsValue(dp) * Pow10(FractionDigits - |dp|)
    ensures Scaled(ip2, dp2) == Scaled(ip, dp)
  {
    assert Pow10(FractionDigits - |dp2|) == 1;
  }

  /** Focus-out keeps the value of every text the validator lets through. */
  lemma {:induction false} FocusOutKeepsValue(field: string, text: string, ip: string, dp: string)
    requires Shaped(field, text, ip, dp) && text != ""
    ensures FocusOut(text).Some?
    ensures AllDigits(Before(FocusOut(text).value, '.'))
    ensures AllDigits(After(FocusOut(text).value, '.'))
    ensures Scaled(Before(FocusOut(text).value, '.'), After(FocusOut(text).value, '.')) == Scaled(ip, dp)
  {
    NoCommaInShaped(field, text, ip, dp);
    SplitOfShaped(field, text, ip, dp);
    FocusOutNoComma(text);
    FormatDecimalKeepsValue(text);
  }

  lemma {:induction false} NoCommaInShaped(field: string, text: string, ip: string, dp: string)
    requires Shaped(field, text, ip, dp)
    ensures ',' !in text
  {
    ValidateAcceptsShaped(field, text, ip, dp);
    if text != "" {
      assert forall i :: 0 <= i < |text| ==> text[i] != ',';
    }
  }

  /** Formatting on focus-out never breaks the validator's rules. */
  lemma {:induction false} FocusOutKeepsValid(field: string, text: string)
    requires Validate(field, text) && text != ""
    ensures FocusOut(text).Some? && Validate(field, FocusOut(text).value)
  {
    ValidateOnlyShaped(field, text);
    var ip, dp :| Shaped(field, text, ip, dp);
    NoCommaInShaped(field, text, ip, dp);
    SplitOfShaped(field, text, ip, dp);
    FocusOutNoComma(text);
    FormatDecimalKeepsValue(text);
    var r := FormatDecimal(text);
    BeforeAfter(r, '.');
    ValidateAcceptsShaped(field, r, Before(r, '.'), After(r, '.'));
  }

  /** Formatting an already formatted value changes nothing. */
  lemma {:induction false} FocusOutIdempotent(text: string)
    requires FocusOut(text).Some?
    ensures FocusOut(FocusOut(text).value) == FocusOut(text)
  {
    var r := FocusOut(text).value;
    CanonicalIsFixed(r);
  }

  lemma {:induction false} CanonicalIsFixed(r: string)
    requires Canonical(r)
    ensures FocusOut(r) == Some(r)
  {
    BeforeAfter(r, '.');
    var ip, dp := Before(r, '.'), After(r, '.');
    ReplaceAbsent(r, ',', '.');
    assert IntegerPart(r) == ip && FractionPart(r) == dp;
    CanonicalPartsFixed(ip, dp);
    assert FormatDecimal(r) == ip + "." + dp;
  }

  /** The parts of a canonical text are already stripped and padded. */
  lemma {:induction false} CanonicalPartsFixed(ip: string, dp: string)
    requires ip != [] && (ip[0] == '0' ==> ip == "0") && |dp| == FractionDigits
    ensures StripLeadingZeros(ip) == ip && Pad7(dp) == dp
  {
    if ip != "0" {
      assert LStripChar(ip, '0') == ip;
    }
  }

  /** The last fifteen digits of the integer part, except for PrezzoTotale. */
  function KeptIntegerPart(field: string, ip: string): (r: string)
    ensures IntegerPartFits(field, r)
    ensures |r| <= |ip| && r == ip[|ip| - |r|..]
    ensures |ip| <= MaxIntegerDigits || field == UncappedField ==> r == ip
  {
    if field != UncappedField && |ip| > MaxIntegerDigits then ip[|ip| - MaxIntegerDigits..] else ip
  }

  /** The text written back into the document when the line is saved:
      None where the source's `split` raises and the element keeps its old
      text. Numeric fields get exactly seven decimals; when a dot is present,
      fields other than PrezzoTotale keep only the last fifteen integer
      digits, and a value without a dot is never truncated. */
  function SaveText(field: string, value: string): (r: Option<string>)
    ensures field !in NumericFields ==> r == Some(value)
    ensures field in NumericFields && value == "" ==> r == Some("")
    ensures r.None? <==> field in NumericFields && CountChar(value, '.') > 1
    ensures field in NumericFields && value != "" && '.' !in value ==>
      r == Some(value + "." + Zeros(FractionDigits))
    ensures field in NumericFields && CountChar(value, '.') == 1 ==>
      r == Some(KeptIntegerPart(field, Before(value, '.')) + "." + Pad7(After(value, '.')))
  {
    if field !in NumericFields || value == "" then Some(value)
    else if '.' in value then
      if CountChar(value, '.') > 1 then None
      else Some(KeptIntegerPart(field, Before(value, '.')) + "." + Pad7(After(value, '.')))
    else Some(value + "." + Zeros(FractionDigits))
  }

  /** A saved numeric value has one dot and seven decimals, and when the
      source value had a dot its integer part fits the field. */
  lemma {:induction false} SavedShape(field: string, value: string)
    requires field in NumericFields && value != "" && SaveText(field, value).Some?
    ensures CountChar(SaveText(field, value).value, '.') == 1
    ensures |After(SaveText(field, value).value, '.')| == FractionDigits
    ensures '.' in value ==> IntegerPartFits(field, Before(SaveText(field, value).value, '.'))
    ensures '.' in value ==> After(SaveText(field, value).value, '.') == Pad7(FractionPart(value))
  {
    if '.' in value {
      BeforeAfter(value, '.');
      var kept := KeptIntegerPart(field, Before(value, '.'));
      assert '.' !in kept by {
        assert forall k :: 0 <= k < |kept| ==> kept[k] == Before(value, '.')[|Before(value, '.')| - |kept| + k];
      }
      PadHasNoDot(After(value, '.'));
      JoinAround(kept, Pad7(After(value, '.')), '.');
    } else {
      JoinAround(value, Zeros(FractionDigits), '.');
    }
  }

  lemma {:induction false} PadHasNoDot(d: string)
    requires '.' !in d
    ensures '.' !in Pad7(d)
  {
  }

  /** What focus-out produced from a validated text is saved unchanged. */
  lemma {:induction false} SaveKeepsFocusOutText(field: string, text: string)
    requires field in NumericFields && Validate(field, text) && text != ""
    ensures FocusOut(text).Some? && SaveText(field, FocusOut(text).value) == FocusOut(text)
  {
    FocusOutKeepsValid(field, text);
    var r := FocusOut(text).value;
    BeforeAfter(r, '.');
    assert IntegerPartFits(field, Before(r, '.'));
    assert Pad7(After(r, '.')) == After(r, '.');
  }

  /** Saving a saved value again changes nothing, unless the first save
      appended decimals to an over-long integer without a dot (the second
      save then cuts it to fifteen digits). */
  lemma {:induction false} SaveIdempotent(field: string, value: string)
    requires SaveText(field, value).Some?
    requires '.' in value || IntegerPartFits(field, value)
    ensures SaveText(field, SaveText(field, value).value) == SaveText(field, value)
  {
    if field in NumericFields && value != "" {
      var r := SaveText(field, value).value;
      SavedShape(field, value);
      BeforeAfter(r, '.');
      var ip := Before(r, '.');
      if '.' in value {
        assert IntegerPartFits(field, ip);
      } else {
        JoinAround(value, Zeros(FractionDigits), '.');
        assert ip == value;
      }
      assert KeptIntegerPart(field, ip) == ip;
      assert Pad7(After(r, '.')) == After(r, '.');
    }
  }
}
