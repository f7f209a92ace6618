/** Python string operations the source relies on, written out over
    `seq<char>`: digit tests, counting, stripping, splitting and joining,
    case mapping, `str(int)` and `int(str)`. */
module Text {
  import opened Wrappers

  predicate IsDigit(c: char) { '0' <= c <= '9' }

  predicate AllDigits(s: string) { forall i :: 0 <= i < |s| ==> IsDigit(s[i]) }

  predicate IsAsciiLetter(c: char) { 'a' <= c <= 'z' || 'A' <= c <= 'Z' }

  /** Whitespace as Python's `str.isspace` sees it: what `strip()` removes. */
  predicate IsSpace(c: char) {
    c == ' ' || c == '\t' || c == '\n' || c == '\r' || c == '\U{B}' || c == '\U{C}'
    || ('\U{1C}' <= c <= '\U{1F}') || c == '\U{85}' || c == '\U{A0}' || c == '\U{1680}'
    || ('\U{2000}' <= c <= '\U{200A}') || c == '\U{2028}' || c == '\U{2029}'
    || c == '\U{202F}' || c == '\U{205F}' || c == '\U{3000}'
  }

  /** `not s or not s.strip()`: the string is empty or only whitespace. */
  predicate IsBlank(s: string) { forall i :: 0 <= i < |s| ==> IsSpace(s[i]) }

  function CountChar(s: string, c: char): (n: nat)
    ensures n <= |s|
    ensures n == 0 <==> c !in s
  {
    if s == [] then 0 else (if s[0] == c then 1 else 0) + CountChar(s[1..], c)
  }

  /** Index of the first occurrence of `c`. */
  function IndexOf(s: string, c: char): (i: nat)
    requires c in s
    ensures i < |s| && s[i] == c && c !in s[..i]
  {
    if s[0] == c then 0 else 1 + IndexOf(s[1..], c)
  }

  /** The part before the first `c`, as `s.split(c)[0]`. */
  function Before(s: string, c: char): string
    requires c in s
  {
    s[..IndexOf(s, c)]
  }

  /** The part after the first `c`. */
  function After(s: string, c: char): string
    requires c in s
  {
    s[IndexOf(s, c) + 1..]
  }

  /** `s` cut around its element at `i`. */
  lemma {:induction false} SplitAround<T>(s: seq<T>, i: nat)
    requires i < |s|
    ensures s == s[..i] + [s[i]] + s[i + 1..]
  {
  }

  lemma {:induction false} CountAround(a: string, c: char, b: string)
    ensures CountChar(a + [c] + b, c) == CountChar(a, c) + 1 + CountChar(b, c)
  {
    CountSplit(a + [c], b, c);
    CountSplit(a, [c], c);
  }

  lemma {:induction false} BeforeAfter(s: string, c: char)
    requires c in s
    ensures s == Before(s, c) + [c] + After(s, c)
    ensures c !in Before(s, c)
    ensures CountChar(s, c) == 1 + CountChar(After(s, c), c)
  {
    var i := IndexOf(s, c);
    SplitAround(s, i);
    CountAround(s[..i], s[i], s[i + 1..]);
  }

  /** Splitting `a + [c] + b` at its first `c` when `a` holds none. */
  lemma {:induction false} BeforeAfterJoin(a: string, b: string, c: char)
    requires c !in a
    ensures c in a + [c] + b
    ensures Before(a + [c] + b, c) == a && After(a + [c] + b, c) == b
  {
    var s := a + [c] + b;
    assert s[|a|] == c;
    assert s[..|a|] == a;
    assert s[|a| + 1..] == b;
  }

  /** `a + [c] + b` with no `c` in `a` or `b` has exactly one `c`, between them. */
  lemma {:induction false} JoinAround(a: string, b: string, c: char)
    requires c !in a && c !in b
    ensures CountChar(a + [c] + b, c) == 1
    ensures c in a + [c] + b && Before(a + [c] + b, c) == a && After(a + [c] + b, c) == b
  {
    BeforeAfterJoin(a, b, c);
    BeforeAfter(a + [c] + b, c);
  }

  /** A character in neither part nor the separator is not in the join. */
  lemma {:induction false} NotInJoin(a: string, b: string, c: char, x: char)
    ensures x != c && x !in a && x !in b ==> x !in a + [c] + b
  {
  }

  lemma {:induction false} CountSplit(a: string, b: string, c: char)
    ensures CountChar(a + b, c) == CountChar(a, c) + CountChar(b, c)
  {
    if a != [] {
      assert (a + b)[1..] == a[1..] + b;
      assert (a + b)[0] == a[0];
      CountSplit(a[1..], b, c);
    } else {
      assert a + b == b;
    }
  }

  /** `s.lstrip(c)` for a single character. */
  function LStripChar(s: string, c: char): (r: string)
    ensures |r| <= |s| && r == s[|s| - |r|..]
    ensures r == [] || r[0] != c
    ensures forall i :: 0 <= i < |s| - |r| ==> s[i] == c
  {
    if s != [] && s[0] == c then
      var r := LStripChar(s[1..], c);
      assert forall i :: 1 <= i < |s| ==> s[i] == s[1..][i - 1];
      r
    else s
  }

  /** `s.rstrip(c)` for a single character. */
  function RStripChar(s: string, c: char): (r: string)
    ensures |r| <= |s| && r == s[..|r|]
    ensures r == [] || r[|r| - 1] != c
  {
    if s != [] && s[|s| - 1] == c then RStripChar(s[..|s| - 1], c) else s
  }

  /** `s.strip()` with no argument. */
  function Strip(s: string): (r: string)
    ensures |r| <= |s|
    ensures r == [] || (!IsSpace(r[0]) && !IsSpace(r[|r| - 1]))
  {
    if s != [] && IsSpace(s[0]) then Strip(s[1..])
    else if s != [] && IsSpace(s[|s| - 1]) then Strip(s[..|s| - 1])
    else s
  }

  lemma {:induction false} StripEmptyIffBlank(s: string)
    ensures Strip(s) == [] <==> IsBlank(s)
  {
    if s != [] && IsSpace(s[0]) {
      StripEmptyIffBlank(s[1..]);
      assert IsBlank(s) <==> IsBlank(s[1..]) by {
        assert forall i :: 0 < i < |s| ==> s[i] == s[1..][i - 1];
      }
    } else if s != [] && IsSpace(s[|s| - 1]) {
      StripEmptyIffBlank(s[..|s| - 1]);
    }
  }

  /** `s.replace(a, b)` for single characters. */
  function ReplaceChar(s: string, a: char, b: char): (r: string)
    ensures |r| == |s|
    ensures forall i :: 0 <= i < |s| ==> r[i] == (if s[i] == a then b else s[i])
  {
    if s == [] then [] else [if s[0] == a then b else s[0]] + ReplaceChar(s[1..], a, b)
  }

  /** After replacing `a` by another character, no `a` is left. */
  lemma {:induction false} ReplaceRemoves(s: string, a: char, b: char)
    requires a != b
    ensures a !in ReplaceChar(s, a, b)
  {
    var r := ReplaceChar(s, a, b);
    assert forall i :: 0 <= i < |r| ==> r[i] != a;
  }

  lemma {:induction false} ReplaceAbsent(s: string, a: char, b: char)
    requires a !in s
    ensures ReplaceChar(s, a, b) == s
  {
    if s != [] {
      ReplaceAbsent(s[1..], a, b);
      assert s == [s[0]] + s[1..];
    }
  }

  predicate StartsWith(s: string, p: string) { |p| <= |s| && s[..|p|] == p }

  /** `sub in s` (equivalently `s.find(sub) != -1`). */
  predicate Contains(s: string, sub: string)
  {
    StartsWith(s, sub) || (s != [] && Contains(s[1..], sub))
  }

  lemma {:induction false} StartsWithTrans(a: string, b: string, c: string)
    requires StartsWith(a, b) && StartsWith(b, c)
    ensures StartsWith(a, c)
  {
    assert a[..|c|] == a[..|b|][..|c|];
  }

  /** An occurrence at any position makes the string contain `sub`. */
  lemma {:induction false} ContainsSuffix(s: string, i: nat, sub: string)
    requires i <= |s| && StartsWith(s[i..], sub)
    ensures Contains(s, sub)
  {
    if i > 0 {
      assert s[1..][i - 1..] == s[i..];
      ContainsSuffix(s[1..], i - 1, sub);
    }
  }

  lemma {:induction false} StartsWithContains(s: string, p: string)
    requires StartsWith(s, p)
    ensures Contains(s, p)
  {
  }

  /** `c.lower()` on the Latin-1 range. */
  function LowerChar(c: char): char
  {
    if 'A' <= c <= 'Z' || ('\U{C0}' <= c <= '\U{D6}') || ('\U{D8}' <= c <= '\U{DE}')
    then (c as int + 32) as char
    else c
  }

  function Lower(s: string): (r: string)
    ensures |r| == |s|
    ensures forall i :: 0 <= i < |s| ==> r[i] == LowerChar(s[i])
  {
    if s == [] then [] else [LowerChar(s[0])] + Lower(s[1..])
  }

  /** `c.upper()` on the Latin-1 range; the sharp s becomes two letters. */
  function UpperChar(c: char): string
  {
    if 'a' <= c <= 'z' || ('\U{E0}' <= c <= '\U{F6}') || ('\U{F8}' <= c <= '\U{FE}')
    then [(c as int - 32) as char]
    else if c == '\U{DF}' then "SS"
    else if c == '\U{FF}' then "\U{178}"
    else if c == '\U{B5}' then "\U{39C}"
    else [c]
  }

  function Upper(s: string): string
  {
    if s == [] then [] else UpperChar(s[0]) + Upper(s[1..])
  }

  lemma {:induction false} UpperLength(s: string)
    requires '\U{DF}' !in s
    ensures |Upper(s)| == |s|
  {
    if s != [] { UpperLength(s[1..]); }
  }

  /** Capital ASCII letters and spaces are left alone by `upper()`. */
  lemma {:induction false} UpperOfCapitals(s: string)
    requires forall i :: 0 <= i < |s| ==> 'A' <= s[i] <= 'Z' || s[i] == ' '
    ensures Upper(s) == s
  {
    if s != [] {
      UpperOfCapitals(s[1..]);
      UpperCharCapital(s[0]);
      assert s == [s[0]] + s[1..];
    }
  }

  lemma {:induction false} UpperCharCapital(c: char)
    requires 'A' <= c <= 'Z' || c == ' '
    ensures UpperChar(c) == [c]
  {
  }

  lemma {:induction false} ContainsSelf(s: string)
    ensures Contains(s, s)
  {
    assert s[..|s|] == s;
  }

  lemma {:induction false} ContainsLength(s: string, sub: string)
    requires Contains(s, sub)
    ensures |sub| <= |s|
  {
    if !StartsWith(s, sub) { ContainsLength(s[1..], sub); }
  }

  function DigitChar(d: nat): char
    requires d < 10
  {
    ('0' as int + d) as char
  }

  function DigitValue(c: char): nat
    requires IsDigit(c)
  {
    c as int - '0' as int
  }

  /** The numeric value of a string of decimal digits. */
  function DigitsValue(s: string): nat
    requires AllDigits(s)
  {
    if s == [] then 0 else 10 * DigitsValue(s[..|s| - 1]) + DigitValue(s[|s| - 1])
  }

  function Pow10(n: nat): (r: nat)
    ensures r >= 1
  {
    if n == 0 then 1 else 10 * Pow10(n - 1)
  }

  /** `"0" * n`. */
  function Zeros(n: nat): (r: string)
    ensures |r| == n && AllDigits(r) && '.' !in r
    ensures forall i :: 0 <= i < n ==> r[i] == '0'
  {
    if n == 0 then "" else Zeros(n - 1) + "0"
  }

  lemma {:induction false} AllDigitsConcat(a: string, b: string)
    requires AllDigits(a) && AllDigits(b)
    ensures AllDigits(a + b)
  {
    assert forall i :: |a| <= i < |a + b| ==> (a + b)[i] == b[i - |a|];
  }

  /** Trailing zeros scale the value by a power of ten. */
  lemma {:induction false} DigitsValueAppendZeros(s: string, n: nat)
    requires AllDigits(s)
    ensures AllDigits(s + Zeros(n))
    ensures DigitsValue(s + Zeros(n)) == DigitsValue(s) * Pow10(n)
  {
    AllDigitsConcat(s, Zeros(n));
    if n > 0 {
      DigitsValueAppendZeros(s, n - 1);
      var t := s + Zeros(n);
      assert t[..|t| - 1] == s + Zeros(n - 1);
      assert t[|t| - 1] == '0';
      calc {
        DigitsValue(t);
        10 * DigitsValue(s + Zeros(n - 1));
        10 * (DigitsValue(s) * Pow10(n - 1));
        { MulAssoc(DigitsValue(s), Pow10(n - 1)); }
        DigitsValue(s) * Pow10(n);
      }
    } else {
      assert s + Zeros(n) == s;
    }
  }

  lemma {:induction false} MulAssoc(x: nat, y: nat)
    ensures 10 * (x * y) == x * (10 * y)
  {
  }

  /** Leading zeros do not change the value. */
  lemma {:induction false} DigitsValuePrependZero(s: string)
    requires AllDigits(s)
    ensures AllDigits("0" + s) && DigitsValue("0" + s) == DigitsValue(s)
  {
    AllDigitsConcat("0", s);
    if s != [] {
      var t := "0" + s;
      assert t[..|t| - 1] == "0" + s[..|s| - 1];
      assert t[|t| - 1] == s[|s| - 1];
      DigitsValuePrependZero(s[..|s| - 1]);
    }
  }

  lemma {:induction false} DigitsValueLStripZeros(s: string)
    requires AllDigits(s)
    ensures AllDigits(LStripChar(s, '0'))
    ensures DigitsValue(LStripChar(s, '0')) == DigitsValue(s)
  {
    if s != [] && s[0] == '0' {
      assert s == "0" + s[1..];
      DigitsValueLStripZeros(s[1..]);
      DigitsValuePrependZero(s[1..]);
    }
  }

  /** `str(n)` for a natural number. */
  function NatToString(n: nat): (r: string)
    ensures r != [] && AllDigits(r)
    ensures r[0] == '0' ==> n == 0 && r == "0"
  {
    if n < 10 then [DigitChar(n)] else NatToString(n / 10) + [DigitChar(n % 10)]
  }

  lemma {:induction false} NatToStringValue(n: nat)
    ensures DigitsValue(NatToString(n)) == n
  {
    if n >= 10 {
      var s := NatToString(n);
      assert s[..|s| - 1] == NatToString(n / 10);
      NatToStringValue(n / 10);
    }
  }

  /** `str(i)` for any integer. */
  function IntToString(i: int): string
  {
    if i < 0 then "-" + NatToString(-i) else NatToString(i)
  }

  /** `int(s)`: surrounding whitespace, an optional sign, then decimal
      digits; None where Python raises ValueError. */
  function ParseInt(s: string): (r: Option<int>)
    ensures r.Some? ==> Strip(s) != []
  {
    var t := Strip(s);
    if t == [] then None
    else if (t[0] == '-' || t[0] == '+') && |t| > 1 && AllDigits(t[1..]) then
      Some(if t[0] == '-' then -(DigitsValue(t[1..]) as int) else DigitsValue(t[1..]))
    else if AllDigits(t) then Some(DigitsValue(t))
    else None
  }

  lemma {:induction false} ParseIntOfNat(n: nat)
    ensures ParseInt(NatToString(n)) == Some(n)
  {
    var s := NatToString(n);
    assert Strip(s) == s by {
      assert !IsSpace(s[0]) && !IsSpace(s[|s| - 1]);
    }
    NatToStringValue(n);
  }

  /** `s.split(c)`: the pieces between occurrences of `c`, empty ones included. */
  function Split(s: string, c: char): (r: seq<string>)
    ensures |r| >= 1
    ensures forall k :: 0 <= k < |r| ==> c !in r[k]
  {
    if s == [] then [""]
    else if s[0] == c then [""] + Split(s[1..], c)
    else var t := Split(s[1..], c); [[s[0]] + t[0]] + t[1..]
  }

  /** `sep.join(parts)`. */
  function Join(parts: seq<string>, sep: string): string
  {
    if parts == [] then ""
    else if |parts| == 1 then parts[0]
    else parts[0] + sep + Join(parts[1..], sep)
  }

  /** Splitting a joined list gives the list back when no piece holds the separator. */
  lemma {:induction false} SplitJoin(parts: seq<string>, c: char)
    requires |parts| >= 1
    requires forall k :: 0 <= k < |parts| ==> c !in parts[k]
    ensures Split(Join(parts, [c]), c) == parts
  {
    if |parts| == 1 {
      SplitNoSep(parts[0], c);
    } else {
      SplitJoin(parts[1..], c);
      SplitPrefix(parts[0], Join(parts[1..], [c]), c);
    }
  }

  lemma {:induction false} SplitNoSep(s: string, c: char)
    requires c !in s
    ensures Split(s, c) == [s]
  {
    if s != [] {
      SplitNoSep(s[1..], c);
      assert [s[0]] + s[1..] == s;
    }
  }

  lemma {:induction false} SplitPrefix(a: string, b: string, c: char)
    requires c !in a
    ensures Split(a + [c] + b, c) == [a] + Split(b, c)
  {
    if a == [] {
      assert a + [c] + b == [c] + b;
      assert ([c] + b)[1..] == b;
    } else {
      assert (a + [c] + b)[1..] == a[1..] + [c] + b;
      SplitPrefix(a[1..], b, c);
      assert [a[0]] + a[1..] == a;
    }
  }

  /** Joining the pieces of a split gives the string back. */
  lemma {:induction false} JoinSplit(s: string, c: char)
    ensures Join(Split(s, c), [c]) == s
  {
    if s == [] {
    } else if s[0] == c {
      JoinSplit(s[1..], c);
      assert s == [c] + s[1..];
    } else {
      var t := Split(s[1..], c);
      JoinSplit(s[1..], c);
      if |t| == 1 {
      } else {
        assert Join([[s[0]] + t[0]] + t[1..], [c]) == [s[0]] + t[0] + [c] + Join(t[1..], [c]);
        assert Join(t, [c]) == t[0] + [c] + Join(t[1..], [c]);
        assert s == [s[0]] + s[1..];
      }
    }
  }

  /** A string holding the separator splits into at least two pieces, the
      first being the part before the separator. */
  lemma {:induction false} SplitAtSeparator(s: string, c: char)
    requires c in s
    ensures Split(s, c) == [Before(s, c)] + Split(After(s, c), c)
    ensures |Split(s, c)| >= 2
  {
    BeforeAfter(s, c);
    SplitPrefix(Before(s, c), After(s, c), c);
  }

  lemma {:induction false} ParseIntOfInt(i: int)
    ensures ParseInt(IntToString(i)) == Some(i)
  {
    if i >= 0 {
      ParseIntOfNat(i);
    } else {
      var d := NatToString(-i);
      var s := "-" + d;
      assert Strip(s) == s by {
        assert !IsSpace(s[0]) && s[|s| - 1] == d[|d| - 1] && !IsSpace(s[|s| - 1]);
      }
      assert s[1..] == d;
      NatToStringValue(-i);
    }
  }

  /** `s.split(sep)` for a separator of any length: scanning from the left,
      each occurrence ends a piece and is skipped. */
  function SplitOn(s: string, sep: string): (r: seq<string>)
    requires sep != []
    ensures |r| >= 1
  {
    if s == [] then [""]
    else if StartsWith(s, sep) then [""] + SplitOn(s[|sep|..], sep)
    else var t := SplitOn(s[1..], sep); [[s[0]] + t[0]] + t[1..]
  }

  /** The pieces of a string that does not contain the separator: itself. */
  lemma {:induction false} SplitOnAbsent(s: string, sep: string)
    requires sep != [] && !Contains(s, sep)
    ensures SplitOn(s, sep) == [s]
  {
    if s != [] {
      SplitOnAbsent(s[1..], sep);
      assert [s[0]] + s[1..] == s;
    }
  }

  /** `"  " * (n + 1)` is `"  " * n` followed by two more spaces. */
  lemma {:induction false} SpacesSnoc(n: nat)
    ensures Spaces(n) + "  " == Spaces(n + 1)
  {
    if n > 0 {
      SpacesSnoc(n - 1);
      assert Spaces(n) + "  " == "  " + (Spaces(n - 1) + "  ");
    }
  }

  /** `"  " * n`. */
  function Spaces(n: nat): (r: string)
    ensures |r| == 2 * n && IsBlank(r)
  {
    if n == 0 then "" else "  " + Spaces(n - 1)
  }
}
