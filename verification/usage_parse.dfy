/**
 Conversion of a usage cell such as "1.234 kWh" into a number: the last four
 characters are cut off and the rest goes through Python's `float`
 (compile_data.py, line 48).
 */
module UsageParse {
  import opened Results

  /** The unit suffix the provider appends, four characters long. */
  const Unit: string := " kWh"
  const SuffixLength: nat := 4

  /** Python's `s[:-4]`: all but the last four characters, and the empty
      string when there are fewer than four. */
  function DropSuffix(s: string): (t: string)
    ensures |s| >= SuffixLength ==> |t| == |s| - SuffixLength && t + s[|t|..] == s
    ensures |s| < SuffixLength ==> t == ""
  {
    if |s| >= SuffixLength then s[..|s| - SuffixLength] else ""
  }

  predicate IsDigit(c: char) {
    '0' <= c <= '9'
  }

  predicate AllDigits(s: string) {
    forall i :: 0 <= i < |s| ==> IsDigit(s[i])
  }

  /** The white space Python's `float` ignores around a numeral (ASCII part). */
  predicate IsSpace(c: char) {
    c == ' ' || c == '\t' || c == '\n' || c == '\r' || c == '\U{B}' || c == '\U{C}'
  }

  function DigitValue(c: char): (d: nat)
    requires IsDigit(c)
    ensures d < 10
  {
    (c as int) - ('0' as int)
  }

  function DigitChar(d: nat): (c: char)
    requires d < 10
    ensures IsDigit(c) && DigitValue(c) == d
  {
    (('0' as int) + d) as char
  }

  function Pow10(k: nat): (p: nat)
    ensures p >= 1
  {
    if k == 0 then 1 else 10 * Pow10(k - 1)
  }

  /** The value of a string of decimal digits, most significant first. */
  function DigitsValue(s: string): nat
    requires AllDigits(s)
  {
    if |s| == 0 then 0 else 10 * DigitsValue(s[..|s| - 1]) + DigitValue(s[|s| - 1])
  }

  predicate NoSpace(s: string) {
    forall i :: 0 <= i < |s| ==> !IsSpace(s[i])
  }

  /** Removes leading white space. */
  function TrimStart(s: string): (t: string)
    ensures |t| > 0 ==> !IsSpace(t[0])
  {
    if |s| > 0 && IsSpace(s[0]) then TrimStart(s[1..]) else s
  }

  /** Removes trailing white space. */
  function TrimEnd(s: string): (t: string)
    ensures |t| > 0 ==> !IsSpace(t[|t| - 1])
  {
    if |s| > 0 && IsSpace(s[|s| - 1]) then TrimEnd(s[..|s| - 1]) else s
  }

  /** Python's `str.strip` on ASCII white space, as `float` applies it. */
  function Trim(s: string): string {
    TrimEnd(TrimStart(s))
  }

  /** A numeral without white space around it passes the trimming untouched. */
  lemma TrimNoSpace(s: string)
    requires NoSpace(s)
    ensures Trim(s) == s
  {
    if |s| > 0 {
      assert !IsSpace(s[0]) && !IsSpace(s[|s| - 1]);
    }
  }

  /** Index of the first '.', or |s| when there is none. */
  function PointIndex(s: string): (i: nat)
    ensures i <= |s|
    ensures i < |s| ==> s[i] == '.'
    ensures forall j :: 0 <= j < i ==> s[j] != '.'
  {
    if |s| == 0 then 0
    else if s[0] == '.' then 0
    else 1 + PointIndex(s[1..])
  }

  /** The value of the numeral "<whole>.<frac>". */
  function DecimalValue(whole: string, frac: string): (v: real)
    requires AllDigits(whole) && AllDigits(frac)
    ensures v >= 0.0
  {
    DigitsValue(whole) as real + DigitsValue(frac) as real / Pow10(|frac|) as real
  }

  /** An unsigned numeral: digits, optionally a point and more digits, with at
      least one digit overall ("12", "12.5", "12.", ".5"). */
  function ParseUnsigned(s: string): (r: Option<real>)
    ensures r.Some? ==> r.value >= 0.0
    ensures r.Some? ==> |s| > 0
  {
    var i := PointIndex(s);
    if i == |s| then
      if |s| > 0 && AllDigits(s) then Some(DigitsValue(s) as real) else None
    else
      var whole, frac := s[..i], s[i + 1..];
      if AllDigits(whole) && AllDigits(frac) && |whole| + |frac| > 0 then
        Some(DecimalValue(whole, frac))
      else None
  }

  /** A leading sign, if any, and what follows it. */
  function SplitSign(t: string): (bool, string) {
    if |t| > 0 && (t[0] == '-' || t[0] == '+') then (t[0] == '-', t[1..]) else (false, t)
  }

  /** Python's `float` on a decimal numeral: surrounding white space and an
      optional sign are accepted. Anything else is rejected (`None`), which
      includes the exponent, `inf` and `nan` forms `float` would also take. */
  function ParseNumber(s: string): (r: Option<real>)
    ensures |Trim(s)| == 0 ==> r.None?
  {
    var (negative, body) := SplitSign(Trim(s));
    match ParseUnsigned(body)
    case Some(v) => Some(if negative then -v else v)
    case None => None
  }

  /** The usage cell's value: `float(s[:-4])`. */
  function ParseUsage(s: string): (r: Option<real>)
    ensures |s| <= SuffixLength ==> r.None?
  {
    ParseNumber(DropSuffix(s))
  }

  // ---------------------------------------------------------------------
  // What a well-formed cell parses to.

  /** Cutting the suffix off a string that ends in any four characters gives
      back exactly what preceded them. */
  lemma DropSuffixOfAppended(d: string, u: string)
    requires |u| == SuffixLength
    ensures DropSuffix(d + u) == d
  {
    assert (d + u)[..|d|] == d;
  }

  /** A cell "<d> kWh" parses to what `float(d)` gives. */
  lemma ParseUsageOfCell(d: string)
    ensures ParseUsage(d + Unit) == ParseNumber(d)
  {
    DropSuffixOfAppended(d, Unit);
  }

  /** The unit itself is never checked: any last four characters are cut off,
      so "1234.5" without a unit, when the cell is read as text, reads as 12. */
  lemma SuffixNotChecked(d: string, u: string)
    requires |u| == SuffixLength
    ensures ParseUsage(d + u) == ParseNumber(d)
  {
    DropSuffixOfAppended(d, u);
  }

  lemma AllDigitsAppend(a: string, b: string)
    requires AllDigits(a) && AllDigits(b)
    ensures AllDigits(a + b)
  {
    var ab := a + b;
    forall i | 0 <= i < |ab|
      ensures IsDigit(ab[i])
    {
      if i < |a| { assert ab[i] == a[i]; } else { assert ab[i] == b[i - |a|]; }
    }
  }

  /** Splitting a digit string splits its value positionally. */
  lemma {:induction false} DigitsValueAppend(a: string, b: string)
    requires AllDigits(a) && AllDigits(b)
    ensures AllDigits(a + b)
    ensures DigitsValue(a + b) == DigitsValue(a) * Pow10(|b|) + DigitsValue(b)
    decreases |b|
  {
    AllDigitsAppend(a, b);
    if |b| == 0 {
      assert a + b == a;
    } else {
      var b' := b[..|b| - 1];
      var d := DigitValue(b[|b| - 1]);
      assert (a + b)[..|a + b| - 1] == a + b';
      assert (a + b)[|a + b| - 1] == b[|b| - 1];
      DigitsValueAppend(a, b');
      assert DigitsValue(a + b) == 10 * DigitsValue(a + b') + d;
      assert DigitsValue(b) == 10 * DigitsValue(b') + d;
      ShiftDigit(DigitsValue(a), Pow10(|b'|), DigitsValue(b'), d);
    }
  }

  lemma ShiftDigit(x: nat, p: nat, y: nat, d: nat)
    ensures 10 * (x * p + y) + d == x * (10 * p) + (10 * y + d)
  {
  }

  /** "<whole>.<frac>" with digit strings, not both empty, parses to its
      decimal value. */
  lemma ParseDecimalNumeral(whole: string, frac: string)
    requires AllDigits(whole) && AllDigits(frac) && |whole| + |frac| > 0
    ensures ParseNumber(whole + "." + frac) == Some(DecimalValue(whole, frac))
  {
    var s := whole + "." + frac;
    assert NoSpace(s) by {
      forall i | 0 <= i < |s|
        ensures !IsSpace(s[i])
      {
        if i < |whole| { assert s[i] == whole[i]; }
        else if i > |whole| { assert s[i] == frac[i - |whole| - 1]; }
      }
    }
    assert PointIndex(s) == |whole| by {
      assert s[|whole|] == '.';
      forall j | 0 <= j < |whole|
        ensures s[j] != '.'
      {
        assert s[j] == whole[j];
      }
      PointIndexIsFirst(s, |whole|);
    }
    assert s[..|whole|] == whole;
    assert s[|whole| + 1..] == frac;
    if |whole| > 0 {
      assert s[0] == whole[0];
      UnsignedNumeral(s);
    } else {
      TrimNoSpace(s);
      assert SplitSign(s) == (false, s);
    }
  }

  lemma PointIndexIsFirst(s: string, i: nat)
    requires i < |s| && s[i] == '.'
    requires forall j :: 0 <= j < i ==> s[j] != '.'
    ensures PointIndex(s) == i
  {
  }

  /** A digit string without a point parses to its integer value. */
  lemma ParseIntegerNumeral(digits: string)
    requires AllDigits(digits) && |digits| > 0
    ensures ParseNumber(digits) == Some(DigitsValue(digits) as real)
  {
    assert NoSpace(digits) by {
      forall i | 0 <= i < |digits|
        ensures !IsSpace(digits[i])
      {
        assert IsDigit(digits[i]);
      }
    }
    UnsignedNumeral(digits);
    assert PointIndex(digits) == |digits| by {
      NoPointInDigits(digits);
    }
  }

  /** A string that starts with a digit and has no white space around it
      parses as an unsigned numeral. */
  lemma UnsignedNumeral(s: string)
    requires |s| > 0 && IsDigit(s[0])
    requires NoSpace(s)
    ensures ParseNumber(s) == ParseUnsigned(s)
  {
    TrimNoSpace(s);
    assert SplitSign(s) == (false, s);
  }

  /** A minus sign in front of a numeral negates its value; what the
      numeral rejects stays rejected. */
  lemma NegatedNumeral(d: string)
    requires |d| > 0 && IsDigit(d[0]) && NoSpace(d)
    ensures ParseNumber("-" + d) == if ParseNumber(d).Some? then Some(-ParseNumber(d).value) else None
  {
    var s := "-" + d;
    assert NoSpace(s) by {
      forall i | 0 <= i < |s|
        ensures !IsSpace(s[i])
      {
        if i > 0 { assert s[i] == d[i - 1]; }
      }
    }
    TrimNoSpace(s);
    assert SplitSign(s) == (true, d);
    UnsignedNumeral(d);
  }

  lemma NoPointInDigits(digits: string)
    requires AllDigits(digits)
    ensures PointIndex(digits) == |digits|
  {
  }

  // ---------------------------------------------------------------------
  // What is rejected.

  predicate NoDigit(s: string) {
    forall i :: 0 <= i < |s| ==> !IsDigit(s[i])
  }

  lemma {:induction false} TrimStartNoDigit(s: string)
    requires NoDigit(s)
    ensures NoDigit(TrimStart(s))
  {
    if |s| > 0 && IsSpace(s[0]) {
      assert forall i :: 0 <= i < |s[1..]| ==> s[1..][i] == s[i + 1];
      TrimStartNoDigit(s[1..]);
    }
  }

  lemma {:induction false} TrimEndNoDigit(s: string)
    requires NoDigit(s)
    ensures NoDigit(TrimEnd(s))
  {
    if |s| > 0 && IsSpace(s[|s| - 1]) {
      assert forall i :: 0 <= i < |s| - 1 ==> s[..|s| - 1][i] == s[i];
      TrimEndNoDigit(s[..|s| - 1]);
    }
  }

  /** Every unsigned numeral holds a digit. */
  lemma UnsignedNeedsDigit(s: string)
    requires NoDigit(s)
    ensures ParseUnsigned(s).None?
  {
    var i := PointIndex(s);
    if i < |s| {
      var whole, frac := s[..i], s[i + 1..];
      if |whole| > 0 {
        assert whole[0] == s[0];
      } else if |frac| > 0 {
        assert frac[0] == s[i + 1];
      }
    } else if |s| > 0 {
      assert !IsDigit(s[0]);
    }
  }

  /** A cell with no digit before its last four characters is rejected
      ("n/a kWh", " kWh", "-. kWh"). `float` raises on most such text, but it
      takes "nan", "inf" and "infinity" in any case and with a sign; the
      model rejects those too. */
  lemma NoDigitRejected(s: string)
    requires NoDigit(DropSuffix(s))
    ensures ParseUsage(s).None?
  {
    var d := DropSuffix(s);
    TrimStartNoDigit(d);
    TrimEndNoDigit(TrimStart(d));
    var t := Trim(d);
    var body := SplitSign(t).1;
    if |t| > 0 && (t[0] == '-' || t[0] == '+') {
      assert forall i :: 0 <= i < |body| ==> body[i] == t[i + 1];
    }
    UnsignedNeedsDigit(body);
  }

  // ---------------------------------------------------------------------
  // Rendering a reading the way the provider writes it, and reading it back.

  /** The decimal digits of `n`, without leading zeros. */
  function NatDigits(n: nat): (s: string)
    ensures AllDigits(s) && |s| > 0
    ensures DigitsValue(s) == n
  {
    var last := [DigitChar(n % 10)];
    if n < 10 then last
    else
      var init := NatDigits(n / 10);
      assert (init + last)[..|init + last| - 1] == init;
      init + last
  }

  /** `k` zeros. */
  function Zeros(k: nat): (s: string)
    ensures |s| == k && AllDigits(s) && DigitsValue(s) == 0
  {
    if k == 0 then ""
    else
      var s := Zeros(k - 1) + "0";
      assert s[..|s| - 1] == Zeros(k - 1);
      s
  }

  lemma NatDigitsShort(n: nat, k: nat)
    requires n < Pow10(k)
    ensures |NatDigits(n)| <= k || (n == 0 && k == 0)
  {
    if n >= 10 {
      assert k >= 1;
      assert n / 10 < Pow10(k - 1);
      NatDigitsShort(n / 10, k - 1);
    } else if n > 0 {
      assert k >= 1;
    }
  }

  /** `n` written with exactly `k` digits, padded with leading zeros. */
  function Padded(n: nat, k: nat): (s: string)
    requires 0 < k && n < Pow10(k)
    ensures |s| == k && AllDigits(s) && DigitsValue(s) == n
  {
    NatDigitsShort(n, k);
    var z := Zeros(k - |NatDigits(n)|);
    DigitsValueAppend(z, NatDigits(n));
    z + NatDigits(n)
  }

  /** The cell the provider writes for `whole + frac / 10^k` kWh with `k`
      decimals, as in "1.234 kWh"; with no decimals there is no point. */
  function RenderUsage(whole: nat, frac: nat, k: nat): string
    requires frac < Pow10(k)
  {
    if k == 0 then NatDigits(whole) + Unit
    else NatDigits(whole) + "." + Padded(frac, k) + Unit
  }

  /** Round trip: every rendered cell parses back to the value `v` it
      renders, `whole + frac / 10^k`. */
  lemma ParseRenderedUsage(whole: nat, frac: nat, k: nat, v: real)
    requires frac < Pow10(k)
    requires v == whole as real + frac as real / Pow10(k) as real
    ensures ParseUsage(RenderUsage(whole, frac, k)) == Some(v)
  {
    if k == 0 {
      assert frac == 0 && v == whole as real;
      ParseRenderedWhole(whole, RenderUsage(whole, frac, k), v);
    } else {
      ParseRenderedDecimal(whole, frac, k, RenderUsage(whole, frac, k), v);
    }
  }

  lemma ParseRenderedWhole(whole: nat, cell: string, v: real)
    requires cell == RenderUsage(whole, 0, 0) && v == whole as real
    ensures ParseUsage(cell) == Some(v)
  {
    var w := NatDigits(whole);
    assert cell == w + Unit;
    ParseUsageOfCell(w);
    ParseIntegerNumeral(w);
  }

  lemma ParseRenderedDecimal(whole: nat, frac: nat, k: nat, cell: string, v: real)
    requires 0 < k && frac < Pow10(k)
    requires cell == RenderUsage(whole, frac, k)
    requires v == whole as real + frac as real / Pow10(k) as real
    ensures ParseUsage(cell) == Some(v)
  {
    var w, f := NatDigits(whole), Padded(frac, k);
    RenderedValue(w, f, whole, frac, k);
    assert DecimalValue(w, f) == v;
    ParseDecimalCell(cell, w, f);
  }

  lemma RenderedValue(w: string, f: string, whole: nat, frac: nat, k: nat)
    requires AllDigits(w) && AllDigits(f) && |f| == k
    requires DigitsValue(w) == whole && DigitsValue(f) == frac
    ensures DecimalValue(w, f) == whole as real + frac as real / Pow10(k) as real
  {
  }

  /** A cell "<whole>.<frac> kWh" parses to the numeral's value. */
  lemma ParseDecimalCell(cell: string, whole: string, frac: string)
    requires AllDigits(whole) && AllDigits(frac) && |whole| + |frac| > 0
    requires cell == whole + "." + frac + Unit
    ensures ParseUsage(cell) == Some(DecimalValue(whole, frac))
  {
    ParseUsageOfCell(whole + "." + frac);
    ParseDecimalNumeral(whole, frac);
  }
}
