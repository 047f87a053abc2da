/** The decimal subset of Python's `float(...)` that the validator and the
    router use to read `estimated_damage`, and the fixed-notation rendering
    of `repr(float)` that the fast-track reasoning prints.

    Accepted syntax: an optional sign, then digits with an optional
    fraction (`12`, `12.`, `12.5`, `.5`). Values are exact `real`s. */
module Numbers {
  import opened Wrappers
  import opened Text

  /** A parsed decimal literal: its sign, integer digits and fraction digits. */
  datatype Decimal = Decimal(negative: bool, whole: string, fraction: string)

  predicate WellFormed(d: Decimal) {
    AllDigits(d.whole) && AllDigits(d.fraction) && (d.whole != [] || d.fraction != [])
  }

  function DigitValue(c: char): nat
    requires IsDigit(c)
  {
    c as int - '0' as int
  }

  /** The integer a digit string denotes, read left to right. */
  function WholeValue(s: string): nat
    requires AllDigits(s)
  {
    if s == [] then 0 else WholeValue(s[..|s| - 1]) * 10 + DigitValue(s[|s| - 1])
  }

  /** The value of `0.` followed by the digit string `s`. */
  function FractionValue(s: string): real
    requires AllDigits(s)
  {
    if s == [] then 0.0 else (DigitValue(s[0]) as real + FractionValue(s[1..])) / 10.0
  }

  function Value(d: Decimal): real
    requires WellFormed(d)
  {
    var magnitude := WholeValue(d.whole) as real + FractionValue(d.fraction);
    if d.negative then -magnitude else magnitude
  }

  /** The text after an optional leading sign. */
  function Unsigned(s: string): string {
    if |s| > 0 && (s[0] == '+' || s[0] == '-') then s[1..] else s
  }

  /** The length of the longest all-digit prefix of `s`. */
  function DigitPrefix(s: string): (n: nat)
    ensures n <= |s|
    ensures AllDigits(s[..n])
    ensures n < |s| ==> !IsDigit(s[n])
  {
    if s != [] && IsDigit(s[0]) then
      var n := 1 + DigitPrefix(s[1..]);
      assert s[..n] == [s[0]] + s[1..][..n - 1];
      n
    else 0
  }

  /** The literal grammar, stated independently of the scanner: the unsigned
      part is a non-empty digit string, or digits, a point and digits with at
      least one digit overall. */
  ghost predicate IsNumberLiteral(s: string) {
    var body := Unsigned(s);
    (body != [] && AllDigits(body))
    || exists k :: PointAt(body, k)
  }

  /** `body` is digits, a decimal point at `k`, digits, and not just ".". */
  predicate PointAt(body: string, k: int) {
    0 <= k < |body| && body[k] == '.' && AllDigits(body[..k]) && AllDigits(body[k + 1..])
    && |body| > 1
  }

  /** A digit run followed by a non-digit is exactly the digit prefix. */
  lemma {:induction false} DigitPrefixStops(s: string, k: nat)
    requires k < |s| && AllDigits(s[..k]) && !IsDigit(s[k])
    ensures DigitPrefix(s) == k
  {
    if k > 0 {
      assert s[..k][0] == s[0];
      assert s[1..][..k - 1] == s[..k][1..];
      DigitPrefixStops(s[1..], k - 1);
    }
  }

  /** The decimal point of a literal sits right after its leading digits. */
  lemma PointIsAfterDigits(body: string)
    ensures forall k :: PointAt(body, k) ==> k == DigitPrefix(body)
  {
    forall k | PointAt(body, k) ensures k == DigitPrefix(body) {
      DigitPrefixStops(body, k);
    }
  }

  /** `float(s)` for decimal literals: None where Python raises ValueError. */
  function Parse(s: string): (r: Option<Decimal>)
    ensures r.Some? <==> IsNumberLiteral(s)
    ensures r.Some? ==> WellFormed(r.value)
    ensures r.Some? ==> (r.value.negative <==> s[0] == '-')
    ensures r.Some? ==> Unsigned(s) == r.value.whole + "." + r.value.fraction
                        || (Unsigned(s) == r.value.whole && r.value.fraction == [])
  {
    var body := Unsigned(s);
    var negative := |s| > 0 && s[0] == '-';
    var n := DigitPrefix(body);
    if n == |body| then
      if n > 0 then
        assert body[..n] == body;
        Some(Decimal(negative, body, ""))
      else
        assert !exists k :: PointAt(body, k);
        None
    else if body[n] == '.' && AllDigits(body[n + 1..]) && |body| > 1 then
      assert PointAt(body, n);
      assert body == body[..n] + "." + body[n + 1..];
      Some(Decimal(negative, body[..n], body[n + 1..]))
    else
      assert !(body != [] && AllDigits(body));
      PointIsAfterDigits(body);
      None
  }

  // ---------------------------------------------------------------------
  // Values of digit strings
  // ---------------------------------------------------------------------

  /** A leading zero does not change an integer's value. */
  lemma {:induction false} LeadingZeroValue(t: string)
    requires AllDigits(t)
    ensures AllDigits("0" + t) && WholeValue("0" + t) == WholeValue(t)
  {
    if t != [] {
      assert ("0" + t)[..|"0" + t| - 1] == "0" + t[..|t| - 1];
      LeadingZeroValue(t[..|t| - 1]);
    }
  }

  /** A trailing zero does not change a fraction's value. */
  lemma {:induction false} TrailingZeroValue(t: string)
    requires AllDigits(t)
    ensures AllDigits(t + "0") && FractionValue(t + "0") == FractionValue(t)
  {
    if t != [] {
      assert (t + "0")[1..] == t[1..] + "0";
      TrailingZeroValue(t[1..]);
    }
  }

  /** A digit string denotes zero exactly when every digit is '0'. */
  lemma {:induction false} WholeValueZero(s: string)
    requires AllDigits(s)
    ensures WholeValue(s) == 0 <==> forall i :: 0 <= i < |s| ==> s[i] == '0'
  {
    if s != [] {
      WholeValueZero(s[..|s| - 1]);
    }
  }

  /** A non-empty digit string is a literal whose value is that integer. */
  lemma DigitsParse(s: string)
    requires s != [] && AllDigits(s)
    ensures Parse(s) == Some(Decimal(false, s, ""))
    ensures Value(Parse(s).value) == WholeValue(s) as real
  {
    assert IsDigit(s[0]);
    assert s[..|s|] == s;
  }

  // ---------------------------------------------------------------------
  // Rendering: repr(float) in fixed notation
  // ---------------------------------------------------------------------

  function DropLeadingZeros(s: string): (r: string)
    ensures r == [] || r[0] != '0'
  {
    if s != [] && s[0] == '0' then DropLeadingZeros(s[1..]) else s
  }

  function DropTrailingZeros(s: string): (r: string)
    ensures r == [] || r[|r| - 1] != '0'
  {
    if s != [] && s[|s| - 1] == '0' then DropTrailingZeros(s[..|s| - 1]) else s
  }

  function OrZero(s: string): string {
    if s == [] then "0" else s
  }

  /** Python's `repr` of the float a decimal denotes, in fixed notation:
      a '-' for negative values (negative zero included), the integer digits
      without leading zeros, a point, and the fraction digits without
      trailing zeros, each part at least "0". The printed text reads back as
      a literal of the same value and sign, shows at least one fraction
      digit, and has no superfluous leading zero. */
  function Render(d: Decimal): (r: string)
    requires WellFormed(d)
    ensures Parse(r).Some? && Parse(r).value.negative == d.negative
    ensures Value(Parse(r).value) == Value(d)
    ensures Parse(r).value.fraction != []
    ensures Parse(r).value.whole != [] && (Parse(r).value.whole == "0" || Parse(r).value.whole[0] != '0')
  {
    var w := OrZero(DropLeadingZeros(d.whole));
    var f := OrZero(DropTrailingZeros(d.fraction));
    DropLeadingZerosValue(d.whole);
    DropTrailingZerosValue(d.fraction);
    OrZeroWholeValue(DropLeadingZeros(d.whole));
    OrZeroFractionValue(DropTrailingZeros(d.fraction));
    PointedParse(d.negative, w, f);
    (if d.negative then "-" else "") + w + "." + f
  }

  lemma {:induction false} DropLeadingZerosValue(s: string)
    requires AllDigits(s)
    ensures AllDigits(DropLeadingZeros(s)) && WholeValue(DropLeadingZeros(s)) == WholeValue(s)
  {
    if s != [] && s[0] == '0' {
      DropLeadingZerosValue(s[1..]);
      assert s == "0" + s[1..];
      LeadingZeroValue(s[1..]);
    }
  }

  lemma {:induction false} DropTrailingZerosValue(s: string)
    requires AllDigits(s)
    ensures AllDigits(DropTrailingZeros(s)) && FractionValue(DropTrailingZeros(s)) == FractionValue(s)
  {
    if s != [] && s[|s| - 1] == '0' {
      DropTrailingZerosValue(s[..|s| - 1]);
      assert s == s[..|s| - 1] + "0";
      TrailingZeroValue(s[..|s| - 1]);
    }
  }

  /** A signed "digits.digits" text parses back into exactly its parts. */
  /** The printed amount is canonical: no '+', a '-' exactly for a negative
      amount, and no trailing zero in the fraction beyond a lone "0", so
      "1200.00" and "+1200.0" are never printed. */
  lemma RenderCanonical(d: Decimal)
    requires WellFormed(d)
    ensures var r := Render(d);
      && '+' !in r
      && (r[0] == '-' <==> d.negative)
      && (r[|r| - 1] != '0' || r[|r| - 2..] == ".0")
  {
    var w := OrZero(DropLeadingZeros(d.whole));
    var f := OrZero(DropTrailingZeros(d.fraction));
    DropLeadingZerosValue(d.whole);
    DropTrailingZerosValue(d.fraction);
    TrimmedFraction(d.fraction);
    PointedCanonical(d.negative, w, f);
  }

  /** A pointed literal whose fraction is "0" or ends in a non-zero digit
      has no '+', starts with '-' exactly when negative, and ends in a
      non-zero digit or in ".0". */
  lemma PointedCanonical(negative: bool, w: string, f: string)
    requires w != [] && AllDigits(w) && AllDigits(f)
    requires f == "0" || (f != [] && f[|f| - 1] != '0')
    ensures var s := (if negative then "-" else "") + w + "." + f;
      && '+' !in s
      && (s[0] == '-' <==> negative)
      && (s[|s| - 1] != '0' || s[|s| - 2..] == ".0")
  {
    var s := (if negative then "-" else "") + w + "." + f;
    PointedSigns(negative, w, f);
    assert s[|s| - 1] == f[|f| - 1];
    if f == "0" {
      assert s[|s| - 2..] == ".0";
    }
  }

  /** The printed fraction is "0" or ends in a non-zero digit. */
  lemma TrimmedFraction(fraction: string)
    ensures var f := OrZero(DropTrailingZeros(fraction));
      f == "0" || (f != [] && f[|f| - 1] != '0')
  {
  }

  /** A pointed literal has no '+', and starts with '-' exactly when it is
      negative. */
  lemma PointedSigns(negative: bool, w: string, f: string)
    requires w != [] && AllDigits(w) && AllDigits(f)
    ensures var s := (if negative then "-" else "") + w + "." + f;
      '+' !in s && (s[0] == '-' <==> negative)
  {
    var s := (if negative then "-" else "") + w + "." + f;
    var n := if negative then 1 else 0;
    forall i | 0 <= i < |s| ensures s[i] != '+' {
      if n <= i < n + |w| {
        assert s[i] == w[i - n];
      } else if n + |w| < i {
        assert s[i] == f[i - n - |w| - 1];
      }
    }
    assert !negative ==> s[0] == w[0];
  }

  lemma PointedParse(negative: bool, w: string, f: string)
    requires w != [] && AllDigits(w) && AllDigits(f)
    ensures Parse((if negative then "-" else "") + w + "." + f) == Some(Decimal(negative, w, f))
  {
    var s := (if negative then "-" else "") + w + "." + f;
    var body := w + "." + f;
    assert Unsigned(s) == body by {
      if negative {
        assert s == "-" + body;
      } else {
        assert s[0] == w[0];
      }
    }
    assert body[..|w|] == w;
    DigitPrefixStops(body, |w|);
    assert body[|w| + 1..] == f;
  }

  /** Writing "0" for an empty integer part keeps its value. */
  lemma OrZeroWholeValue(s: string)
    requires AllDigits(s)
    ensures OrZero(s) != [] && AllDigits(OrZero(s)) && WholeValue(OrZero(s)) == WholeValue(s)
  {
    if s == [] {
      assert WholeValue("0") == WholeValue(""[..0]) * 10 + 0;
    }
  }

  /** Writing "0" for an empty fraction keeps its value. */
  lemma OrZeroFractionValue(s: string)
    requires AllDigits(s)
    ensures AllDigits(OrZero(s)) && FractionValue(OrZero(s)) == FractionValue(s)
  {
    if s == [] {
      assert FractionValue("0") == (0.0 + FractionValue("")) / 10.0;
    }
  }

  /** A signed digit string parses into exactly its digits. */
  lemma SignedDigitsParse(negative: bool, w: string)
    requires w != [] && AllDigits(w)
    ensures Parse((if negative then "-" else "") + w) == Some(Decimal(negative, w, ""))
  {
    var s := (if negative then "-" else "") + w;
    assert Unsigned(s) == w by {
      if negative {
        assert s == "-" + w;
      } else {
        assert s[0] == w[0];
      }
    }
    assert w[..|w|] == w;
  }

  /** Text that starts with a letter is not a number. */
  lemma LetterIsNotNumber(s: string)
    requires s != [] && IsLetter(s[0])
    ensures Parse(s) == None
  {
    assert DigitPrefix(s) == 0;
  }

  /** Sample texts for each outcome of reading a damage amount. */
  lemma NotNumberExample()
    ensures Parse("abc") == None
  {
    LetterIsNotNumber("abc");
  }

  lemma ZeroExample()
    ensures Parse("0") == Some(Decimal(false, "0", "")) && Value(Decimal(false, "0", "")) == 0.0
  {
    SignedDigitsParse(false, "0");
    assert WholeValue("0") == WholeValue("") * 10 + 0;
  }

  lemma NegativeExample()
    ensures Parse("-500") == Some(Decimal(true, "500", "")) && Value(Decimal(true, "500", "")) == -500.0
  {
    SignedDigitsParse(true, "500");
    assert "-" + "500" == "-500";
    assert WholeValue("5") == 5 by {
      assert "5"[..0] == "";
    }
    assert WholeValue("50") == 50 by {
      assert "50"[..1] == "5";
    }
    assert WholeValue("500") == 500 by {
      assert "500"[..2] == "50";
    }
  }

  lemma FractionExample()
    ensures Parse("150.50") == Some(Decimal(false, "150", "50")) && Value(Decimal(false, "150", "50")) == 150.5
  {
    FractionLiteral();
    FractionDigits();
  }

  lemma FractionLiteral()
    ensures Parse("150.50") == Some(Decimal(false, "150", "50"))
  {
    PointedParse(false, "150", "50");
    assert "" + "150" + "." + "50" == "150.50";
  }

  lemma FractionDigits()
    ensures WholeValue("150") == 150 && FractionValue("50") == 0.5
  {
    assert WholeValue("1") == 1 by {
      assert "1"[..0] == "";
    }
    assert WholeValue("15") == 15 by {
      assert "15"[..1] == "1";
    }
    assert WholeValue("150") == 150 by {
      assert "150"[..2] == "15";
    }
    assert FractionValue("0") == 0.0 by {
      assert "0"[1..] == "";
    }
    assert FractionValue("50") == 0.5 by {
      assert "50"[1..] == "0";
    }
  }

  /** The fast-track message prints 1200 as Python does. */
  lemma RenderExample()
    ensures Render(Decimal(false, "1200", "")) == "1200.0"
  {
  }
}
