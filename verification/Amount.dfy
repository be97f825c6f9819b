/** internal/eip3009/amount.go: decimal amounts and integers of the smallest unit. */
module Amount {
  import opened Wrappers
  import opened Faults
  import opened Numerals
  import opened Text

  // ----- Specification -----

  /** The position of the first dot, or the length if there is none. */
  function Dot(s: string): (i: nat)
    ensures i <= |s|
    ensures i < |s| ==> s[i] == '.'
    ensures forall j :: 0 <= j < i ==> s[j] != '.'
  {
    if s == "" || s[0] == '.' then 0 else 1 + Dot(s[1..])
  }

  /** What stands before the dot, with "0" for nothing. */
  function Whole(s: string): (w: string)
    ensures w != ""
  {
    if Dot(s) == 0 then "0" else s[..Dot(s)]
  }

  function Fraction(s: string): string {
    if Dot(s) < |s| then s[Dot(s) + 1..] else ""
  }

  /** Digits with at most one dot among them, no more than `decimals` of them after it. "." alone is one of these. */
  predicate Accepted(s: string, decimals: nat) {
    s != "" && AllDigits(Whole(s), 10) && AllDigits(Fraction(s), 10) && |Fraction(s)| <= decimals
  }

  /** The amount W.F is the integer WF, scaled by the digits that F leaves unused. */
  function HumanAmount(s: string, decimals: nat): Result<nat, Fault> {
    if s == "" then Err(AmountRequired)
    else if s[0] == '-' then Err(AmountNegative)
    else if !AllDigits(Whole(s), 10) || !AllDigits(Fraction(s), 10) then Err(AmountInvalid)
    else if |Fraction(s)| > decimals then Err(AmountTooPrecise)
    else Ok(NumeralValue(Whole(s) + Fraction(s), 10) * Pow(10, decimals - |Fraction(s)|))
  }

  lemma HumanAmountAccepts(s: string, decimals: nat)
    ensures HumanAmount(s, decimals).Ok? <==> Accepted(s, decimals)
  {
    if s != "" && s[0] == '-' {
      assert Whole(s)[0] == '-';
    }
  }

  /** A lone dot is accepted, as zero: the empty whole part becomes "0" before it is looked at. */
  lemma LoneDotIsZero(decimals: nat)
    ensures HumanAmount(".", decimals) == Ok(0)
  {
    assert Dot(".") == 0;
    assert "0" + "" == RepeatZero(1);
    NumeralValueOfZeros(1, 10);
  }

  function PadLeft(s: string, k: nat): (t: string)
    ensures |t| == if |s| > k then |s| else k
  {
    if |s| >= k then s else RepeatZero(k - |s|) + s
  }

  /** strings.TrimRight(s, "0") */
  function TrimZeros(s: string): string {
    if s != "" && s[|s| - 1] == '0' then TrimZeros(s[..|s| - 1]) else s
  }

  function WithFraction(whole: string, fraction: string): string {
    if fraction == "" then whole else whole + "." + fraction
  }

  /** The digits of n, with at least one before the last `decimals` of them. */
  function AmountDigits(n: nat, decimals: nat): (s: string)
    ensures |s| > decimals
  {
    PadLeft(ShowNat(n), decimals + 1)
  }

  /** The digits of n with the dot put before the last `decimals` of them and the zeros at the end dropped. */
  function FormatNat(n: nat, decimals: nat): string {
    var digits := AmountDigits(n, decimals);
    var split := |digits| - decimals;
    WithFraction(digits[..split], TrimZeros(digits[split..]))
  }

  function Magnitude(v: int): nat {
    if v < 0 then -v else v
  }

  function WithSign(v: int, s: string): string {
    if v < 0 then "-" + s else s
  }

  function Format(v: int, decimals: nat): string {
    WithSign(v, FormatNat(Magnitude(v), decimals))
  }

  // ----- The code -----

  /** isDecimalDigits */
  method IsDecimalDigits(value: string) returns (r: bool)
    ensures r <==> IsNumeral(value, 10)
  {
    if value == "" {
      return false;
    }
    for i := 0 to |value|
      invariant AllDigits(value[..i], 10)
    {
      if value[i] < '0' || value[i] > '9' {
        assert CharValue(value[i]) >= 10;
        return false;
      }
    }
    assert value[..|value|] == value;
    return true;
  }

  /** strings.Count(s, ".") */
  function CountDots(s: string): nat {
    if s == "" then 0 else (if s[0] == '.' then 1 else 0) + CountDots(s[1..])
  }

  lemma {:induction false} CountedDotsAreInFraction(s: string)
    ensures CountDots(s) > 1 ==> '.' in Fraction(s)
    ensures CountDots(s) > 0 ==> '.' in s
  {
    if s != "" {
      CountedDotsAreInFraction(s[1..]);
      if s[0] != '.' {
        assert Fraction(s) == Fraction(s[1..]);
      }
    }
  }

  /** parseHumanAmount */
  method ParseHumanAmount(amount: string, decimals: nat) returns (r: Result<nat, Fault>)
    ensures r == HumanAmount(amount, decimals)
  {
    if amount == "" {
      return Err(AmountRequired);
    }
    if amount[0] == '-' {
      return Err(AmountNegative);
    }
    if CountDots(amount) > 1 {
      CountedDotsAreInFraction(amount);
      assert CharValue('.') >= 10;
      return Err(AmountInvalid);
    }
    var dot := Dot(amount);
    var whole := amount[..dot];
    var fractional := if dot < |amount| then amount[dot + 1..] else "";
    if whole == "" {
      whole := "0";
    }
    if whole == "" && fractional == "" {
      return Err(AmountInvalid);
    }
    assert whole == Whole(amount) && fractional == Fraction(amount);
    var wholeIsDecimal := IsDecimalDigits(whole);
    var fractionalIsDecimal := IsDecimalDigits(fractional);
    if !wholeIsDecimal || (fractional != "" && !fractionalIsDecimal) {
      return Err(AmountInvalid);
    }
    if |fractional| > decimals {
      return Err(AmountTooPrecise);
    }
    var value := ScaleAndAdd(whole, fractional, decimals);
    return Ok(value);
  }

  /** The arithmetic of parseHumanAmount, on a whole part and a fraction that fit. */
  method ScaleAndAdd(whole: string, fraction: string, decimals: nat) returns (value: nat)
    requires |fraction| <= decimals
    ensures value == NumeralValue(whole + fraction, 10) * Pow(10, decimals - |fraction|)
  {
    var fractional := fraction;
    var scale := Pow(10, decimals);
    value := NumeralValue(whole, 10);
    value := value * scale;
    ScaledSum(whole, fractional, decimals);
    if fractional != "" {
      fractional := fractional + RepeatZero(decimals - |fractional|);
      var fractionalValue := NumeralValue(fractional, 10);
      value := value + fractionalValue;
    }
  }

  /** Whole part and padded fraction, each scaled for itself, add up to the scaled digits of both. */
  lemma ScaledSum(w: string, f: string, d: nat)
    requires |f| <= d
    ensures NumeralValue(w, 10) * Pow(10, d) + NumeralValue(f + RepeatZero(d - |f|), 10)
         == NumeralValue(w + f, 10) * Pow(10, d - |f|)
    ensures f == "" ==> NumeralValue(w, 10) * Pow(10, d) == NumeralValue(w + f, 10) * Pow(10, d - |f|)
  {
    var z := RepeatZero(d - |f|);
    assert w + (f + z) == (w + f) + z;
    NumeralValueConcat(w, f + z, 10);
    NumeralValueConcat(w + f, z, 10);
    NumeralValueOfZeros(d - |f|, 10);
    if f == "" {
      assert w + f == w;
    }
  }

  /** FormatTokenValue */
  method FormatTokenValue(value: Option<int>, decimals: nat) returns (r: string)
    ensures r == if value.None? then "0" else Format(value.value, decimals)
  {
    if value.None? {
      return "0";
    }
    if decimals == 0 {
      FormatWithoutDecimals(value.value);
      return Show(value.value);
    }
    var sign := "";
    var work := value.value;
    if work < 0 {
      sign := "-";
      work := -work;
    }
    var whole, fractional := QuoAndMod(work, decimals);
    FormatOfSplit(work, decimals, whole, fractional);
    fractional := TrimZeros(fractional);
    SignedText(value.value, decimals, sign, whole, fractional);
    if fractional == "" {
      return sign + whole;
    }
    return sign + whole + "." + fractional;
  }

  /** The arithmetic of FormatTokenValue: quotient and remainder by the scale, the remainder padded with zeros. */
  method QuoAndMod(work: nat, decimals: nat) returns (whole: string, fractional: string)
    requires decimals > 0
    ensures AmountDigits(work, decimals) == whole + fractional && |fractional| == decimals
  {
    var scale := Pow(10, decimals);
    ghost var w, g := AmountDigitsSplit(work, decimals);
    QuotientAndRemainder(w, g, scale);
    var quotient, remainder := work / scale, work % scale;
    ShowNatOfNumeral(w);
    ShowThenPad(g);
    whole := ShowNat(quotient);
    fractional := ShowNat(remainder);
    fractional := RepeatZero(decimals - |fractional|) + fractional;
  }

  lemma FormatOfSplit(n: nat, d: nat, w: string, g: string)
    requires AmountDigits(n, d) == w + g && |g| == d
    ensures FormatNat(n, d) == WithFraction(w, TrimZeros(g))
  {
    assert (w + g)[..|w|] == w && (w + g)[|w|..] == g;
  }

  lemma SignedText(v: int, d: nat, sign: string, w: string, f: string)
    requires sign == if v < 0 then "-" else ""
    requires FormatNat(if v < 0 then -v else v, d) == WithFraction(w, f)
    ensures Format(v, d) == if f == "" then sign + w else sign + w + "." + f
  {
    assert sign + (w + "." + f) == sign + w + "." + f;
  }

  lemma FormatWithoutDecimals(v: int)
    ensures Format(v, 0) == Show(v)
  {
    var s := ShowNat(if v < 0 then -v else v);
    assert PadLeft(s, 1) == s;
    assert s[..|s|] == s;
  }

  // ----- Digit strings -----

  lemma {:induction false} StripThenPad(s: string, k: nat)
    requires s != "" && |s| == k
    ensures PadLeft(StripLeadingZeros(s), k) == s
    ensures |StripLeadingZeros(s)| <= k
  {
    if |s| > 1 && s[0] == '0' {
      StripThenPad(s[1..], k - 1);
      var t := StripLeadingZeros(s[1..]);
      assert s == "0" + s[1..];
      assert RepeatZero(k - |t|) == "0" + RepeatZero(k - 1 - |t|);
      assert PadLeft(t, k) == RepeatZero(k - |t|) + t;
    }
  }

  /** Stripping the zeros before WG and padding it again to |G| + 1 digits strips those of W alone. */
  lemma {:induction false} StripOfWhole(w: string, g: string)
    requires w != ""
    ensures PadLeft(StripLeadingZeros(w + g), |g| + 1) == StripLeadingZeros(w) + g
  {
    var s := w + g;
    if |w| == 1 {
      assert |s| == |g| + 1;
      StripThenPad(s, |g| + 1);
    } else if w[0] == '0' {
      assert s[1..] == w[1..] + g;
      StripOfWhole(w[1..], g);
    } else {
      assert s[0] == w[0];
    }
  }

  lemma {:induction false} TrimZerosSplit(s: string)
    ensures |TrimZeros(s)| <= |s|
    ensures s == TrimZeros(s) + RepeatZero(|s| - |TrimZeros(s)|)
    ensures TrimZeros(s) == "" || TrimZeros(s)[|TrimZeros(s)| - 1] != '0'
  {
    if s != "" && s[|s| - 1] == '0' {
      var init := s[..|s| - 1];
      TrimZerosSplit(init);
      assert s == init + "0";
      assert RepeatZero(|s| - |TrimZeros(s)|) == RepeatZero(|init| - |TrimZeros(s)|) + "0";
    }
  }

  lemma {:induction false} TrimZerosOfPadded(s: string, k: nat)
    ensures TrimZeros(s + RepeatZero(k)) == TrimZeros(s)
  {
    if k == 0 {
      assert s + RepeatZero(0) == s;
    } else {
      assert (s + RepeatZero(k))[..|s| + k - 1] == s + RepeatZero(k - 1);
      TrimZerosOfPadded(s, k - 1);
    }
  }

  lemma PaddedNumeral(s: string, k: nat)
    requires IsNumeral(s, 10)
    ensures IsNumeral(PadLeft(s, k), 10)
    ensures NumeralValue(PadLeft(s, k), 10) == NumeralValue(s, 10)
  {
    if |s| < k {
      NumeralValueConcat(RepeatZero(k - |s|), s, 10);
      NumeralValueOfZeros(k - |s|, 10);
    }
  }

  /** WG, with d digits in G, has W as its quotient and G as its remainder by 10^d. */
  lemma QuotientAndRemainder(w: string, g: string, p: nat)
    requires AllDigits(g, 10) && p == Pow(10, |g|)
    ensures p > 0
    ensures NumeralValue(w + g, 10) / p == NumeralValue(w, 10)
    ensures NumeralValue(w + g, 10) % p == NumeralValue(g, 10)
  {
    PowPositive(10, |g|);
    NumeralValueConcat(w, g, 10);
    ValueBound(10, CharValues(g));
    DivModUnique(NumeralValue(w, 10), NumeralValue(g, 10), p);
  }

  /** Printed and padded to its old length, a digit string comes back: there is always room to pad. */
  lemma ShowThenPad(g: string)
    requires IsNumeral(g, 10)
    ensures |ShowNat(NumeralValue(g, 10))| <= |g|
    ensures RepeatZero(|g| - |ShowNat(NumeralValue(g, 10))|) + ShowNat(NumeralValue(g, 10)) == g
  {
    ShowNatOfNumeral(g);
    StripThenPad(g, |g|);
    assert RepeatZero(0) + g == g;
  }

  lemma AmountDigitsNumeral(n: nat, d: nat)
    ensures IsNumeral(AmountDigits(n, d), 10)
    ensures NumeralValue(AmountDigits(n, d), 10) == n
    ensures AmountDigits(n, d)[0] == '0' ==> |AmountDigits(n, d)| == d + 1
  {
    ShowNatValue(n);
    PaddedNumeral(ShowNat(n), d + 1);
  }

  /** The digits before and after the dot. */
  lemma AmountDigitsSplit(n: nat, d: nat) returns (w: string, g: string)
    ensures AmountDigits(n, d) == w + g && |g| == d
    ensures IsNumeral(w, 10) && StripLeadingZeros(w) == w && AllDigits(g, 10)
    ensures NumeralValue(w + g, 10) == n
  {
    AmountDigitsNumeral(n, d);
    var digits := AmountDigits(n, d);
    w, g := digits[..|digits| - d], digits[|digits| - d..];
    assert digits == w + g;
  }

  // ----- Format and parse are inverse -----

  /** W.F splits at its dot. */
  lemma SplitsAtDot(w: string, f: string)
    requires w != "" && AllDigits(w, 10)
    ensures Whole(WithFraction(w, f)) == w && Fraction(WithFraction(w, f)) == f
  {
    var s := WithFraction(w, f);
    assert forall i :: 0 <= i < |w| ==> w[i] != '.' by {
      assert CharValue('.') >= 10;
    }
    assert forall i :: 0 <= i < |w| ==> s[i] == w[i];
    assert CharValue('.') >= 10;
    assert f == "" ==> s == w;
    assert f != "" ==> s[|w|] == '.';
    assert Dot(s) == |w|;
  }

  /** What Format prints: a whole part without superfluous zeros and a fraction that does not end in one. */
  lemma FormatParts(n: nat, d: nat) returns (w: string, f: string)
    ensures Format(n, d) == WithFraction(w, f)
    ensures IsNumeral(w, 10) && StripLeadingZeros(w) == w
    ensures AllDigits(f, 10) && TrimZeros(f) == f && |f| <= d
    ensures NumeralValue(w + f, 10) * Pow(10, d - |f|) == n
    ensures Whole(Format(n, d)) == w && Fraction(Format(n, d)) == f
  {
    var g;
    w, g := AmountDigitsSplit(n, d);
    f := TrimZeros(g);
    TrimmedScale(w, g);
    SplitsAtDot(w, f);
    FormatOfSplit(n, d, w, g);
  }

  lemma TrimmedScale(w: string, g: string)
    requires AllDigits(g, 10)
    ensures var f := TrimZeros(g);
            && AllDigits(f, 10) && |f| <= |g| && TrimZeros(f) == f
            && NumeralValue(w + f, 10) * Pow(10, |g| - |f|) == NumeralValue(w + g, 10)
  {
    var f := TrimZeros(g);
    TrimZerosSplit(g);
    var z := RepeatZero(|g| - |f|);
    assert w + g == (w + f) + z;
    NumeralValueConcat(w + f, z, 10);
    NumeralValueOfZeros(|g| - |f|, 10);
    assert forall i :: 0 <= i < |f| ==> f[i] == g[i];
  }

  /** Formatting loses nothing: the text parses back to the value, unless it is negative, and then it is refused. */
  lemma FormatRoundTrip(v: int, d: nat)
    ensures v >= 0 ==> HumanAmount(Format(v, d), d) == Ok(v)
    ensures v < 0 ==> Format(v, d) == "-" + Format(-v, d) && HumanAmount(Format(v, d), d) == Err(AmountNegative)
  {
    if v >= 0 {
      var w, f := FormatParts(v, d);
      HumanAmountAccepts(Format(v, d), d);
    }
  }

  lemma FormatNatInjective(v: nat, v': nat, d: nat)
    requires Format(v, d) == Format(v', d)
    ensures v == v'
  {
    FormatRoundTrip(v, d);
    FormatRoundTrip(v', d);
  }

  /** Different integers never print the same. */
  lemma FormatInjective(v: int, v': int, d: nat)
    requires Format(v, d) == Format(v', d)
    ensures v == v'
  {
    FormatRoundTrip(v, d);
    FormatRoundTrip(v', d);
    if v < 0 {
      var s, s' := Format(-v, d), Format(-v', d);
      assert ("-" + s)[1..] == s && ("-" + s')[1..] == s';
      FormatNatInjective(-v, -v', d);
    } else {
      FormatNatInjective(v, v', d);
    }
  }

  /** The canonical text of an amount. */
  function Canonical(s: string): string {
    WithFraction(StripLeadingZeros(Whole(s)), TrimZeros(Fraction(s)))
  }

  /** Parsing and formatting gives the canonical text, whatever the number of decimals. */
  lemma FormatOfParsed(s: string, d: nat)
    requires Accepted(s, d)
    ensures HumanAmount(s, d).Ok?
    ensures Format(HumanAmount(s, d).value, d) == Canonical(s)
  {
    HumanAmountAccepts(s, d);
    var w, f := Whole(s), Fraction(s);
    var g := f + RepeatZero(d - |f|);
    DigitsOfParsed(w, f, d);
    TrimZerosOfPadded(f, d - |f|);
    var digits := AmountDigits(HumanAmount(s, d).value, d);
    assert digits[..|digits| - d] == StripLeadingZeros(w) && digits[|digits| - d..] == g;
  }

  lemma DigitsOfParsed(w: string, f: string, d: nat)
    requires IsNumeral(w, 10) && AllDigits(f, 10) && |f| <= d
    ensures AmountDigits(NumeralValue(w + f, 10) * Pow(10, d - |f|), d)
         == StripLeadingZeros(w) + (f + RepeatZero(d - |f|))
  {
    var z := RepeatZero(d - |f|);
    var g := f + z;
    assert w + g == (w + f) + z;
    NumeralValueConcat(w + f, z, 10);
    NumeralValueOfZeros(d - |f|, 10);
    ShowNatOfNumeral(w + g);
    StripOfWhole(w, g);
  }

  /** Two accepted texts mean the same value exactly if they have the same canonical text. */
  lemma EqualValuesIffEqualCanonical(s: string, t: string, d: nat)
    requires Accepted(s, d) && Accepted(t, d)
    ensures HumanAmount(s, d) == HumanAmount(t, d) <==> Canonical(s) == Canonical(t)
  {
    FormatOfParsed(s, d);
    FormatOfParsed(t, d);
    FormatRoundTrip(HumanAmount(s, d).value, d);
    FormatRoundTrip(HumanAmount(t, d).value, d);
  }

  /** One more decimal multiplies every accepted amount by ten. */
  lemma ParseScales(s: string, d: nat)
    requires Accepted(s, d)
    ensures HumanAmount(s, d).Ok? && HumanAmount(s, d + 1) == Ok(10 * HumanAmount(s, d).value)
  {
    HumanAmountAccepts(s, d);
    HumanAmountAccepts(s, d + 1);
    var n, p := NumeralValue(Whole(s) + Fraction(s), 10), Pow(10, d - |Fraction(s)|);
    assert n * (10 * p) == 10 * (n * p);
  }

  /** Ten times the value with one more decimal prints the same, also for negative values. */
  lemma FormatScales(v: int, d: nat)
    ensures Format(10 * v, d + 1) == Format(v, d)
  {
    FormatNatScales(Magnitude(v), d);
    SignOfMultiple(v);
    calc {
      Format(10 * v, d + 1);
      WithSign(10 * v, FormatNat(Magnitude(10 * v), d + 1));
      WithSign(v, FormatNat(10 * Magnitude(v), d + 1));
      WithSign(v, FormatNat(Magnitude(v), d));
      Format(v, d);
    }
  }

  lemma SignOfMultiple(v: int)
    ensures Magnitude(10 * v) == 10 * Magnitude(v) && (10 * v < 0 <==> v < 0)
  {
  }

  lemma FormatNatScales(n: nat, d: nat)
    ensures FormatNat(10 * n, d + 1) == FormatNat(n, d)
  {
    var s := Format(n, d);
    var w, f := FormatParts(n, d);
    assert Canonical(s) == s;
    FormatRoundTrip(n, d);
    HumanAmountAccepts(s, d);
    ParseScales(s, d);
    FormatOfParsed(s, d + 1);
  }

  // ----- The command line's two ways to give a value -----

  /** ParseTokenValue: exactly one of the two must be given, and an amount needs the decimals. */
  function ParseTokenValue(valueArg: string, amountArg: string, decimals: Option<nat>): (r: Result<nat, Fault>)
    ensures r.Ok? ==> (TrimSpace(valueArg) == "") != (TrimSpace(amountArg) == "")
    ensures r.Ok? && TrimSpace(valueArg) == "" ==> decimals.Some? && Accepted(TrimSpace(amountArg), decimals.value)
  {
    HumanAmountAccepts(TrimSpace(amountArg), if decimals.Some? then decimals.value else 0);
    var value, amount := TrimSpace(valueArg), TrimSpace(amountArg);
    if value != "" && amount != "" then Err(ValueAndAmount)
    else if value == "" && amount == "" then Err(NeitherValueNorAmount)
    else if value != "" then
      match SetString(value, 10) {
        case Some(n) => if n < 0 then Err(ValueInvalid) else Ok(n)
        case None => Err(ValueInvalid)
      }
    else if decimals.None? then Err(DecimalsRequired)
    else HumanAmount(amount, decimals.value)
  }

  /** A decimal integer with an optional sign, which may be a minus only for zero. */
  ghost predicate SpellsNat(s: string, v: nat) {
    exists digits ::
      && IsNumeral(digits, 10) && NumeralValue(digits, 10) == v
      && (s == digits || s == "+" + digits || (s == "-" + digits && v == 0))
  }

  lemma SetStringSpells(s: string, v: nat)
    ensures SetString(s, 10) == Some(v) <==> SpellsNat(s, v)
  {
    if s != "" && (s[0] == '-' || s[0] == '+') {
      assert s == (if s[0] == '-' then "-" else "+") + s[1..];
    }
    if SpellsNat(s, v) {
      var digits :|
        && IsNumeral(digits, 10) && NumeralValue(digits, 10) == v
        && (s == digits || s == "+" + digits || (s == "-" + digits && v == 0));
      assert CharValue(digits[0]) < 10 && CharValue('-') == 99 && CharValue('+') == 99;
      assert s != digits ==> s[1..] == digits;
    }
  }

  /** What is given as a value stands for itself, with decimals or without; what is given as an amount stands for its
      integer with these decimals; to give both or neither is an error. */
  lemma TokenValueExactly(valueArg: string, amountArg: string, decimals: Option<nat>, v: nat)
    ensures var value, amount := TrimSpace(valueArg), TrimSpace(amountArg);
            ParseTokenValue(valueArg, amountArg, decimals) == Ok(v) <==>
              || (amount == "" && SpellsNat(value, v))
              || (value == "" && decimals.Some? && HumanAmount(amount, decimals.value) == Ok(v))
  {
    SetStringSpells(TrimSpace(valueArg), v);
  }

  /** The raw integer, whatever the decimals, and the formatted amount name the same value. */
  lemma ValueAndAmountAgree(v: nat, d: nat, decimals: Option<nat>)
    ensures ParseTokenValue(Show(v), "", decimals) == Ok(v)
    ensures ParseTokenValue("", Format(v, d), Some(d)) == Ok(v)
  {
    SetStringOfShow(v);
    ShowIsTrimmed(v);
    TrimSpaceFixed(Show(v));
    FormatIsTrimmed(v, d);
    FormatRoundTrip(v, d);
    TrimSpaceFixed(Format(v, d));
  }

  lemma FormatIsTrimmed(v: nat, d: nat)
    ensures Trimmed(Format(v, d)) && Format(v, d) != ""
  {
    var w, f := FormatParts(v, d);
    var s := Format(v, d);
    assert CharValue(w[0]) < 10 && s[0] == w[0];
    var last := if f == "" then w[|w| - 1] else f[|f| - 1];
    assert CharValue(last) < 10 && s[|s| - 1] == last;
  }
}
