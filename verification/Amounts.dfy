/**
 * Decimal amounts: the printers and parsers of apps/web/lib/tokens.ts,
 * apps/web/lib/history-parse.ts, apps/extension/lib/tx-summary.ts and
 * services/policy-service/src/templates.ts.
 */
module Amounts {
  import opened Wrappers
  import opened Arith
  import opened Text

  const DOT: Unit := 46
  const MINUS: Unit := 45
  const MAX_DECIMALS: nat := 36
  const STELLAR_DECIMALS: nat := 7

  datatype AmountError = InvalidDecimals | InvalidAmount | TooManyDecimals

  function Abs(x: int): nat {
    if x < 0 then -x else x
  }

  /** `slice(0, end)`: a negative end counts from the back. */
  function SliceTo(s: Text, end: int): Text {
    var n := if end < 0 then |s| + end else end;
    if n <= 0 then [] else if n >= |s| then s else s[..n]
  }

  // ---- apps/web/lib/tokens.ts ----

  /** The digits without trailing zeros, and no more of them than wanted. */
  function Kept(digits: Text, most: int): Text {
    var trimmed := DropZeros(digits);
    if |trimmed| > most then SliceTo(trimmed, most) else trimmed
  }

  function FractionText(fraction: nat, decimals: nat, maxFractionDigits: int): Text {
    Kept(PadStart(Digits(fraction), decimals), maxFractionDigits)
  }

  function FormatUnits(raw: int, decimals: nat, maxFractionDigits: int): Text {
    if raw == 0 then [48]
    else
      var base := Pow10(decimals);
      var sign := if raw < 0 then [MINUS] else [];
      var whole, fraction := Quotient(Abs(raw), base), Rest(Abs(raw), base);
      if fraction == 0 then sign + Digits(whole)
      else sign + Digits(whole) + [DOT] + FractionText(fraction, decimals, maxFractionDigits)
  }

  function Format(raw: int, decimals: int, maxFractionDigits: int): Result<Text, AmountError> {
    if decimals < 0 || decimals > MAX_DECIMALS then Failure(InvalidDecimals)
    else Success(FormatUnits(raw, decimals, maxFractionDigits))
  }

  /** The raw units of a whole part and of the digits after the point. */
  function Units(whole: Text, fraction: Text, decimals: nat): nat
    requires AllDigits(whole) && AllDigits(fraction)
  {
    Value(whole) * Pow10(decimals) + Value(PadEnd(fraction, decimals))
  }

  function ParseParts(parts: seq<Text>, decimals: nat): Result<nat, AmountError>
    requires |parts| > 0
  {
    var fraction := if |parts| > 1 then parts[1] else [];
    if !AllDigits(parts[0]) || !AllDigits(fraction) then Failure(InvalidAmount)
    else if |fraction| > decimals then Failure(TooManyDecimals)
    else Success(Units(parts[0], fraction, decimals))
  }

  function Parse(value: Text, decimals: int): Result<nat, AmountError> {
    if decimals < 0 || decimals > MAX_DECIMALS then Failure(InvalidDecimals)
    else
      var trimmed := Trim(value);
      if trimmed == [] || trimmed == [DOT] then Failure(InvalidAmount)
      else ParseParts(Split(trimmed, DOT), decimals)
  }

  // ---- The round trip ----

  lemma {:induction false} PowAdd(a: nat, b: nat)
    ensures Pow10(a + b) == Pow10(a) * Pow10(b)
  {
    if a > 0 {
      PowAdd(a - 1, b);
      Associate(10, Pow10(a - 1), Pow10(b));
    }
  }

  lemma {:induction false} PowGrows(a: nat, b: nat)
    requires a <= b
    ensures Pow10(a) <= Pow10(b)
  {
    if a < b { PowGrows(a, b - 1); }
  }

  lemma PowLess(a: nat, b: nat)
    requires Pow10(a) < Pow10(b)
    ensures a < b
  {
    if b <= a { PowGrows(b, a); }
  }

  /** The padded fraction has all its digits and its value. */
  lemma PadStartKeeps(fraction: nat, decimals: nat)
    requires 0 < fraction < Pow10(decimals)
    ensures var p := PadStart(Digits(fraction), decimals);
      |p| == decimals && AllDigits(p) && Value(p) == fraction
  {
    var d := Digits(fraction);
    DigitsLeading(fraction);
    PowLess(|d| - 1, decimals);
    PaddedValue(d, decimals);
    ValueOfDigits(fraction);
  }

  lemma PaddedValue(d: Text, width: nat)
    requires AllDigits(d) && |d| <= width
    ensures var p := PadStart(d, width); |p| == width && AllDigits(p) && Value(p) == Value(d)
  {
    if |d| < width { ZerosInFront(width - |d|, d); }
  }

  lemma ZerosInFront(k: nat, d: Text)
    requires AllDigits(d)
    ensures AllDigits(Zeros(k) + d) && Value(Zeros(k) + d) == Value(d)
  {
    ValueOfZeros(k);
    ValueAppend(Zeros(k), d);
  }

  /** Dropping trailing zeros and cutting to `m` digits keeps the first `m` digits, the rest reading as zeros. */
  lemma KeptDigits(p: Text, m: nat)
    requires AllDigits(p) && m <= |p|
    ensures AllDigits(Kept(p, m)) && |Kept(p, m)| <= m && PadEnd(Kept(p, m), |p|) == p[..m] + Zeros(|p| - m)
  {
    DropZerosPads(p);
    var t := DropZeros(p);
    if |t| > m {
      assert SliceTo(t, m) == p[..m];
    } else {
      assert p[..m] == t + Zeros(m - |t|);
      assert Zeros(m - |t|) + Zeros(|p| - m) == Zeros(|p| - |t|);
    }
  }

  lemma CutValue(p: Text, m: nat)
    requires AllDigits(p) && m <= |p|
    ensures AllDigits(p[..m] + Zeros(|p| - m))
    ensures Value(p[..m] + Zeros(|p| - m)) == Value(p) - Rest(Value(p), Pow10(|p| - m))
  {
    var k := |p| - m;
    assert p[..m] + p[m..] == p;
    ValueAppend(p[..m], p[m..]);
    ValueAppend(p[..m], Zeros(k));
    ValueOfZeros(k);
    ValueBelow(p[m..]);
    Unique(Value(p), Pow10(k), Value(p[..m]), Value(p[m..]));
  }

  lemma NoSpace(s: Text)
    requires s != [] && !IsSpace(s[0]) && !IsSpace(s[|s| - 1])
    ensures Trim(s) == s
  {
  }

  lemma ParsesWhole(whole: Text, decimals: nat)
    requires AllDigits(whole) && whole != [] && decimals <= MAX_DECIMALS
    ensures Parse(whole, decimals) == Success(Units(whole, [], decimals))
  {
    NoSpace(whole);
    SplitPlain(whole, DOT);
  }

  lemma ParsesBoth(whole: Text, fraction: Text, decimals: nat)
    requires AllDigits(whole) && AllDigits(fraction) && (whole != [] || fraction != [])
    requires |fraction| <= decimals <= MAX_DECIMALS
    ensures Parse(whole + [DOT] + fraction, decimals) == Success(Units(whole, fraction, decimals))
  {
    var s := whole + [DOT] + fraction;
    assert Trim(s) == s by {
      assert s[0] == if whole == [] then DOT else whole[0];
      assert s[|s| - 1] == if fraction == [] then DOT else fraction[|fraction| - 1];
      NoSpace(s);
    }
    assert Split(s, DOT) == [whole, fraction] by {
      SplitFirst(whole, fraction, DOT);
      SplitPlain(fraction, DOT);
    }
    assert |s| > 1;
  }

  lemma UnitsOfWhole(whole: Text, decimals: nat)
    requires AllDigits(whole)
    ensures Units(whole, [], decimals) == Value(whole) * Pow10(decimals)
  {
    assert PadEnd([], decimals) == Zeros(decimals);
    ValueOfZeros(decimals);
  }

  /** The whole and the fraction of a raw amount, and what cutting the fraction does to the amount. */
  lemma CutAmount(x: nat, decimals: nat, m: nat)
    requires m <= decimals
    ensures var base, cut := Pow10(decimals), Pow10(decimals - m);
      x - Rest(x, cut) == Quotient(x, base) * base + (Rest(x, base) - Rest(Rest(x, base), cut))
  {
    PowAdd(m, decimals - m);
    NestedRest(x, Pow10(m), Pow10(decimals - m));
    Recompose(x, Pow10(decimals));
  }

  /** An amount cut down to `m` of its `decimals` fraction digits. */
  function CutTo(x: nat, decimals: nat, m: nat): int
    requires m <= decimals
  {
    x - Rest(x, Pow10(decimals - m))
  }

  lemma DigitsParse(n: nat, decimals: nat)
    requires decimals <= MAX_DECIMALS
    ensures Parse(Digits(n), decimals) == Success(n * Pow10(decimals))
  {
    ParsesWhole(Digits(n), decimals);
    UnitsOfWhole(Digits(n), decimals);
    ValueOfDigits(n);
  }

  lemma RestOfZero(d: nat)
    requires d > 0
    ensures Rest(0, d) == 0
  {
    Unique(0, d, 0, 0);
  }

  lemma ZeroParses(decimals: nat, m: nat)
    requires m <= decimals <= MAX_DECIMALS
    ensures Parse(FormatUnits(0, decimals, m), decimals) == Success(0) && CutTo(0, decimals, m) == 0
  {
    DigitsParse(0, decimals);
    RestOfZero(Pow10(decimals - m));
  }

  lemma WholeCuts(x: nat, decimals: nat, m: nat)
    requires m <= decimals && Rest(x, Pow10(decimals)) == 0
    ensures CutTo(x, decimals, m) == x == Quotient(x, Pow10(decimals)) * Pow10(decimals)
  {
    Recompose(x, Pow10(decimals));
    CutAmount(x, decimals, m);
    RestOfZero(Pow10(decimals - m));
  }

  lemma WholeParses(x: nat, decimals: nat, m: nat)
    requires x > 0 && m <= decimals <= MAX_DECIMALS && Rest(x, Pow10(decimals)) == 0
    ensures CutTo(x, decimals, m) == x
    ensures Parse(FormatUnits(x, decimals, m), decimals) == Success(x)
  {
    var whole := Quotient(x, Pow10(decimals));
    assert [] + Digits(whole) == Digits(whole);
    DigitsParse(whole, decimals);
    WholeCuts(x, decimals, m);
  }

  /** What the kept digits of a fraction read as. */
  lemma KeptFraction(fraction: nat, decimals: nat, m: nat)
    requires 0 < fraction < Pow10(decimals) && m <= decimals
    ensures var kept := FractionText(fraction, decimals, m);
      && AllDigits(kept)
      && |kept| <= decimals
      && Value(PadEnd(kept, decimals)) == fraction - Rest(fraction, Pow10(decimals - m))
  {
    PadStartKeeps(fraction, decimals);
    KeptValue(PadStart(Digits(fraction), decimals), m);
  }

  lemma KeptValue(p: Text, m: nat)
    requires AllDigits(p) && m <= |p|
    ensures AllDigits(Kept(p, m)) && |Kept(p, m)| <= m
    ensures Value(PadEnd(Kept(p, m), |p|)) == Value(p) - Rest(Value(p), Pow10(|p| - m))
  {
    KeptDigits(p, m);
    CutValue(p, m);
  }

  lemma FractionParses(x: nat, decimals: nat, m: nat)
    requires x > 0 && m <= decimals <= MAX_DECIMALS && Rest(x, Pow10(decimals)) != 0
    ensures CutTo(x, decimals, m) >= 0
    ensures Parse(FormatUnits(x, decimals, m), decimals) == Success(CutTo(x, decimals, m))
  {
    var whole, fraction := Quotient(x, Pow10(decimals)), Rest(x, Pow10(decimals));
    var kept := FractionText(fraction, decimals, m);
    KeptFraction(fraction, decimals, m);
    assert FormatUnits(x, decimals, m) == Digits(whole) + [DOT] + kept by {
      assert [] + Digits(whole) == Digits(whole);
    }
    ParsesBoth(Digits(whole), kept, decimals);
    assert Units(Digits(whole), kept, decimals) == CutTo(x, decimals, m) by {
      ValueOfDigits(whole);
      CutAmount(x, decimals, m);
    }
  }

  /**
   * Printing with `m` of `decimals` fraction digits and parsing again gives the
   * amount cut down to those digits; with all of them, the amount itself.
   */
  lemma FormatParses(x: nat, decimals: nat, m: nat)
    requires m <= decimals <= MAX_DECIMALS
    ensures Format(x, decimals, m).Success?
    ensures var parsed := Parse(Format(x, decimals, m).value, decimals);
      && parsed.Success?
      && parsed.value == CutTo(x, decimals, m)
      && (m == decimals ==> parsed.value == x)
  {
    if x == 0 {
      ZeroParses(decimals, m);
    } else if Rest(x, Pow10(decimals)) == 0 {
      WholeParses(x, decimals, m);
    } else {
      FractionParses(x, decimals, m);
    }
    Unique(x, 1, x, 0);
  }

  // ---- The other parsers ----

  /** `BigInt` of decimal digits; other texts it accepts are not part of this model. */
  function BigIntOf(s: Text): Option<nat> {
    if AllDigits(s) then Some(Value(s)) else None
  }

  function RawOf(whole: Text, fraction: Text): Option<nat> {
    BigIntOf(whole + SliceTo(PadEnd(fraction, STELLAR_DECIMALS), STELLAR_DECIMALS))
  }

  /** apps/web/lib/history-parse.ts. */
  function DecimalToRaw(decimal: Text): Option<int> {
    var negative := decimal != [] && decimal[0] == MINUS;
    var unsigned := if negative then decimal[1..] else decimal;
    var parts := Split(unsigned, DOT);
    var raw := RawOf(parts[0], if |parts| > 1 then parts[1] else []);
    if raw.None? then None else if negative then Some(0 - raw.value) else Some(raw.value)
  }

  /** services/policy-service/src/templates.ts. */
  function XlmToStroops(xlm: Text): Option<int> {
    var parts := Split(xlm, DOT);
    StroopsOf(parts[0], if |parts| > 1 then parts[1] else [])
  }

  function StroopsOf(whole: Text, fraction: Text): Option<int> {
    var xlm, stroops := BigIntOf(whole), BigIntOf(SliceTo(fraction + Zeros(7), 7));
    if xlm.None? || stroops.None? then None else Some(xlm.value * Pow10(7) + stroops.value)
  }

  /** The texts `whole` and `whole.fraction`. */
  function AmountText(whole: Text, fraction: Option<Text>): Text {
    if fraction.None? then whole else whole + [DOT] + fraction.value
  }

  /** Digits with at most seven decimals. */
  predicate ValidAmount(whole: Text, fraction: Option<Text>) {
    && AllDigits(whole)
    && (fraction.None? ==> whole != [])
    && (fraction.Some? ==> AllDigits(fraction.value) && |fraction.value| <= STELLAR_DECIMALS
                           && (whole != [] || fraction.value != []))
  }

  /** On every amount with at most seven decimals the three parsers give the same number. */
  lemma ParsersAgree(whole: Text, fraction: Option<Text>)
    requires ValidAmount(whole, fraction)
    ensures var text := AmountText(whole, fraction);
      var digits := if fraction.Some? then fraction.value else [];
      var raw := Units(whole, digits, STELLAR_DECIMALS);
      && Parse(text, STELLAR_DECIMALS) == Success(raw)
      && DecimalToRaw(text) == Some(raw)
      && XlmToStroops(text) == Some(raw)
      && raw == Value(whole) * Pow10(7) + Value(digits) * Pow10(7 - |digits|)
  {
    var text := AmountText(whole, fraction);
    var digits := if fraction.Some? then fraction.value else [];
    if fraction.None? {
      ParsesWhole(whole, 7);
    } else {
      ParsesBoth(whole, digits, 7);
    }
    SplitAmount(whole, fraction);
    NoMinus(whole, fraction);
    ReadsRaw(whole, digits, text);
    ReadsXlm(whole, digits, text);
    PaddedDigits(digits);
  }

  lemma NoMinus(whole: Text, fraction: Option<Text>)
    requires ValidAmount(whole, fraction)
    ensures var text := AmountText(whole, fraction); text != [] && text[0] != MINUS
  {
    var text := AmountText(whole, fraction);
    assert text[0] == if whole == [] then DOT else whole[0];
  }

  lemma ReadsXlm(whole: Text, digits: Text, text: Text)
    requires AllDigits(whole) && AllDigits(digits) && |digits| <= 7
    requires Split(text, DOT) == [whole, digits] || (Split(text, DOT) == [whole] && digits == [])
    ensures XlmToStroops(text) == Some(Units(whole, digits, 7))
  {
    StroopsAreUnits(whole, digits);
  }

  lemma StroopsAreUnits(whole: Text, digits: Text)
    requires AllDigits(whole) && AllDigits(digits) && |digits| <= 7
    ensures StroopsOf(whole, digits) == Some(Units(whole, digits, 7))
  {
    PaddedDigits(digits);
  }

  lemma PaddedDigits(digits: Text)
    requires AllDigits(digits) && |digits| <= 7
    ensures var padded := PadEnd(digits, 7);
      && |padded| == 7 && AllDigits(padded)
      && SliceTo(padded, 7) == padded == SliceTo(digits + Zeros(7), 7)
      && Value(padded) == Value(digits) * Pow10(7 - |digits|)
  {
    var padded := digits + Zeros(7 - |digits|);
    assert PadEnd(digits, 7) == padded;
    assert SliceTo(digits + Zeros(7), 7) == padded;
    ValueAppend(digits, Zeros(7 - |digits|));
    ValueOfZeros(7 - |digits|);
  }

  lemma SplitAmount(whole: Text, fraction: Option<Text>)
    requires ValidAmount(whole, fraction)
    ensures Split(AmountText(whole, fraction), DOT)
         == if fraction.None? then [whole] else [whole, fraction.value]
  {
    if fraction.None? {
      SplitPlain(whole, DOT);
    } else {
      SplitFirst(whole, fraction.value, DOT);
      SplitPlain(fraction.value, DOT);
    }
  }

  lemma ReadsRaw(whole: Text, digits: Text, text: Text)
    requires AllDigits(whole) && AllDigits(digits) && |digits| <= 7
    requires text != [] && text[0] != MINUS
    requires Split(text, DOT) == [whole, digits] || (Split(text, DOT) == [whole] && digits == [])
    ensures DecimalToRaw(text) == Some(Units(whole, digits, 7))
  {
    RawIsUnits(whole, digits);
  }

  lemma RawIsUnits(whole: Text, digits: Text)
    requires AllDigits(whole) && AllDigits(digits) && |digits| <= 7
    ensures RawOf(whole, digits) == Some(Units(whole, digits, 7))
  {
    PaddedDigits(digits);
    ValueAppend(whole, PadEnd(digits, 7));
  }

  // ---- apps/extension/lib/tx-summary.ts ----

  /** BigInt division truncates toward zero; the remainder has the dividend's sign. */
  function TruncDiv(n: int, d: nat): int
    requires d > 0
  {
    if n < 0 then 0 - Quotient(Abs(n), d) else Quotient(n, d)
  }

  function TruncMod(n: int, d: nat): int
    requires d > 0
  {
    if n < 0 then 0 - Rest(Abs(n), d) else Rest(n, d)
  }

  function IntText(n: int): Text {
    if n < 0 then [MINUS] + Digits(-n) else Digits(n)
  }

  function FormatStroops(n: int): Text {
    var whole := TruncDiv(n, Pow10(7));
    var fraction := DropZeros(PadStart(IntText(TruncMod(n, Pow10(7))), 7));
    if fraction != [] then IntText(whole) + [DOT] + fraction else IntText(whole)
  }

  lemma {:induction false} AllZerosDrop(k: nat)
    ensures DropZeros(Zeros(k)) == []
  {
    if k > 0 {
      assert Zeros(k)[..k - 1] == Zeros(k - 1);
      AllZerosDrop(k - 1);
    }
  }

  /** Something other than a zero survives the dropping of zeros, with all that stands before it. */
  lemma {:induction false} DropZerosKeeps(s: Text, i: nat)
    requires i < |s| && s[i] != 48
    ensures i < |DropZeros(s)| && DropZeros(s)[i] == s[i]
  {
    if s[|s| - 1] == 48 {
      DropZerosKeeps(s[..|s| - 1], i);
    }
  }

  /** The formatter writes a minus sign only at the front. */
  lemma MinusOnlyInFront(raw: int)
    ensures forall i :: 0 < i < |FormatUnits(raw, 7, 7)| ==> FormatUnits(raw, 7, 7)[i] != MINUS
  {
    var fraction := Rest(Abs(raw), Pow10(7));
    if fraction != 0 {
      PadStartKeeps(fraction, 7);
      var t := DropZeros(PadStart(Digits(fraction), 7));
      assert AllDigits(t);
    }
  }

  /** A negative fraction is printed with a minus sign inside the text. */
  lemma MinusInside(n: int)
    requires n < 0 && Rest(-n, Pow10(7)) != 0
    ensures exists i :: 0 < i < |FormatStroops(n)| && FormatStroops(n)[i] == MINUS
  {
    var text := IntText(TruncMod(n, Pow10(7)));
    var padded := PadStart(text, 7);
    var at := if |text| >= 7 then 0 else 7 - |text|;
    assert padded[at] == MINUS;
    DropZerosKeeps(padded, at);
    var whole := IntText(TruncDiv(n, Pow10(7)));
    assert FormatStroops(n)[|whole| + 1 + at] == MINUS;
  }

  /**
   * The extension's stroop printer agrees with the seven-decimal formatter on
   * exactly the amounts that are not negative or have no fraction.
   */
  lemma FormatStroopsAgreesIff(n: int)
    ensures FormatStroops(n) == FormatUnits(n, 7, 7) <==> n >= 0 || Rest(Abs(n), Pow10(7)) == 0
  {
    if n >= 0 {
      SameForNonNegative(n);
    } else if Rest(-n, Pow10(7)) == 0 {
      ZeroFraction();
      WholeOfMultiple(-n, Pow10(7));
    } else {
      MinusInside(n);
      MinusOnlyInFront(n);
    }
  }

  /** Minus one stroop prints as zero, a point and a minus sign inside its fraction. */
  lemma NegativeFractionsPrintApart()
    ensures FormatStroops(-1) != FormatUnits(-1, 7, 7)
  {
    assert Pow10(7) > 1;
    Unique(1, Pow10(7), 0, 1);
    FormatStroopsAgreesIff(-1);
  }

  lemma SameForNonNegative(n: nat)
    ensures FormatStroops(n) == FormatUnits(n, 7, 7)
  {
    var base := Pow10(7);
    var whole, fraction := Quotient(n, base), Rest(n, base);
    assert [] + Digits(whole) == Digits(whole);
    ZeroFraction();
    Unique(0, base, 0, 0);
    assert Digits(0) == [48];
    if fraction != 0 {
      FractionSurvives(fraction);
    }
  }

  /** A fraction that is not zero prints at least one digit, and at most seven. */
  lemma FractionSurvives(fraction: nat)
    requires 0 < fraction < Pow10(7)
    ensures 0 < |DropZeros(PadStart(Digits(fraction), 7))| <= 7
  {
    PadStartKeeps(fraction, 7);
    var p := PadStart(Digits(fraction), 7);
    if DropZeros(p) == [] {
      DropZerosPads(p);
      assert p == Zeros(7);
      ValueOfZeros(7);
    }
  }

  lemma ZeroFraction()
    ensures DropZeros(PadStart(IntText(0), 7)) == []
  {
    assert Digits(0) == [48];
    assert PadStart([48], 7) == Zeros(7);
    AllZerosDrop(7);
  }

  /** A positive multiple has a positive quotient. */
  lemma WholeOfMultiple(a: nat, d: nat)
    requires a > 0 && d > 0 && Rest(a, d) == 0
    ensures Quotient(a, d) > 0
  {
    Recompose(a, d);
  }
}
