/** The texts that amounts are printed as, and exactly the texts that are read as amounts. */
module AmountTexts {
  import opened Wrappers
  import opened Arith
  import opened Text
  import opened Amounts

  // ---- What is printed ----

  lemma {:induction false} DropZerosEnds(s: Text)
    requires AllDigits(s)
    ensures AllDigits(DropZeros(s))
    ensures DropZeros(s) == [] || DropZeros(s)[|DropZeros(s)| - 1] != Ch('0')
  {
    if s != [] && s[|s| - 1] == 48 { DropZerosEnds(s[..|s| - 1]); }
  }

  lemma FractionRemains(fraction: nat, decimals: nat)
    requires 0 < fraction < Pow10(decimals)
    ensures DropZeros(PadStart(Digits(fraction), decimals)) != []
  {
    PadStartKeeps(fraction, decimals);
    var p := PadStart(Digits(fraction), decimals);
    if DropZeros(p) == [] {
      DropZerosPads(p);
      assert p == Zeros(decimals);
      ValueOfZeros(decimals);
    }
  }

  /** The decimals of a fraction: no more than wanted, and all of them end in a digit other than zero. */
  predicate DecimalsText(kept: Text, decimals: nat, m: nat) {
    && AllDigits(kept) && |kept| <= m
    && (m == decimals ==> kept != [] && kept[|kept| - 1] != Ch('0'))
  }

  lemma KeptDecimals(fraction: nat, decimals: nat, m: nat)
    requires 0 < fraction < Pow10(decimals) && m <= decimals
    ensures DecimalsText(FractionText(fraction, decimals, m), decimals, m)
  {
    var p := PadStart(Digits(fraction), decimals);
    PadStartKeeps(fraction, decimals);
    KeptDigits(p, m);
    DropZerosEnds(p);
    FractionRemains(fraction, decimals);
    DropZerosPads(p);
  }

  /** A natural amount is printed as its whole part, and after a point the kept decimals if it has any. */
  lemma PrintedShape(x: nat, decimals: nat, m: nat)
    requires m <= decimals
    ensures var whole, fraction := Quotient(x, Pow10(decimals)), Rest(x, Pow10(decimals));
      if fraction == 0 then FormatUnits(x, decimals, m) == Digits(whole)
      else
        var kept := FractionText(fraction, decimals, m);
        FormatUnits(x, decimals, m) == Digits(whole) + Ascii(".") + kept && DecimalsText(kept, decimals, m)
  {
    var whole, fraction := Quotient(x, Pow10(decimals)), Rest(x, Pow10(decimals));
    assert [] + Digits(whole) == Digits(whole) && [DOT] == Ascii(".");
    if x == 0 {
      Unique(0, Pow10(decimals), 0, 0);
      assert Digits(0) == [48];
    } else if fraction != 0 {
      KeptDecimals(fraction, decimals, m);
    }
  }

  /** A negative amount is printed as a minus sign and the amount without it. */
  lemma NegativePrinted(x: nat, decimals: nat, m: int)
    requires x > 0
    ensures FormatUnits(0 - x, decimals, m) == Ascii("-") + FormatUnits(x, decimals, m)
  {
    assert Abs(0 - x) == x == Abs(x);
    var whole, fraction := Quotient(x, Pow10(decimals)), Rest(x, Pow10(decimals));
    assert [MINUS] == Ascii("-");
    assert [] + Digits(whole) == Digits(whole);
    if fraction != 0 {
      SignInFront(Ascii("-"), Digits(whole), [DOT], FractionText(fraction, decimals, m));
    }
  }

  lemma SignInFront(sign: Text, whole: Text, dot: Text, fraction: Text)
    ensures sign + whole + dot + fraction == sign + (whole + dot + fraction)
  {
  }

  // ---- What is read ----

  /** The text, without white space around it, has these digits before and after its first point, and anything after a second. */
  ghost predicate ReadsAs(value: Text, whole: Text, fraction: Text) {
    var t := Trim(value);
    && AllDigits(whole) && AllDigits(fraction) && t != [] && t != Ascii(".")
    && (|| (t == whole && fraction == [])
        || t == whole + Ascii(".") + fraction
        || exists more :: t == whole + Ascii(".") + fraction + Ascii(".") + more)
  }

  lemma PaddedFraction(fraction: Text, decimals: nat)
    requires AllDigits(fraction) && |fraction| <= decimals
    ensures AllDigits(PadEnd(fraction, decimals))
    ensures Value(PadEnd(fraction, decimals)) == Value(fraction) * Pow10(decimals - |fraction|)
  {
    var k := decimals - |fraction|;
    assert PadEnd(fraction, decimals) == fraction + Zeros(k);
    ValueAppend(fraction, Zeros(k));
    ValueOfZeros(k);
  }

  lemma SplitParses(t: Text, whole: Text, fraction: Text)
    requires AllDigits(whole) && AllDigits(fraction)
    requires || (t == whole && fraction == [])
             || t == whole + Ascii(".") + fraction
             || exists more :: t == whole + Ascii(".") + fraction + Ascii(".") + more
    ensures var parts := Split(t, DOT);
      parts[0] == whole && (if |parts| > 1 then parts[1] else []) == fraction
  {
    assert Ascii(".") == [DOT];
    if t == whole && fraction == [] {
      SplitPlain(whole, DOT);
    } else if t == whole + [DOT] + fraction {
      SplitFirst(whole, fraction, DOT);
      SplitPlain(fraction, DOT);
    } else {
      var more :| t == whole + Ascii(".") + fraction + Ascii(".") + more;
      assert t == whole + [DOT] + (fraction + [DOT] + more);
      SplitFirst(whole, fraction + [DOT] + more, DOT);
      SplitFirst(fraction, more, DOT);
    }
  }

  lemma PartsOfSplit(t: Text)
    ensures var parts := Split(t, DOT);
      var whole, fraction := parts[0], if |parts| > 1 then parts[1] else [];
      || (t == whole && fraction == [])
      || t == whole + Ascii(".") + fraction
      || exists more :: t == whole + Ascii(".") + fraction + Ascii(".") + more
  {
    var parts := Split(t, DOT);
    JoinSplit(t, DOT);
    assert Ascii(".") == [DOT];
    if |parts| == 2 {
      assert parts[1..] == [parts[1]];
    } else if |parts| > 2 {
      var more := Join(parts[2..], DOT);
      assert parts[1..][1..] == parts[2..];
      assert Join(parts[1..], DOT) == parts[1] + [DOT] + more;
      assert t == parts[0] + [DOT] + (parts[1] + [DOT] + more);
      assert t == parts[0] + Ascii(".") + parts[1] + Ascii(".") + more;
    }
  }

  /** The digits that were read, as an amount with this many decimals. */
  ghost predicate AmountOf(x: nat, whole: Text, fraction: Text, decimals: nat)
    requires AllDigits(whole) && AllDigits(fraction)
  {
    |fraction| <= decimals && x == Value(whole) * Pow10(decimals) + Value(fraction) * Pow10(decimals - |fraction|)
  }

  lemma PartsAmount(parts: seq<Text>, decimals: nat, x: nat)
    requires |parts| > 0
    ensures var whole, fraction := parts[0], if |parts| > 1 then parts[1] else [];
      ParseParts(parts, decimals) == Success(x) <==>
        AllDigits(whole) && AllDigits(fraction) && AmountOf(x, whole, fraction, decimals)
  {
    var fraction := if |parts| > 1 then parts[1] else [];
    if AllDigits(fraction) && |fraction| <= decimals { PaddedFraction(fraction, decimals); }
  }

  lemma ParsedReads(value: Text, decimals: nat, x: nat)
    requires Parse(value, decimals) == Success(x)
    ensures exists whole, fraction :: ReadsAs(value, whole, fraction) && AmountOf(x, whole, fraction, decimals)
  {
    var parts := Split(Trim(value), DOT);
    assert Ascii(".") == [DOT];
    PartsOfSplit(Trim(value));
    PartsAmount(parts, decimals, x);
    assert ReadsAs(value, parts[0], if |parts| > 1 then parts[1] else []);
  }

  lemma ReadsParse(value: Text, whole: Text, fraction: Text, decimals: nat, x: nat)
    requires ReadsAs(value, whole, fraction) && AmountOf(x, whole, fraction, decimals) && decimals <= 36
    ensures Parse(value, decimals) == Success(x)
  {
    assert Ascii(".") == [DOT];
    SplitParses(Trim(value), whole, fraction);
    PartsAmount(Split(Trim(value), DOT), decimals, x);
  }

  /**
   * A text is read as an amount exactly when the number of decimals is allowed
   * and there are digits to read, no more of them after the point than that; and
   * this is the amount.
   */
  lemma ParseIff(value: Text, decimals: int, x: nat)
    ensures Parse(value, decimals) == Success(x) <==>
      && 0 <= decimals <= 36
      && exists whole, fraction :: ReadsAs(value, whole, fraction) && AmountOf(x, whole, fraction, decimals)
  {
    if Parse(value, decimals) == Success(x) { ParsedReads(value, decimals, x); }
    if 0 <= decimals <= 36 {
      forall whole, fraction | ReadsAs(value, whole, fraction) && AmountOf(x, whole, fraction, decimals)
        ensures Parse(value, decimals) == Success(x)
      {
        ReadsParse(value, whole, fraction, decimals, x);
      }
    }
  }

  lemma PadLong(digits: Text)
    requires |digits| > 7
    ensures SliceTo(PadEnd(digits, 7), 7) == digits[..7] == SliceTo(digits + Zeros(7), 7)
  {
  }

  lemma LongDigits(whole: Text, digits: Text)
    requires AllDigits(whole) && AllDigits(digits) && |digits| > 7
    ensures AllDigits(digits[..7])
    ensures RawOf(whole, digits) == Some(Value(whole) * Pow10(7) + Value(digits[..7]))
    ensures StroopsOf(whole, digits) == Some(Value(whole) * Pow10(7) + Value(digits[..7]))
  {
    PadLong(digits);
    ValueAppend(whole, digits[..7]);
  }

  lemma SplitOnce(whole: Text, digits: Text)
    requires AllDigits(whole) && AllDigits(digits) && digits != []
    ensures var text := whole + Ascii(".") + digits;
      Split(text, DOT) == [whole, digits] && Trim(text) == text && |text| > 1 && text[0] != MINUS
  {
    var text := whole + [DOT] + digits;
    assert Ascii(".") == [DOT];
    assert text[0] == if whole == [] then DOT else whole[0];
    assert text[|text| - 1] == digits[|digits| - 1];
    NoSpace(text);
    SplitFirst(whole, digits, DOT);
    SplitPlain(digits, DOT);
  }

  /**
   * With more than seven decimals the strict parser refuses, and the other two
   * cut the decimals down to seven.
   */
  lemma LongFractionsAreCut(whole: Text, digits: Text)
    requires AllDigits(whole) && AllDigits(digits) && |digits| > 7
    ensures AllDigits(digits[..7])
    ensures var text := whole + Ascii(".") + digits;
      && Parse(text, 7) == Failure(TooManyDecimals)
      && DecimalToRaw(text) == Some(Value(whole) * Pow10(7) + Value(digits[..7]))
      && XlmToStroops(text) == Some(Value(whole) * Pow10(7) + Value(digits[..7]))
  {
    SplitOnce(whole, digits);
    LongDigits(whole, digits);
  }

  /** A minus sign in front of a text that has none negates what is read. */
  lemma MinusIsRead(text: Text)
    requires text == [] || text[0] != Ch('-')
    ensures DecimalToRaw(Ascii("-") + text)
         == if DecimalToRaw(text).None? then None else Some(-DecimalToRaw(text).value)
  {
    assert Ascii("-") == [MINUS] && (Ascii("-") + text)[1..] == text;
  }
}
