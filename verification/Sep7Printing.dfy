/** Which inputs are printed as payment requests, and the text that is printed. */
module Sep7Printing {
  import opened Wrappers
  import opened Sequences
  import opened Text
  import opened PercentEncoding
  import opened Sep7
  import opened Sep7Acceptance

  /** The characters of an encoded key are not escaped. */
  lemma KeyEncodes(s: Text)
    requires forall i :: 0 <= i < |s| ==> IsBase32(s[i])
    ensures Encode(s) == Some(s)
  {
    forall i | 0 <= i < |s| ensures IsUnreserved(s[i]) {
      Base32Unreserved(s[i]);
    }
    PlainEncodes(s);
  }

  lemma Base32Unreserved(u: Unit)
    requires IsBase32(u)
    ensures IsUnreserved(u)
  {
  }

  lemma AmountEncodes(a: Text)
    requires PositiveAmount(a)
    ensures Encode(a) == Some(a)
  {
    var whole, fraction :| AmountParts(a, whole, fraction);
    forall i | 0 <= i < |a| ensures IsUnreserved(a[i]) {
      if i < |whole| {
        assert a[i] == whole[i];
      } else if i > |whole| {
        assert a[i] == fraction[i - |whole| - 1];
      }
    }
    PlainEncodes(a);
  }

  /** A text that is there, as a parameter after the others. */
  function Shown(name: string, value: Text): Text
    requires Encode(value).Some?
  {
    Ascii("&") + Ascii(name) + Ascii("=") + Encode(value).value
  }

  /** The same for a text that may be absent; an empty one is not shown. */
  function ShownIf(name: string, value: Option<Text>): Text
    requires value.Some? ==> Encode(value.value).Some?
  {
    if value.None? || value.value == [] then [] else Shown(name, value.value)
  }

  predicate Encodable(value: Option<Text>) {
    value.Some? ==> Encode(value.value).Some?
  }

  predicate HasIssuer(input: Input) {
    input.asset.Some? && input.asset.value.issuer.Some? && input.asset.value.issuer.value != []
  }

  /** What an input has to be to be printed: every value that is there is valid and can be encoded. */
  ghost predicate Printable(env: Environment, input: Input) {
    && (KeyText(env, input.destination, 'G') || KeyText(env, input.destination, 'C'))
    && (input.amount.Some? && input.amount.value != [] ==> PositiveAmount(input.amount.value))
    && (input.memo.Some? ==> Utf8Length(input.memo.value) <= 28 && SafeChars(input.memo.value))
    && (input.msg.Some? ==> SafeText(input.msg.value))
    && Encodable(input.memo) && Encodable(input.msg)
    && AssetEncodable(input) && PassphraseEncodable(input)
  }

  lemma ProblemIff(env: Environment, input: Input)
    ensures InputProblem(env, input).None?
       <==> && (KeyText(env, input.destination, 'G') || KeyText(env, input.destination, 'C'))
            && (input.amount.Some? && input.amount.value != [] ==> PositiveAmount(input.amount.value))
            && (input.memo.Some? ==> Utf8Length(input.memo.value) <= 28 && SafeChars(input.memo.value))
            && (input.msg.Some? ==> SafeText(input.msg.value))
  {
    KeysAreIt(env, input.destination);
    if input.amount.Some? { AmountIff(input.amount.value); }
    if input.memo.Some? { SafeIff(input.memo.value); }
    if input.msg.Some? { SafeIff(input.msg.value); }
  }

  /** What has been printed so far, and one more value. */
  function More(so: Option<Text>, name: string, value: Option<Text>): Option<Text> {
    if so.None? || !Encodable(value) then None
    else if value.None? then so
    else Some(so.value + Shown(name, value.value))
  }

  function PrintedOf(ps: Params): Option<Text>
    requires ps != []
  {
    match EncodePairs(ps)
    case None => None
    case Some(pairs) => Some(UriOf(Join(pairs, AMP)))
  }

  lemma {:induction false} JoinSnoc(parts: seq<Text>, last: Text, sep: Unit)
    requires parts != []
    ensures Join(parts + [last], sep) == Join(parts, sep) + [sep] + last
  {
    var all := parts + [last];
    if |parts| == 1 {
      assert all == [parts[0], last] && all[1..] == [last];
    } else {
      assert all[1..] == parts[1..] + [last];
      JoinSnoc(parts[1..], last, sep);
      assert parts[0] + [sep] + (Join(parts[1..], sep) + [sep] + last) == parts[0] + [sep] + Join(parts[1..], sep) + [sep] + last;
    }
  }

  lemma FourParts(a: Text, b: Text, c: Text, d: Text)
    ensures a + (b + c + d) == a + b + c + d
  {
  }

  lemma ShownPair(p: Param, value: Text)
    requires Encode(value).Some?
    ensures [AMP] + PairText(p, Encode(value).value) == Shown(Name(p), value)
  {
    assert [AMP] == Ascii("&") && [EQUALS] == Ascii("=");
    FourParts([AMP], Ascii(Name(p)), [EQUALS], Encode(value).value);
  }

  lemma PrintedSnoc(ps: Params, p: Param, value: Text)
    requires ps != []
    ensures PrintedOf(ps + [(p, value)]) == More(PrintedOf(ps), Name(p), Some(value))
  {
    var all := ps + [(p, value)];
    assert all[..|all| - 1] == ps && all[|all| - 1] == (p, value);
    if EncodePairs(ps).Some? && Encode(value).Some? {
      var pairs, pair := EncodePairs(ps).value, PairText(p, Encode(value).value);
      assert |pairs| == |ps| && pairs != [];
      JoinSnoc(pairs, pair, AMP);
      ShownPair(p, value);
      LongerUri(Join(pairs, AMP), [AMP], pair);
    }
  }

  lemma LongerUri(query: Text, sep: Text, pair: Text)
    ensures UriOf(query + sep + pair) == UriOf(query) + (sep + pair)
  {
  }

  lemma PrintedPush(ps: Params, p: Param, value: Option<Text>)
    requires ps != []
    ensures PrintedOf(Push(ps, p, value)) == More(PrintedOf(ps), Name(p), value)
  {
    if value.Some? { PrintedSnoc(ps, p, value.value); }
  }

  lemma PrintedDestination(d: Text)
    requires Encode(d) == Some(d)
    ensures PrintedOf([(Destination, d)]) == Some(Ascii("web+stellar:pay?destination=") + d)
  {
    var ps: Params := [(Destination, d)];
    assert ps[..0] == [] && EncodePairs(ps[..0]) == Some([]);
    assert [] + [PairText(Destination, d)] == [PairText(Destination, d)];
    SchemeText(d);
  }

  lemma SchemeText(d: Text)
    ensures UriOf(PairText(Destination, d)) == Ascii("web+stellar:pay?destination=") + d
  {
    AsciiJoins("web+stellar:", "pay");
    AsciiJoins("web+stellar:pay", "?");
    AsciiJoins("web+stellar:pay?", "destination");
    AsciiJoins("web+stellar:pay?destination", "=");
    assert [QUESTION] == Ascii("?") && [EQUALS] == Ascii("=");
    assert UriOf(PairText(Destination, d))
        == Ascii("web+stellar:") + Ascii("pay") + Ascii("?") + Ascii("destination") + Ascii("=") + d;
  }

  lemma AsciiJoins(a: string, b: string)
    ensures Ascii(a) + Ascii(b) == Ascii(a + b)
  {
  }

  predicate AssetEncodable(input: Input) {
    HasIssuer(input) ==> Encode(input.asset.value.code).Some? && Encode(input.asset.value.issuer.value).Some?
  }

  predicate PassphraseEncodable(input: Input) {
    input.network != Mainnet ==> Encodable(input.networkPassphrase)
  }

  /** The asset, when it has an issuer, as its code and its issuer. */
  function AssetText(input: Input): Text
    requires AssetEncodable(input)
  {
    if HasIssuer(input)
    then Shown("asset_code", input.asset.value.code) + Shown("asset_issuer", input.asset.value.issuer.value) else []
  }

  /** The memo with its type. */
  function MemoText(input: Input): Text
    requires Encodable(input.memo)
  {
    if input.memo.Some? && input.memo.value != [] then Shown("memo", input.memo.value) + ShownMemoType() else []
  }

  /** The passphrase, away from the main network. */
  function PassphraseText(input: Input): Text
    requires PassphraseEncodable(input)
  {
    if input.network != Mainnet then ShownIf("network_passphrase", input.networkPassphrase) else []
  }

  /** The URI of an input, value by value. */
  function PrintedText(input: Input): Text
    requires Encodable(input.amount) && AssetEncodable(input) && Encodable(input.memo) && Encodable(input.msg)
    requires PassphraseEncodable(input)
  {
    Ascii("web+stellar:pay?destination=") + input.destination + ShownIf("amount", input.amount) + AssetText(input)
    + MemoText(input) + ShownIf("msg", input.msg) + PassphraseText(input)
  }

  function ShownMemoType(): Text {
    Ascii("&memo_type=MEMO_TEXT")
  }

  /** What has been printed so far with a part after it, if both are there. */
  function Longer(so: Option<Text>, part: Option<Text>): Option<Text> {
    if so.None? || part.None? then None else Some(so.value + part.value)
  }

  lemma MoreGiven(so: Option<Text>, name: string, value: Option<Text>)
    ensures More(so, name, Given(value))
         == Longer(so, if Encodable(value) then Some(ShownIf(name, value)) else None)
  {
    if so.Some? { assert so.value + [] == so.value; }
  }

  lemma PrintedTwo(ps: Params, p: Param, v: Text, q: Param, w: Text)
    requires ps != []
    ensures PrintedOf(ps + [(p, v), (q, w)])
         == Longer(PrintedOf(ps), if Encode(v).Some? && Encode(w).Some? then Some(Shown(Name(p), v) + Shown(Name(q), w)) else None)
  {
    assert ps + [(p, v), (q, w)] == ps + [(p, v)] + [(q, w)];
    PrintedSnoc(ps, p, v);
    PrintedSnoc(ps + [(p, v)], q, w);
    if PrintedOf(ps).Some? && Encode(v).Some? && Encode(w).Some? {
      Associates(PrintedOf(ps).value, Shown(Name(p), v), Shown(Name(q), w));
    }
  }

  lemma NothingLonger(so: Option<Text>)
    ensures Longer(so, Some([])) == so
  {
    if so.Some? { assert so.value + [] == so.value; }
  }

  lemma AssetPart(input: Input)
    ensures PrintedOf(WithAsset(input))
         == Longer(PrintedOf(WithAmount(input)), if AssetEncodable(input) then Some(AssetText(input)) else None)
  {
    if HasIssuer(input) {
      PrintedTwo(WithAmount(input), AssetCode, input.asset.value.code, AssetIssuer, input.asset.value.issuer.value);
    } else {
      NothingLonger(PrintedOf(WithAmount(input)));
    }
  }

  /** Capital letters and underscores are not escaped. */
  lemma WordEncodes(word: string)
    requires forall i :: 0 <= i < |word| ==> 'A' <= word[i] <= 'Z' || word[i] == '_'
    ensures Encode(Ascii(word)) == Some(Ascii(word))
  {
    PlainEncodes(Ascii(word));
  }

  lemma MemoTypeShown()
    ensures Ascii("&") + Ascii("memo_type") + Ascii("=") + Ascii("MEMO_TEXT") == ShownMemoType()
  {
    AsciiJoins("&", "memo_type");
    AsciiJoins("&memo_type", "=");
    AsciiJoins("&memo_type=", "MEMO_TEXT");
  }

  lemma MemoTypeEncodes()
    ensures Encode(Ascii("MEMO_TEXT")) == Some(Ascii("MEMO_TEXT"))
    ensures Shown("memo_type", Ascii("MEMO_TEXT")) == ShownMemoType()
  {
    WordEncodes("MEMO_TEXT");
    MemoTypeShown();
  }

  lemma MemoPrinted(ps: Params, memo: Text, kind: Text)
    requires ps != [] && Encode(kind).Some?
    ensures PrintedOf(ps + [(Memo, memo), (MemoType, kind)])
         == Longer(PrintedOf(ps), if Encode(memo).Some? then Some(Shown("memo", memo) + Shown("memo_type", kind)) else None)
  {
    PrintedTwo(ps, Memo, memo, MemoType, kind);
  }

  lemma MemoPart(input: Input)
    ensures PrintedOf(WithMemo(input))
         == Longer(PrintedOf(WithAsset(input)), if Encodable(input.memo) then Some(MemoText(input)) else None)
  {
    if input.memo.Some? && input.memo.value != [] {
      MemoTypeEncodes();
      MemoPrinted(WithAsset(input), input.memo.value, Ascii("MEMO_TEXT"));
    } else {
      NothingLonger(PrintedOf(WithAsset(input)));
    }
  }

  function WithMsg(input: Input): Params {
    Push(WithMemo(input), Msg, Given(input.msg))
  }

  lemma MsgPart(input: Input)
    ensures PrintedOf(WithMsg(input))
         == Longer(PrintedOf(WithMemo(input)), if Encodable(input.msg) then Some(ShownIf("msg", input.msg)) else None)
  {
    PrintedPush(WithMemo(input), Msg, Given(input.msg));
    MoreGiven(PrintedOf(WithMemo(input)), "msg", input.msg);
  }

  lemma PassphrasePart(input: Input)
    ensures PrintedOf(PayParams(input))
         == Longer(PrintedOf(WithMsg(input)), if PassphraseEncodable(input) then Some(PassphraseText(input)) else None)
  {
    PrintedPush(WithMsg(input), NetworkPassphrase, PassphraseOf(input));
    if input.network != Mainnet {
      MoreGiven(PrintedOf(WithMsg(input)), "network_passphrase", input.networkPassphrase);
    } else {
      NothingLonger(PrintedOf(WithMsg(input)));
    }
  }

  lemma FirstParts(input: Input)
    requires Encode(input.destination) == Some(input.destination)
    ensures PrintedOf(WithAmount(input)) == Longer(
      Some(Ascii("web+stellar:pay?destination=") + input.destination),
      if Encodable(input.amount) then Some(ShownIf("amount", input.amount)) else None)
  {
    var first: Params := [(Destination, input.destination)];
    PrintedDestination(input.destination);
    PrintedPush(first, Amount, Given(input.amount));
    MoreGiven(PrintedOf(first), "amount", input.amount);
  }

  lemma AllParts(input: Input)
    requires Encode(input.destination) == Some(input.destination) && Encodable(input.amount)
    ensures PrintedOf(PayParams(input))
         == if AssetEncodable(input) && Encodable(input.memo) && Encodable(input.msg) && PassphraseEncodable(input)
            then Some(PrintedText(input)) else None
  {
    FirstParts(input);
    AssetPart(input);
    MemoPart(input);
    MsgPart(input);
    PassphrasePart(input);
  }

  /** Printing goes through exactly for printable inputs, and this is the text. */
  lemma BuildIsExact(env: Environment, input: Input)
    ensures Build(env, input).Success? <==> Printable(env, input)
    ensures Printable(env, input) ==>
      Encodable(input.amount) && Build(env, input) == Success(PrintedText(input))
  {
    ProblemIff(env, input);
    if InputProblem(env, input).None? {
      KeyEncodes(input.destination);
      if input.amount.Some? && input.amount.value != [] { AmountEncodes(input.amount.value); }
      AllParts(input);
    }
  }

  /** An input that cannot be printed is refused for its destination, its amount or its texts, in this order; else for what cannot be encoded. */
  lemma WhyNotPrinted(env: Environment, input: Input)
    requires !Printable(env, input)
    ensures Build(env, input) == Failure(
      if !KeyText(env, input.destination, 'G') && !KeyText(env, input.destination, 'C') then InvalidDestination
      else if input.amount.Some? && input.amount.value != [] && !PositiveAmount(input.amount.value) then InvalidAmount
      else if input.memo.Some? && !(Utf8Length(input.memo.value) <= 28 && SafeChars(input.memo.value)) then UnsafeText
      else if input.msg.Some? && !SafeText(input.msg.value) then UnsafeText
      else UriError)
  {
    BuildIsExact(env, input);
    ProblemIff(env, input);
    KeysAreIt(env, input.destination);
    if input.amount.Some? { AmountIff(input.amount.value); }
    if input.memo.Some? { SafeIff(input.memo.value); }
    if input.msg.Some? { SafeIff(input.msg.value); }
  }
}
