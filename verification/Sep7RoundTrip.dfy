/** Parsing a printed payment request gives the request back. */
module Sep7RoundTrip {
  import opened Wrappers
  import opened Sequences
  import opened Text
  import opened PercentEncoding
  import opened Sep7

  // ---- Fields of a query, in any order ----

  type EntryResult = Result<(Param, Text), Sep7Error>

  /** One more field, when it reads and its name is new. */
  function AddEntry(fields: Option<Fields>, entry: EntryResult): Option<Fields> {
    if fields.None? || entry.Failure? || entry.value.0 in fields.value then None
    else Some(fields.value[entry.value.0 := entry.value.1])
  }

  /** The fields of the pairs of a query, when every pair reads and no name repeats. */
  function Gather(pairs: seq<Text>): Option<Fields> {
    if pairs == [] then Some(map[]) else AddEntry(Gather(pairs[1..]), Entry(pairs[0]))
  }

  lemma AddInAnyOrder(fields: Option<Fields>, a: EntryResult, b: EntryResult)
    ensures AddEntry(AddEntry(fields, a), b) == AddEntry(AddEntry(fields, b), a)
  {
    if fields.Some? && a.Success? && b.Success? && a.value.0 != b.value.0 {
      assert fields.value[a.value.0 := a.value.1][b.value.0 := b.value.1]
          == fields.value[b.value.0 := b.value.1][a.value.0 := a.value.1];
    }
  }

  /** Any pair may be gathered last. */
  lemma {:induction false} TakeOut(pairs: seq<Text>, i: nat)
    requires i < |pairs|
    ensures Gather(pairs) == AddEntry(Gather(Without(pairs, i)), Entry(pairs[i]))
  {
    if i == 0 {
      assert Without(pairs, 0) == pairs[1..];
    } else {
      TakeOut(pairs[1..], i - 1);
      WithoutLater(pairs, i);
      GatherHead(pairs[0], Without(pairs[1..], i - 1));
      AddInAnyOrder(Gather(Without(pairs[1..], i - 1)), Entry(pairs[i]), Entry(pairs[0]));
    }
  }

  lemma GatherHead(pair: Text, pairs: seq<Text>)
    ensures Gather([pair] + pairs) == AddEntry(Gather(pairs), Entry(pair))
  {
    assert ([pair] + pairs)[1..] == pairs;
  }

  ghost predicate Joins(r: Result<Fields, Sep7Error>, fields: Fields, rest: Option<Fields>) {
    if r.Success? then rest.Some? && fields.Keys !! rest.value.Keys && r.value == fields + rest.value
    else rest.None? || exists p :: p in fields && p in rest.value
  }

  /** The loop of the parser gathers the pairs, on top of what it already has. */
  lemma {:induction false} CollectGathers(pairs: seq<Text>, fields: Fields)
    ensures Joins(Collect(pairs, fields), fields, Gather(pairs))
  {
    if pairs != [] && Entry(pairs[0]).Success? && Entry(pairs[0]).value.0 !in fields {
      var (p, v) := Entry(pairs[0]).value;
      CollectGathers(pairs[1..], fields[p := v]);
      if Gather(pairs[1..]).Some? {
        var rest := Gather(pairs[1..]).value;
        if p !in rest && Collect(pairs, fields).Success? {
          assert fields[p := v] + rest == fields + rest[p := v];
        }
      }
    }
  }

  lemma CollectFromEmpty(pairs: seq<Text>)
    ensures Collect(pairs, map[]).Success? <==> Gather(pairs).Some?
    ensures Gather(pairs).Some? ==> Collect(pairs, map[]) == Success(Gather(pairs).value)
  {
    CollectGathers(pairs, map[]);
    if Gather(pairs).Some? {
      assert map[] + Gather(pairs).value == Gather(pairs).value;
    }
  }

  lemma GatherSnoc(pairs: seq<Text>, pair: Text)
    ensures Gather(pairs + [pair]) == AddEntry(Gather(pairs), Entry(pair))
  {
    TakeOut(pairs + [pair], |pairs|);
    assert Without(pairs + [pair], |pairs|) == pairs;
  }

  // ---- Names ----

  predicate PlainName(s: string) {
    s != "" && forall i :: 0 <= i < |s| ==> 'a' <= s[i] <= 'z' || s[i] == '_'
  }

  lemma NamesArePlain(p: Param)
    ensures PlainName(Name(p))
  {
    match p
    case Destination => assert PlainName("destination");
    case Amount => assert PlainName("amount");
    case AssetCode => assert PlainName("asset_code");
    case AssetIssuer => assert PlainName("asset_issuer");
    case Memo => assert PlainName("memo");
    case MemoType => assert PlainName("memo_type");
    case Callback => assert PlainName("callback");
    case Msg => assert PlainName("msg");
    case NetworkPassphrase => assert PlainName("network_passphrase");
    case OriginDomain => assert PlainName("origin_domain");
    case Signature => assert PlainName("signature");
  }

  predicate PlainKey(name: Text) {
    name != [] && forall i :: 0 <= i < |name| ==> IsUnreserved(name[i]) && name[i] != EQUALS && name[i] != PLUS
  }

  lemma PlainUnits(s: string)
    requires PlainName(s)
    ensures PlainKey(Ascii(s))
  {
    forall i | 0 <= i < |s|
      ensures IsUnreserved(Ascii(s)[i]) && Ascii(s)[i] != EQUALS && Ascii(s)[i] != PLUS
    {
      assert Ascii(s)[i] == (s[i] as int) as Unit;
    }
  }

  lemma KeysArePlain(p: Param)
    ensures PlainKey(Ascii(Name(p)))
  {
    NamesArePlain(p);
    PlainUnits(Name(p));
  }

  lemma NamesReadBack(p: Param)
    ensures ParamOf(Ascii(Name(p))) == Some(p)
  {
    if p.Signature? {
      assert Ascii(Name(Signature))[0] != Ascii(Name(MemoType))[0];
    }
  }

  lemma {:induction false} IndexOfFirst(a: Text, u: Unit, rest: Text)
    requires u !in a
    ensures IndexOf(a + [u] + rest, u) == |a|
  {
    var s := a + [u] + rest;
    if a != [] {
      assert s[1..] == a[1..] + [u] + rest;
      IndexOfFirst(a[1..], u, rest);
    }
  }

  /** A pair takes apart at its first equals sign. */
  lemma PairTakesApart(name: Text, encoded: Text)
    requires PlainKey(name)
    ensures var pair := name + [EQUALS] + encoded;
      IndexOf(pair, EQUALS) == |name| && pair[..|name|] == name && pair[|name| + 1..] == encoded
  {
    IndexOfFirst(name, EQUALS, encoded);
  }

  lemma KeyDecodes(name: Text)
    requires PlainKey(name)
    ensures DecodeForm(name) == Some(name)
  {
    PlainHasNoPlus(name);
    UnreservedDecodes(name);
  }

  lemma RawEntryReads(p: Param, raw: Text, v: Text)
    requires DecodeForm(raw) == Some(v)
    ensures Entry(PairText(p, raw)) == Success((p, v))
  {
    KeysArePlain(p);
    PairTakesApart(Ascii(Name(p)), raw);
    KeyDecodes(Ascii(Name(p)));
    NamesReadBack(p);
  }

  lemma EntryReads(p: Param, v: Text)
    requires Encode(v).Some?
    ensures Entry(PairText(p, Encode(v).value)) == Success((p, v))
  {
    DecodeFormEncode(v);
    RawEntryReads(p, Encode(v).value, v);
  }

  // ---- The printed fields ----

  function FieldMap(ps: Params): Fields {
    if ps == [] then map[] else FieldMap(ps[..|ps| - 1])[ps[|ps| - 1].0 := ps[|ps| - 1].1]
  }

  predicate Distinct(ps: Params) {
    ps == [] || (ps[|ps| - 1].0 !in FieldMap(ps[..|ps| - 1]) && Distinct(ps[..|ps| - 1]))
  }

  lemma {:induction false} PrintedGathers(ps: Params)
    requires Distinct(ps) && EncodePairs(ps).Some?
    ensures Gather(EncodePairs(ps).value) == Some(FieldMap(ps))
  {
    if ps != [] {
      var before, last := ps[..|ps| - 1], ps[|ps| - 1];
      PrintedGathers(before);
      EntryReads(last.0, last.1);
      GatherSnoc(EncodePairs(before).value, PairText(last.0, Encode(last.1).value));
    }
  }

  lemma Pushed(ps: Params, p: Param, v: Text)
    ensures FieldMap(ps + [(p, v)]) == FieldMap(ps)[p := v]
    ensures Distinct(ps) && p !in FieldMap(ps) ==> Distinct(ps + [(p, v)])
  {
    assert (ps + [(p, v)])[..|ps|] == ps;
  }

  /** What an input asks the URI to say of each field. */
  function Field(input: Input, p: Param): Option<Text> {
    match p
    case Destination => Some(input.destination)
    case Amount => Given(input.amount)
    case AssetCode => if IssuerOf(input).Some? then Some(input.asset.value.code) else None
    case AssetIssuer => IssuerOf(input)
    case Memo => Given(input.memo)
    case MemoType => if Given(input.memo).Some? then Some(Ascii("MEMO_TEXT")) else None
    case Msg => Given(input.msg)
    case NetworkPassphrase => PassphraseOf(input)
    case Callback => None
    case OriginDomain => None
    case Signature => None
  }

  /** The order in which the printer writes the fields. */
  function Position(p: Param): nat {
    match p
    case Destination => 0
    case Amount => 1
    case AssetCode => 2
    case AssetIssuer => 3
    case Memo => 4
    case MemoType => 5
    case Msg => 6
    case NetworkPassphrase => 7
    case Callback => 8
    case OriginDomain => 9
    case Signature => 10
  }

  /** The first `n` fields are said as the input has them, and no others. */
  ghost predicate Stage(input: Input, ps: Params, n: nat) {
    && Distinct(ps)
    && forall p :: Lookup(FieldMap(ps), p) == if Position(p) < n then Field(input, p) else None
  }

  lemma OtherPosition(p: Param, q: Param)
    requires p != q
    ensures Position(p) != Position(q)
  {
  }

  lemma StagePush(input: Input, ps: Params, p: Param)
    requires Stage(input, ps, Position(p))
    ensures Stage(input, Push(ps, p, Field(input, p)), Position(p) + 1)
  {
    var next := Push(ps, p, Field(input, p));
    assert Lookup(FieldMap(ps), p).None?;
    if Field(input, p).Some? { Pushed(ps, p, Field(input, p).value); }
    forall q ensures Lookup(FieldMap(next), q) == if Position(q) < Position(p) + 1 then Field(input, q) else None {
      if q != p {
        OtherPosition(p, q);
        assert Lookup(FieldMap(next), q) == Lookup(FieldMap(ps), q);
      }
    }
  }

  lemma StageTwo(input: Input, ps: Params, p: Param, q: Param)
    requires Stage(input, ps, Position(p)) && Position(q) == Position(p) + 1
    requires Field(input, p).Some? && Field(input, q).Some?
    ensures Stage(input, ps + [(p, Field(input, p).value), (q, Field(input, q).value)], Position(q) + 1)
  {
    StagePush(input, ps, p);
    var one := ps + [(p, Field(input, p).value)];
    StagePush(input, one, q);
    assert ps + [(p, Field(input, p).value), (q, Field(input, q).value)] == one + [(q, Field(input, q).value)];
  }

  lemma StageSkip(input: Input, ps: Params, p: Param, q: Param)
    requires Stage(input, ps, Position(p)) && Position(q) == Position(p) + 1
    requires Field(input, p).None? && Field(input, q).None?
    ensures Stage(input, ps, Position(q) + 1)
  {
    StagePush(input, ps, p);
    StagePush(input, ps, q);
  }

  lemma SaysAmount(input: Input)
    ensures Stage(input, WithAmount(input), 2)
  {
    StagePush(input, [], Destination);
    var first := [(Destination, input.destination)];
    assert Push([], Destination, Some(input.destination)) == first;
    StagePush(input, first, Amount);
  }

  lemma SaysAsset(input: Input)
    ensures Stage(input, WithAsset(input), 4)
  {
    SaysAmount(input);
    if IssuerOf(input).Some? {
      StageTwo(input, WithAmount(input), AssetCode, AssetIssuer);
    } else {
      StageSkip(input, WithAmount(input), AssetCode, AssetIssuer);
    }
  }

  lemma SaysMemo(input: Input)
    ensures Stage(input, WithMemo(input), 6)
  {
    SaysAsset(input);
    if Given(input.memo).Some? {
      StageTwo(input, WithAsset(input), Memo, MemoType);
    } else {
      StageSkip(input, WithAsset(input), Memo, MemoType);
    }
  }

  ghost predicate Says(input: Input, fields: Fields) {
    forall p :: Lookup(fields, p) == Field(input, p)
  }

  lemma Complete(input: Input, ps: Params)
    requires Stage(input, ps, 8)
    ensures Distinct(ps) && Says(input, FieldMap(ps))
  {
    forall p ensures Position(p) >= 8 ==> Field(input, p).None? {
    }
  }

  lemma SaysAll(input: Input)
    ensures Distinct(PayParams(input)) && Says(input, FieldMap(PayParams(input)))
  {
    SaysMemo(input);
    StagePush(input, WithMemo(input), Msg);
    StagePush(input, Push(WithMemo(input), Msg, Given(input.msg)), NetworkPassphrase);
    Complete(input, PayParams(input));
  }

  // ---- The printed text ----

  predicate IsQueryUnit(u: Unit) {
    IsPlain(u) || u == EQUALS
  }

  predicate AllQueryUnits(s: Text) {
    forall i :: 0 <= i < |s| ==> IsQueryUnit(s[i])
  }

  lemma PairUnits(p: Param, encoded: Text)
    requires AllPlain(encoded)
    ensures AllQueryUnits(PairText(p, encoded)) && PairText(p, encoded) != []
  {
    KeysArePlain(p);
  }

  lemma {:induction false} PairsUnits(ps: Params)
    requires EncodePairs(ps).Some?
    ensures forall i :: 0 <= i < |ps| ==> AllQueryUnits(EncodePairs(ps).value[i]) && EncodePairs(ps).value[i] != []
  {
    if ps != [] {
      var last := ps[|ps| - 1];
      PairsUnits(ps[..|ps| - 1]);
      PairUnits(last.0, Encode(last.1).value);
    }
  }

  lemma {:induction false} JoinUnits(pairs: seq<Text>)
    requires pairs != [] && forall i :: 0 <= i < |pairs| ==> AllQueryUnits(pairs[i]) && pairs[i] != []
    ensures Join(pairs, AMP) != []
    ensures forall i :: 0 <= i < |Join(pairs, AMP)| ==> IsQueryUnit(Join(pairs, AMP)[i]) || Join(pairs, AMP)[i] == AMP
  {
    if |pairs| > 1 {
      JoinUnits(pairs[1..]);
    }
  }

  lemma TrimNothing(s: Text)
    requires s != [] && !IsSpace(s[0]) && !IsSpace(s[|s| - 1])
    ensures Trim(s) == s
  {
  }

  lemma SchemeLowers()
    ensures |Scheme()| == 12 && forall i :: 0 <= i < |Scheme()| ==> 58 <= Scheme()[i] <= 122 || Scheme()[i] == 43
    ensures !IsSpace(Scheme()[0])
  {
  }

  lemma QueryOfUri(query: Text)
    requires query != [] && HASH !in query && |UriOf(query)| <= MAX_URI_LENGTH
    ensures Query(UriOf(query)) == Success(query)
  {
    var uri := UriOf(query);
    SchemeLowers();
    assert uri[..12] == Scheme();
    var rest := Ascii("pay") + [QUESTION] + query;
    assert uri[12..] == rest;
    IndexOfFirst(Ascii("pay"), QUESTION, query);
    assert rest[..3] == Ascii("pay") && rest[4..] == query;
  }

  lemma NoAmpersand(pairs: seq<Text>)
    requires forall i :: 0 <= i < |pairs| ==> AllQueryUnits(pairs[i])
    ensures forall i :: 0 <= i < |pairs| ==> AMP !in pairs[i]
  {
    forall i | 0 <= i < |pairs| ensures AMP !in pairs[i] {
    }
  }

  lemma UriIsTrimmed(query: Text)
    requires query != [] && !IsSpace(query[|query| - 1])
    ensures Trim(UriOf(query)) == UriOf(query)
  {
    SchemeLowers();
    var uri := UriOf(query);
    assert uri[|uri| - 1] == query[|query| - 1] && uri[0] == Scheme()[0];
    TrimNothing(uri);
  }

  /** A printed URI has nothing to trim and carries its pairs. */
  lemma PrintedPairs(ps: Params)
    requires ps != [] && EncodePairs(ps).Some?
    ensures var uri := UriOf(Join(EncodePairs(ps).value, AMP));
      Trim(uri) == uri
      && (|uri| <= MAX_URI_LENGTH ==>
            && Query(uri) == Success(Join(EncodePairs(ps).value, AMP))
            && Split(Query(uri).value, AMP) == EncodePairs(ps).value)
  {
    var pairs := EncodePairs(ps).value;
    var query := Join(pairs, AMP);
    PairsUnits(ps);
    JoinUnits(pairs);
    UriIsTrimmed(query);
    NoAmpersand(pairs);
    SplitJoin(pairs, AMP);
    if |UriOf(query)| <= MAX_URI_LENGTH { QueryOfUri(query); }
  }

  // ---- The round trip ----

  /** The asset of an input is the native one, or one the registry has, under a code and issuer that are well formed. */
  predicate Registered(env: Environment, input: Input) {
    && env.registry(input.network) != []
    && match IssuerOf(input)
       case None => input.asset.Some? ==> input.asset.value == env.registry(input.network)[0]
       case Some(issuer) =>
         && IsAccount(env, issuer) && IsAssetCode(input.asset.value.code)
         && FindAsset(env.registry(input.network), input.asset.value.code, issuer) == input.asset
  }

  function AssetOf(env: Environment, input: Input): Asset
    requires env.registry(input.network) != []
  {
    if input.asset.Some? then input.asset.value else env.registry(input.network)[0]
  }

  /** The network a wallet takes a printed request to be for. */
  predicate SameNetwork(ctx: Context, input: Input) {
    input.network == Mainnet || PassphraseOf(input) == Some(ctx.networkPassphrase)
  }

  function Expected(env: Environment, ctx: Context, input: Input): Result<Request, Sep7Error>
    requires Registered(env, input) && DestinationKind(env, input.destination).Some?
  {
    if Given(input.memo).Some? then Failure(MemoUnsupported)
    else if !SameNetwork(ctx, input) then Failure(WrongNetwork)
    else Success(Request(input.destination, DestinationKind(env, input.destination).value, Given(input.amount),
                         AssetOf(env, input), Given(input.msg), None, None))
  }

  lemma DestinationPrinted(env: Environment, input: Input, fields: Fields)
    requires InputProblem(env, input).None? && Says(input, fields)
    ensures Destination in fields && fields[Destination] == input.destination
    ensures DestinationProblem(env, fields).None?
  {
    assert Lookup(fields, Destination) == Some(input.destination);
  }

  lemma EarlyPrinted(env: Environment, ctx: Context, input: Input, fields: Fields)
    requires ctx.network == input.network && Says(input, fields)
    ensures Or(CarriageProblem(fields), NetworkProblem(ctx, fields)) ==
      if Given(input.memo).Some? then Some(MemoUnsupported)
      else if !SameNetwork(ctx, input) then Some(WrongNetwork) else None
  {
    assert Lookup(fields, Callback).None?;
    assert Lookup(fields, Memo) == Given(input.memo) && Lookup(fields, MemoType).Some? == Given(input.memo).Some?;
    assert Lookup(fields, NetworkPassphrase) == PassphraseOf(input);
  }

  lemma AssetPrinted(env: Environment, ctx: Context, input: Input, fields: Fields)
    requires Registered(env, input) && ctx.network == input.network && Says(input, fields)
    ensures ResolveAsset(env, ctx, fields) == Success(AssetOf(env, input))
  {
    assert Lookup(fields, AssetIssuer) == IssuerOf(input) == Field(input, AssetIssuer);
    assert Lookup(fields, AssetCode) == Field(input, AssetCode);
  }

  lemma LatePrinted(env: Environment, input: Input, fields: Fields)
    requires InputProblem(env, input).None? && Says(input, fields)
    ensures Or(TextProblem(fields), OriginProblem(fields)).None?
    ensures Lookup(fields, OriginDomain).None? && Lookup(fields, Signature).None?
    ensures Lookup(fields, Amount) == Given(input.amount) && Given(Lookup(fields, Msg)) == Given(input.msg)
  {
    assert Lookup(fields, OriginDomain).None? && Lookup(fields, Signature).None?;
    assert Lookup(fields, Amount) == Given(input.amount) && Lookup(fields, Msg) == Given(input.msg);
  }

  lemma CheckPrinted(env: Environment, ctx: Context, input: Input, fields: Fields)
    requires Registered(env, input) && InputProblem(env, input).None? && ctx.network == input.network
    requires Says(input, fields)
    ensures Check(env, ctx, fields) == Expected(env, ctx, input)
  {
    DestinationPrinted(env, input, fields);
    EarlyPrinted(env, ctx, input, fields);
    AssetPrinted(env, ctx, input, fields);
    LatePrinted(env, input, fields);
  }

  /**
   * What the wallet's parser makes of any URI its own printer prints: the same
   * request, unless it is too long, has a memo or is for another network.
   */
  lemma RoundTrip(env: Environment, ctx: Context, input: Input)
    requires Registered(env, input) && ctx.network == input.network
    requires Build(env, input).Success?
    ensures var uri := Build(env, input).value;
      Parse(env, ctx, uri) ==
        if |uri| > MAX_URI_LENGTH then Failure(TooLong)
        else match Expected(env, ctx, input)
             case Failure(e) => Failure(e)
             case Success(request) => Success(Parsed(request, uri))
  {
    var ps := PayParams(input);
    PrintedPairs(ps);
    SaysAll(input);
    PrintedGathers(ps);
    CollectFromEmpty(EncodePairs(ps).value);
    CheckPrinted(env, ctx, input, FieldMap(ps));
  }
}
