/**
 * SEP-7 payment requests (apps/web/lib/sep7.ts): the printer of the receive
 * screen and the parser of incoming `web+stellar:pay` URIs.
 */
module Sep7 {
  import opened Wrappers
  import opened Text
  import opened PercentEncoding

  const AMP: Unit := 38
  const EQUALS: Unit := 61
  const QUESTION: Unit := 63
  const HASH: Unit := 35
  const DOT: Unit := 46
  const DASH: Unit := 45

  const MAX_URI_LENGTH: nat := 2048
  const MAX_MSG_LENGTH: nat := 300
  const MAX_MEMO_TEXT_BYTES: nat := 28

  datatype Network = Testnet | Mainnet

  datatype Asset = Asset(code: Text, issuer: Option<Text>)

  /** The checksum of an encoded key and the token registry are settled elsewhere. */
  datatype Environment = Environment(checksum: Text -> bool, registry: Network -> seq<Asset>)

  datatype Context = Context(network: Network, networkPassphrase: Text)

  datatype Sep7Error =
    | TooLong | BadScheme | UnsupportedOperation | Malformed | DuplicateParam | UnknownParam
    | MissingDestination | InvalidDestination | UnsupportedDestination | InvalidAmount
    | InvalidAsset | UnregisteredAsset | MemoUnsupported | CallbackUnsupported | WrongNetwork
    | UnsafeText | InvalidOrigin | UriError

  datatype Param =
    | Destination | Amount | AssetCode | AssetIssuer | Memo | MemoType | Callback | Msg
    | NetworkPassphrase | OriginDomain | Signature

  datatype Kind = Account | Contract

  datatype Request = Request(
    destination: Text, kind: Kind, amount: Option<Text>, asset: Asset, msg: Option<Text>,
    originDomain: Option<Text>, signature: Option<Text>)

  datatype Parsed = Parsed(request: Request, uri: Text)

  datatype Input = Input(
    destination: Text, amount: Option<Text>, asset: Option<Asset>, memo: Option<Text>,
    msg: Option<Text>, networkPassphrase: Option<Text>, network: Network)

  function Scheme(): Text { Ascii("web+stellar:") }

  function Name(p: Param): string {
    match p
    case Destination => "destination"
    case Amount => "amount"
    case AssetCode => "asset_code"
    case AssetIssuer => "asset_issuer"
    case Memo => "memo"
    case MemoType => "memo_type"
    case Callback => "callback"
    case Msg => "msg"
    case NetworkPassphrase => "network_passphrase"
    case OriginDomain => "origin_domain"
    case Signature => "signature"
  }

  function ParamOf(key: Text): Option<Param> {
    if key == Ascii(Name(Destination)) then Some(Destination)
    else if key == Ascii(Name(Amount)) then Some(Amount)
    else if key == Ascii(Name(AssetCode)) then Some(AssetCode)
    else if key == Ascii(Name(AssetIssuer)) then Some(AssetIssuer)
    else if key == Ascii(Name(Memo)) then Some(Memo)
    else if key == Ascii(Name(MemoType)) then Some(MemoType)
    else if key == Ascii(Name(Callback)) then Some(Callback)
    else if key == Ascii(Name(Msg)) then Some(Msg)
    else if key == Ascii(Name(NetworkPassphrase)) then Some(NetworkPassphrase)
    else if key == Ascii(Name(OriginDomain)) then Some(OriginDomain)
    else if key == Ascii(Name(Signature)) then Some(Signature)
    else None
  }

  // ---- Values ----

  predicate IsKey(env: Environment, s: Text, length: nat, prefix: Unit) {
    && |s| == length > 0 && s[0] == prefix
    && (forall i :: 0 <= i < |s| ==> 65 <= s[i] <= 90 || 50 <= s[i] <= 55)
    && env.checksum(s)
  }

  predicate IsAccount(env: Environment, s: Text) { IsKey(env, s, 56, 71) }

  predicate IsContract(env: Environment, s: Text) { IsKey(env, s, 56, 67) }

  predicate IsMuxed(env: Environment, s: Text) { IsKey(env, s, 69, 77) }

  function DestinationKind(env: Environment, s: Text): Option<Kind> {
    if IsAccount(env, s) then Some(Account) else if IsContract(env, s) then Some(Contract) else None
  }

  function IndexOf(s: Text, u: Unit): (i: int)
    ensures -1 <= i < |s|
    ensures i >= 0 ==> s[i] == u && u !in s[..i]
    ensures i < 0 ==> u !in s
  {
    if s == [] then -1
    else if s[0] == u then 0
    else var i := IndexOf(s[1..], u); if i < 0 then -1 else assert s[..i + 1] == [s[0]] + s[1..][..i]; i + 1
  }

  predicate IsWhole(s: Text) {
    s == [48] || (1 <= |s| <= 12 && AllDigits(s) && s[0] != 48)
  }

  /** A positive decimal of at most twelve digits and seven decimals. */
  predicate IsValidAmount(s: Text) {
    var dot := IndexOf(s, DOT);
    && (if dot < 0 then IsWhole(s)
        else IsWhole(s[..dot]) && 1 <= |s| - dot - 1 <= 7 && AllDigits(s[dot + 1..]))
    && exists i :: 0 <= i < |s| && 49 <= s[i] <= 57
  }

  /** Control characters, zero-width characters and bidirectional overrides. */
  predicate IsUnsafe(u: Unit) {
    || u <= 0x1F || 0x7F <= u <= 0x9F || 0x200B <= u <= 0x200F || 0x202A <= u <= 0x202E
    || 0x2066 <= u <= 0x2069 || u == 0xFEFF
  }

  predicate HasUnsafe(s: Text) {
    exists i :: 0 <= i < |s| && IsUnsafe(s[i])
  }

  predicate IsAssetCode(s: Text) {
    1 <= |s| <= 12 && forall i :: 0 <= i < |s| ==> IsAlphanumeric(s[i])
  }

  predicate IsLower(u: Unit) { 97 <= u <= 122 }

  predicate IsLabel(s: Text) {
    && 1 <= |s| <= 63 && s[0] != DASH && s[|s| - 1] != DASH
    && forall i :: 0 <= i < |s| ==> IsLower(s[i]) || IsDigit(s[i]) || s[i] == DASH
  }

  /** A fully qualified domain name. */
  predicate IsDomain(s: Text) {
    var labels := Split(s, DOT);
    var top := labels[|labels| - 1];
    && 1 <= |s| <= 253 && |labels| > 1
    && (forall i :: 0 <= i < |labels| - 1 ==> IsLabel(labels[i]))
    && 2 <= |top| <= 63 && forall i :: 0 <= i < |top| ==> IsLower(top[i])
  }

  function FindAsset(assets: seq<Asset>, code: Text, issuer: Text): (r: Option<Asset>)
    ensures r.Some? ==> r.value.code == code && r.value.issuer == Some(issuer)
  {
    if assets == [] then None
    else if assets[0].code == code && assets[0].issuer == Some(issuer) then Some(assets[0])
    else FindAsset(assets[1..], code, issuer)
  }

  // ---- Printing ----

  /** An optional field that is absent or empty is not printed. */
  function Given(o: Option<Text>): Option<Text> {
    if o == Some([]) then None else o
  }

  function IssuerOf(input: Input): Option<Text> {
    if input.asset.Some? then Given(input.asset.value.issuer) else None
  }

  function PassphraseOf(input: Input): Option<Text> {
    if input.network != Mainnet then Given(input.networkPassphrase) else None
  }

  predicate UnsafeMemo(memo: Text) {
    Utf8Length(memo) > MAX_MEMO_TEXT_BYTES || HasUnsafe(memo)
  }

  predicate UnsafeMsg(msg: Text) {
    |msg| > MAX_MSG_LENGTH || HasUnsafe(msg)
  }

  type Params = seq<(Param, Text)>

  function Push(ps: Params, p: Param, v: Option<Text>): Params {
    if v.Some? then ps + [(p, v.value)] else ps
  }

  function WithAmount(input: Input): Params {
    Push([(Destination, input.destination)], Amount, Given(input.amount))
  }

  /** The asset goes out as code and issuer. */
  function WithAsset(input: Input): Params {
    if IssuerOf(input).None? then WithAmount(input)
    else WithAmount(input) + [(AssetCode, input.asset.value.code), (AssetIssuer, IssuerOf(input).value)]
  }

  /** A memo goes out with its type. */
  function WithMemo(input: Input): Params {
    if Given(input.memo).None? then WithAsset(input)
    else WithAsset(input) + [(Memo, input.memo.value), (MemoType, Ascii("MEMO_TEXT"))]
  }

  function PayParams(input: Input): Params {
    Push(Push(WithMemo(input), Msg, Given(input.msg)), NetworkPassphrase, PassphraseOf(input))
  }

  function InputProblem(env: Environment, input: Input): Option<Sep7Error> {
    if DestinationKind(env, input.destination).None? then Some(InvalidDestination)
    else if Given(input.amount).Some? && !IsValidAmount(input.amount.value) then Some(InvalidAmount)
    else if Given(input.memo).Some? && UnsafeMemo(input.memo.value) then Some(UnsafeText)
    else if Given(input.msg).Some? && UnsafeMsg(input.msg.value) then Some(UnsafeText)
    else None
  }

  function PairText(p: Param, encoded: Text): Text {
    Ascii(Name(p)) + [EQUALS] + encoded
  }

  function EncodePairs(ps: Params): (r: Option<seq<Text>>)
    ensures r.Some? ==> |r.value| == |ps|
  {
    if ps == [] then Some([])
    else
      var last := ps[|ps| - 1];
      var before, encoded := EncodePairs(ps[..|ps| - 1]), Encode(last.1);
      if before.None? || encoded.None? then None
      else Some(before.value + [PairText(last.0, encoded.value)])
  }

  function UriOf(query: Text): Text {
    Scheme() + Ascii("pay") + [QUESTION] + query
  }

  function Printed(ps: Params): Result<Text, Sep7Error>
    requires ps != []
  {
    match EncodePairs(ps)
    case None => Failure(UriError)
    case Some(pairs) => Success(UriOf(Join(pairs, AMP)))
  }

  function Build(env: Environment, input: Input): Result<Text, Sep7Error> {
    match InputProblem(env, input)
    case Some(e) => Failure(e)
    case None => Printed(PayParams(input))
  }

  method BuildPayUri(env: Environment, input: Input) returns (r: Result<Text, Sep7Error>)
    ensures r == Build(env, input)
  {
    if DestinationKind(env, input.destination).None? { return Failure(InvalidDestination); }
    var params: Params := [(Destination, input.destination)];
    if Given(input.amount).Some? {
      if !IsValidAmount(input.amount.value) { return Failure(InvalidAmount); }
      params := params + [(Amount, input.amount.value)];
    }
    assert params == WithAmount(input);
    if IssuerOf(input).Some? {
      params := params + [(AssetCode, input.asset.value.code), (AssetIssuer, input.asset.value.issuer.value)];
    }
    assert params == WithAsset(input);
    if Given(input.memo).Some? {
      if UnsafeMemo(input.memo.value) { return Failure(UnsafeText); }
      params := params + [(Memo, input.memo.value), (MemoType, Ascii("MEMO_TEXT"))];
    }
    assert params == WithMemo(input);
    if Given(input.msg).Some? {
      if UnsafeMsg(input.msg.value) { return Failure(UnsafeText); }
      params := params + [(Msg, input.msg.value)];
    }
    if PassphraseOf(input).Some? {
      params := params + [(NetworkPassphrase, input.networkPassphrase.value)];
    }
    assert params == PayParams(input) && InputProblem(env, input).None?;
    r := Printed(params);
  }

  // ---- Parsing ----

  /** Lower case as far as it can meet the scheme: no other character lowers to one of its letters. */
  function Lower(u: Unit): Unit {
    if 65 <= u <= 90 then u + 32 else u
  }

  predicate HasScheme(uri: Text) {
    |uri| >= |Scheme()| && forall i :: 0 <= i < |Scheme()| ==> Lower(uri[i]) == Scheme()[i]
  }

  /** What follows `pay?` in a trimmed URI. */
  function Query(uri: Text): (r: Result<Text, Sep7Error>)
    ensures r.Success? ==> |r.value| <= |uri| && r.value == uri[|uri| - |r.value|..]
  {
    if |uri| > MAX_URI_LENGTH then Failure(TooLong)
    else if !HasScheme(uri) then Failure(BadScheme)
    else
      var rest := uri[|Scheme()|..];
      var q := IndexOf(rest, QUESTION);
      if (if q < 0 then rest else rest[..q]) != Ascii("pay") then Failure(UnsupportedOperation)
      else if q < 0 || q == |rest| - 1 then Failure(MissingDestination)
      else if HASH in rest[q + 1..] then Failure(Malformed)
      else Success(rest[q + 1..])
  }

  function Entry(pair: Text): Result<(Param, Text), Sep7Error> {
    var eq := IndexOf(pair, EQUALS);
    if eq <= 0 then Failure(Malformed)
    else
      var key, value := DecodeForm(pair[..eq]), DecodeForm(pair[eq + 1..]);
      if key.None? || value.None? then Failure(Malformed)
      else
        match ParamOf(key.value)
        case None => Failure(UnknownParam)
        case Some(p) => Success((p, value.value))
  }

  type Fields = map<Param, Text>

  function Collect(pairs: seq<Text>, fields: Fields): Result<Fields, Sep7Error> {
    if pairs == [] then Success(fields)
    else
      match Entry(pairs[0])
      case Failure(e) => Failure(e)
      case Success(entry) =>
        if entry.0 in fields then Failure(DuplicateParam)
        else Collect(pairs[1..], fields[entry.0 := entry.1])
  }

  function Lookup(fields: Fields, p: Param): Option<Text> {
    if p in fields then Some(fields[p]) else None
  }

  function DestinationProblem(env: Environment, fields: Fields): Option<Sep7Error> {
    if Given(Lookup(fields, Destination)).None? then Some(MissingDestination)
    else if IsMuxed(env, fields[Destination]) then Some(UnsupportedDestination)
    else if DestinationKind(env, fields[Destination]).None? then Some(InvalidDestination)
    else None
  }

  function CarriageProblem(fields: Fields): Option<Sep7Error> {
    if Callback in fields then Some(CallbackUnsupported)
    else if Memo in fields || MemoType in fields then Some(MemoUnsupported)
    else None
  }

  function NetworkProblem(ctx: Context, fields: Fields): Option<Sep7Error> {
    var passphrase := Lookup(fields, NetworkPassphrase);
    if passphrase.Some? && passphrase.value != ctx.networkPassphrase then Some(WrongNetwork)
    else if passphrase.None? && ctx.network != Mainnet then Some(WrongNetwork)
    else None
  }

  /** The native asset leads the registry. */
  function ResolveAsset(env: Environment, ctx: Context, fields: Fields): Result<Asset, Sep7Error>
    requires env.registry(ctx.network) != []
  {
    var code, issuer := Lookup(fields, AssetCode), Lookup(fields, AssetIssuer);
    if code.None? && issuer.None? then Success(env.registry(ctx.network)[0])
    else if code.None? || issuer.None? then Failure(InvalidAsset)
    else if !IsAccount(env, issuer.value) || !IsAssetCode(code.value) then Failure(InvalidAsset)
    else
      match FindAsset(env.registry(ctx.network), code.value, issuer.value)
      case None => Failure(UnregisteredAsset)
      case Some(asset) => Success(asset)
  }

  function TextProblem(fields: Fields): Option<Sep7Error> {
    if Amount in fields && !IsValidAmount(fields[Amount]) then Some(InvalidAmount)
    else if Msg in fields && UnsafeMsg(fields[Msg]) then Some(UnsafeText)
    else None
  }

  function OriginProblem(fields: Fields): Option<Sep7Error> {
    if OriginDomain in fields then
      if !IsDomain(fields[OriginDomain]) then Some(InvalidOrigin)
      else if Given(Lookup(fields, Signature)).None? then Some(InvalidOrigin)
      else None
    else if Signature in fields then Some(InvalidOrigin)
    else None
  }

  function RequestOf(env: Environment, fields: Fields, asset: Asset): Request
    requires Destination in fields && DestinationKind(env, fields[Destination]).Some?
  {
    Request(fields[Destination], DestinationKind(env, fields[Destination]).value, Lookup(fields, Amount),
            asset, Given(Lookup(fields, Msg)), Lookup(fields, OriginDomain), Lookup(fields, Signature))
  }

  function Or(a: Option<Sep7Error>, b: Option<Sep7Error>): Option<Sep7Error> {
    if a.Some? then a else b
  }

  function Check(env: Environment, ctx: Context, fields: Fields): Result<Request, Sep7Error>
    requires env.registry(ctx.network) != []
  {
    var early := Or(Or(DestinationProblem(env, fields), CarriageProblem(fields)), NetworkProblem(ctx, fields));
    if early.Some? then Failure(early.value)
    else
      match ResolveAsset(env, ctx, fields)
      case Failure(e) => Failure(e)
      case Success(asset) =>
        var late := Or(TextProblem(fields), OriginProblem(fields));
        if late.Some? then Failure(late.value) else Success(RequestOf(env, fields, asset))
  }

  function Read(env: Environment, ctx: Context, pairs: seq<Text>): Result<Request, Sep7Error>
    requires env.registry(ctx.network) != []
  {
    match Collect(pairs, map[])
    case Failure(e) => Failure(e)
    case Success(fields) => Check(env, ctx, fields)
  }

  function Parse(env: Environment, ctx: Context, input: Text): Result<Parsed, Sep7Error>
    requires env.registry(ctx.network) != []
  {
    match Query(Trim(input))
    case Failure(e) => Failure(e)
    case Success(query) =>
      match Read(env, ctx, Split(query, AMP))
      case Failure(e) => Failure(e)
      case Success(request) => Success(Parsed(request, Trim(input)))
  }

  method ParsePayUri(env: Environment, ctx: Context, input: Text) returns (r: Result<Parsed, Sep7Error>)
    requires env.registry(ctx.network) != []
    ensures r == Parse(env, ctx, input)
  {
    var uri := Trim(input);
    var query := Query(uri);
    if query.Failure? { return Failure(query.error); }
    var pairs := Split(query.value, AMP);
    var fields: Fields := map[];
    for k := 0 to |pairs|
      invariant Collect(pairs, map[]) == Collect(pairs[k..], fields)
    {
      assert pairs[k..][0] == pairs[k] && pairs[k..][1..] == pairs[k + 1..];
      var entry := Entry(pairs[k]);
      if entry.Failure? { return Failure(entry.error); }
      if entry.value.0 in fields { return Failure(DuplicateParam); }
      fields := fields[entry.value.0 := entry.value.1];
    }
    assert Collect(pairs, map[]) == Success(fields);
    var request := Check(env, ctx, fields);
    if request.Failure? { return Failure(request.error); }
    r := Success(Parsed(request.value, uri));
  }
}
