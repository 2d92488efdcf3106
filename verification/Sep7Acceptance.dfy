/** Which payment requests are accepted, and what an accepted one is known to be. */
module Sep7Acceptance {
  import opened Wrappers
  import opened Sequences
  import opened Text
  import opened PercentEncoding
  import opened Sep7
  import opened Sep7RoundTrip

  // ---- What the fields have to be ----

  predicate IsBase32(u: Unit) {
    Ch('A') <= u <= Ch('Z') || Ch('2') <= u <= Ch('7')
  }

  /** An encoded key that begins with this letter. */
  predicate KeyText(env: Environment, s: Text, letter: char) {
    |s| == 56 && s[0] == Ch(letter) && (forall i :: 0 <= i < |s| ==> IsBase32(s[i])) && env.checksum(s)
  }

  /** A decimal of one to twelve whole digits, without a zero in front, and at most seven decimals, above zero. */
  predicate AmountParts(a: Text, whole: Text, fraction: Text) {
    && AllDigits(whole) && AllDigits(fraction) && AllDigits(whole + fraction)
    && 1 <= |whole| <= 12 && |fraction| <= 7 && (|whole| > 1 ==> whole[0] != Ch('0'))
    && a == whole + (if fraction == [] then [] else [Ch('.')] + fraction)
    && Value(whole + fraction) > 0
  }

  ghost predicate PositiveAmount(a: Text) {
    exists whole, fraction :: AmountParts(a, whole, fraction)
  }

  /** Nothing that lets a text show as something it is not. */
  predicate SafeChars(m: Text) {
    forall i :: 0 <= i < |m| ==>
      && m[i] > 0x1F && !(0x7F <= m[i] <= 0x9F) && !(0x200B <= m[i] <= 0x200F)
      && !(0x202A <= m[i] <= 0x202E) && !(0x2066 <= m[i] <= 0x2069) && m[i] != 0xFEFF
  }

  predicate SafeText(m: Text) {
    |m| <= 300 && SafeChars(m)
  }

  predicate IsLetter(u: Unit) {
    Ch('a') <= u <= Ch('z')
  }

  predicate LabelText(s: Text) {
    && 1 <= |s| <= 63 && s[0] != Ch('-') && s[|s| - 1] != Ch('-')
    && forall i :: 0 <= i < |s| ==> IsLetter(s[i]) || Ch('0') <= s[i] <= Ch('9') || s[i] == Ch('-')
  }

  predicate TopText(s: Text) {
    2 <= |s| <= 63 && forall i :: 0 <= i < |s| ==> IsLetter(s[i])
  }

  /** Labels and a top-level domain, with dots between. */
  predicate DomainParts(s: Text, labels: seq<Text>, top: Text) {
    && labels != [] && (forall i :: 0 <= i < |labels| ==> LabelText(labels[i])) && TopText(top)
    && s == Join(labels + [top], Ch('.')) && |s| <= 253
  }

  ghost predicate DomainText(s: Text) {
    exists labels, top :: DomainParts(s, labels, top)
  }

  predicate WellFormedAsset(env: Environment, code: Text, issuer: Text) {
    && KeyText(env, issuer, 'G')
    && 1 <= |code| <= 12
    && (forall i :: 0 <= i < |code| ==>
          Ch('A') <= code[i] <= Ch('Z') || Ch('a') <= code[i] <= Ch('z') || Ch('0') <= code[i] <= Ch('9'))
  }

  /** The registry has an asset of this code and issuer, and the text of both is well formed. */
  ghost predicate Listed(env: Environment, ctx: Context, code: Text, issuer: Text) {
    WellFormedAsset(env, code, issuer) && Asset(code, Some(issuer)) in env.registry(ctx.network)
  }

  // ---- They are what the code checks ----

  /** A muxed account: longer, and led by an M. */
  predicate MuxedText(env: Environment, s: Text) {
    |s| == 69 && s[0] == Ch('M') && (forall i :: 0 <= i < |s| ==> IsBase32(s[i])) && env.checksum(s)
  }

  lemma KeysAreIt(env: Environment, s: Text)
    ensures IsAccount(env, s) <==> KeyText(env, s, 'G')
    ensures IsContract(env, s) <==> KeyText(env, s, 'C')
    ensures IsMuxed(env, s) <==> MuxedText(env, s)
  {
  }

  /** Some unit is a digit other than zero. */
  ghost predicate NonZero(s: Text) {
    exists i :: 0 <= i < |s| && 49 <= s[i] <= 57
  }

  lemma NonZeroJoin(a: Text, b: Text)
    ensures NonZero(a + b) <==> NonZero(a) || NonZero(b)
  {
    var s := a + b;
    forall i | 0 <= i < |a| && 49 <= a[i] <= 57 ensures NonZero(s) {
      assert s[i] == a[i];
    }
    forall i | 0 <= i < |b| && 49 <= b[i] <= 57 ensures NonZero(s) {
      assert s[|a| + i] == b[i];
    }
    forall i | 0 <= i < |s| && 49 <= s[i] <= 57 ensures NonZero(a) || NonZero(b) {
      if i < |a| { assert a[i] == s[i]; } else { assert b[i - |a|] == s[i]; }
    }
  }

  lemma {:induction false} ValueAboveZero(s: Text)
    requires AllDigits(s)
    ensures Value(s) > 0 <==> NonZero(s)
  {
    if s != [] {
      var last := |s| - 1;
      ValueAboveZero(s[..last]);
      NonZeroJoin(s[..last], [s[last]]);
      assert s == s[..last] + [s[last]];
      assert NonZero([s[last]]) <==> s[last] != 48 by { assert [s[last]][0] == s[last]; }
    }
  }

  /** The value of the digits is above zero exactly when the text has a digit other than zero. */
  lemma PartsAboveZero(whole: Text, fraction: Text)
    requires AllDigits(whole) && AllDigits(fraction)
    ensures AllDigits(whole + fraction)
    ensures Value(whole + fraction) > 0 <==> NonZero(whole + (if fraction == [] then [] else [Ch('.')] + fraction))
  {
    ValueAboveZero(whole + fraction);
    NonZeroJoin(whole, fraction);
    NonZeroJoin([Ch('.')], fraction);
    assert !NonZero([Ch('.')]);
    NonZeroJoin(whole, if fraction == [] then [] else [Ch('.')] + fraction);
  }

  lemma DotAt(whole: Text, fraction: Text)
    requires AllDigits(whole) && fraction != []
    ensures var a := whole + ([Ch('.')] + fraction);
      IndexOf(a, DOT) == |whole| && a[..|whole|] == whole && a[|whole| + 1..] == fraction
  {
    IndexOfFirst(whole, DOT, fraction);
    assert whole + ([Ch('.')] + fraction) == whole + [DOT] + fraction;
  }

  lemma PartsOf(a: Text, dot: int)
    requires dot == IndexOf(a, DOT) >= 0
    ensures a == a[..dot] + ([Ch('.')] + a[dot + 1..])
  {
  }

  lemma WholeHasParts(a: Text)
    requires IsWhole(a) && NonZero(a)
    ensures AmountParts(a, a, [])
  {
    PartsAboveZero(a, []);
    assert a + [] == a;
  }

  lemma DottedHasParts(whole: Text, fraction: Text)
    requires IsWhole(whole) && 1 <= |fraction| <= 7 && AllDigits(fraction)
    requires NonZero(whole + ([Ch('.')] + fraction))
    ensures AmountParts(whole + ([Ch('.')] + fraction), whole, fraction)
  {
    PartsAboveZero(whole, fraction);
  }

  lemma ValidHasParts(a: Text)
    requires IsValidAmount(a)
    ensures PositiveAmount(a)
  {
    var dot := IndexOf(a, DOT);
    assert NonZero(a);
    if dot < 0 {
      WholeHasParts(a);
    } else {
      PartsOf(a, dot);
      DottedHasParts(a[..dot], a[dot + 1..]);
    }
  }

  lemma PartsAreValid(a: Text, whole: Text, fraction: Text)
    requires AmountParts(a, whole, fraction)
    ensures IsValidAmount(a)
  {
    PartsAboveZero(whole, fraction);
    assert NonZero(a);
    assert IsWhole(whole) by { assert |whole| == 1 ==> whole == [whole[0]]; }
    if fraction == [] {
      assert a == whole;
    } else {
      DotAt(whole, fraction);
    }
  }

  lemma AmountIff(a: Text)
    ensures IsValidAmount(a) <==> PositiveAmount(a)
  {
    if IsValidAmount(a) { ValidHasParts(a); }
    if PositiveAmount(a) {
      var whole, fraction :| AmountParts(a, whole, fraction);
      PartsAreValid(a, whole, fraction);
    }
  }

  lemma SafeIff(m: Text)
    ensures HasUnsafe(m) <==> !SafeChars(m)
    ensures UnsafeMsg(m) <==> !SafeText(m)
  {
    if SafeChars(m) {
      forall i | 0 <= i < |m| ensures !IsUnsafe(m[i]) {
      }
    }
  }

  lemma DomainHasParts(s: Text)
    requires IsDomain(s)
    ensures DomainText(s)
  {
    var labels := Split(s, DOT);
    var n := |labels| - 1;
    JoinSplit(s, DOT);
    assert labels == labels[..n] + [labels[n]];
    forall i | 0 <= i < n ensures LabelText(labels[..n][i]) {
      assert IsLabel(labels[i]);
    }
    assert DomainParts(s, labels[..n], labels[n]);
  }

  lemma PartsAreDomain(s: Text, labels: seq<Text>, top: Text)
    requires DomainParts(s, labels, top)
    ensures IsDomain(s)
  {
    var all := labels + [top];
    forall i | 0 <= i < |all| ensures DOT !in all[i] {
      if i < |labels| { assert LabelText(labels[i]); }
    }
    SplitJoin(all, DOT);
    JoinAtLeast(all, DOT);
    forall i | 0 <= i < |labels| ensures IsLabel(all[i]) {
      assert LabelText(labels[i]);
    }
  }

  lemma DomainIff(s: Text)
    ensures IsDomain(s) <==> DomainText(s)
  {
    if IsDomain(s) { DomainHasParts(s); }
    if DomainText(s) {
      var labels, top :| DomainParts(s, labels, top);
      PartsAreDomain(s, labels, top);
    }
  }

  lemma {:induction false} JoinAtLeast(parts: seq<Text>, sep: Unit)
    requires |parts| > 0 && parts[|parts| - 1] != []
    ensures |Join(parts, sep)| >= 1
  {
    if |parts| > 1 { JoinAtLeast(parts[1..], sep); }
  }

  lemma {:induction false} FindAssetIff(assets: seq<Asset>, code: Text, issuer: Text)
    ensures FindAsset(assets, code, issuer)
         == if Asset(code, Some(issuer)) in assets then Some(Asset(code, Some(issuer))) else None
  {
    if assets != [] {
      FindAssetIff(assets[1..], code, issuer);
      assert assets == [assets[0]] + assets[1..];
    }
  }

  // ---- Acceptance ----

  /** The destination is an account or a contract. */
  predicate DestinationOk(env: Environment, fields: Fields) {
    Destination in fields && (KeyText(env, fields[Destination], 'G') || KeyText(env, fields[Destination], 'C'))
  }

  /** The request is for this wallet's network: it names its passphrase, or none on the main network. */
  predicate NetworkOk(ctx: Context, fields: Fields) {
    if NetworkPassphrase in fields then fields[NetworkPassphrase] == ctx.networkPassphrase
    else ctx.network == Mainnet
  }

  ghost predicate AssetOk(env: Environment, ctx: Context, fields: Fields) {
    && (AssetCode in fields <==> AssetIssuer in fields)
    && (AssetCode in fields ==> Listed(env, ctx, fields[AssetCode], fields[AssetIssuer]))
  }

  ghost predicate OriginOk(fields: Fields) {
    && (OriginDomain in fields <==> Signature in fields)
    && (OriginDomain in fields ==> DomainText(fields[OriginDomain]) && fields[Signature] != [])
  }

  /** What has to hold of the gathered fields of a request. */
  ghost predicate Acceptable(env: Environment, ctx: Context, fields: Fields) {
    && DestinationOk(env, fields)
    && Callback !in fields && Memo !in fields && MemoType !in fields
    && NetworkOk(ctx, fields)
    && AssetOk(env, ctx, fields)
    && (Amount in fields ==> PositiveAmount(fields[Amount]))
    && (Msg in fields ==> SafeText(fields[Msg]))
    && OriginOk(fields)
  }

  /** The request that acceptable fields make; the native asset leads the registry. */
  ghost function RequestIn(env: Environment, ctx: Context, fields: Fields): Request
    requires Acceptable(env, ctx, fields) && env.registry(ctx.network) != []
  {
    Request(fields[Destination],
            if fields[Destination][0] == Ch('G') then Account else Contract,
            if Amount in fields then Some(fields[Amount]) else None,
            if AssetCode in fields then Asset(fields[AssetCode], Some(fields[AssetIssuer]))
            else env.registry(ctx.network)[0],
            if Msg in fields && fields[Msg] != [] then Some(fields[Msg]) else None,
            if OriginDomain in fields then Some(fields[OriginDomain]) else None,
            if Signature in fields then Some(fields[Signature]) else None)
  }

  lemma AssetIff(env: Environment, ctx: Context, fields: Fields)
    requires env.registry(ctx.network) != []
    ensures ResolveAsset(env, ctx, fields).Success? <==> AssetOk(env, ctx, fields)
    ensures AssetOk(env, ctx, fields) ==>
      ResolveAsset(env, ctx, fields).value == if AssetCode in fields
        then Asset(fields[AssetCode], Some(fields[AssetIssuer])) else env.registry(ctx.network)[0]
  {
    if AssetCode in fields && AssetIssuer in fields {
      KeysAreIt(env, fields[AssetIssuer]);
      FindAssetIff(env.registry(ctx.network), fields[AssetCode], fields[AssetIssuer]);
    }
  }

  lemma EarlyIff(env: Environment, ctx: Context, fields: Fields)
    ensures Or(Or(DestinationProblem(env, fields), CarriageProblem(fields)), NetworkProblem(ctx, fields)).None?
       <==> && DestinationOk(env, fields)
            && Callback !in fields && Memo !in fields && MemoType !in fields
            && NetworkOk(ctx, fields)
  {
    if Destination in fields { KeysAreIt(env, fields[Destination]); }
  }

  lemma LateIff(fields: Fields)
    ensures Or(TextProblem(fields), OriginProblem(fields)).None?
       <==> && (Amount in fields ==> PositiveAmount(fields[Amount]))
            && (Msg in fields ==> SafeText(fields[Msg]))
            && OriginOk(fields)
  {
    if Amount in fields { AmountIff(fields[Amount]); }
    if Msg in fields { SafeIff(fields[Msg]); }
    if OriginDomain in fields { DomainIff(fields[OriginDomain]); }
  }

  /** Gathered fields are accepted exactly when they are acceptable, and then as the request they make. */
  lemma FieldsAcceptedIff(env: Environment, ctx: Context, fields: Fields)
    requires env.registry(ctx.network) != []
    ensures Check(env, ctx, fields).Success? <==> Acceptable(env, ctx, fields)
    ensures Acceptable(env, ctx, fields) ==> Check(env, ctx, fields) == Success(RequestIn(env, ctx, fields))
  {
    EarlyIff(env, ctx, fields);
    AssetIff(env, ctx, fields);
    LateIff(fields);
    if Acceptable(env, ctx, fields) { KeysAreIt(env, fields[Destination]); }
  }

  /** The first thing that is wrong with fields that are not acceptable. */
  ghost function FaultOf(env: Environment, ctx: Context, fields: Fields): Sep7Error
    requires !Acceptable(env, ctx, fields)
  {
    if !DestinationOk(env, fields) then
      if Destination !in fields || fields[Destination] == [] then MissingDestination
      else if MuxedText(env, fields[Destination]) then UnsupportedDestination else InvalidDestination
    else if Callback in fields then CallbackUnsupported
    else if Memo in fields || MemoType in fields then MemoUnsupported
    else if !NetworkOk(ctx, fields) then WrongNetwork
    else if !AssetOk(env, ctx, fields) then
      if AssetCode in fields && AssetIssuer in fields && WellFormedAsset(env, fields[AssetCode], fields[AssetIssuer])
      then UnregisteredAsset else InvalidAsset
    else if Amount in fields && !PositiveAmount(fields[Amount]) then InvalidAmount
    else if Msg in fields && !SafeText(fields[Msg]) then UnsafeText
    else InvalidOrigin
  }

  lemma EarlyFault(env: Environment, ctx: Context, fields: Fields)
    requires !DestinationOk(env, fields) || Callback in fields || Memo in fields || MemoType in fields
             || !NetworkOk(ctx, fields)
    ensures Or(Or(DestinationProblem(env, fields), CarriageProblem(fields)), NetworkProblem(ctx, fields))
         == Some(FaultOf(env, ctx, fields))
  {
    if Destination in fields { KeysAreIt(env, fields[Destination]); }
  }

  lemma AssetFault(env: Environment, ctx: Context, fields: Fields)
    requires env.registry(ctx.network) != [] && !AssetOk(env, ctx, fields)
    ensures ResolveAsset(env, ctx, fields) == Failure(
      if AssetCode in fields && AssetIssuer in fields && WellFormedAsset(env, fields[AssetCode], fields[AssetIssuer])
      then UnregisteredAsset else InvalidAsset)
  {
    if AssetCode in fields && AssetIssuer in fields {
      KeysAreIt(env, fields[AssetIssuer]);
      FindAssetIff(env.registry(ctx.network), fields[AssetCode], fields[AssetIssuer]);
    }
  }

  lemma LateFault(fields: Fields)
    requires !((Amount in fields ==> PositiveAmount(fields[Amount])) && (Msg in fields ==> SafeText(fields[Msg]))
               && OriginOk(fields))
    ensures Or(TextProblem(fields), OriginProblem(fields)) == Some(
      if Amount in fields && !PositiveAmount(fields[Amount]) then InvalidAmount
      else if Msg in fields && !SafeText(fields[Msg]) then UnsafeText else InvalidOrigin)
  {
    if Amount in fields { AmountIff(fields[Amount]); }
    if Msg in fields { SafeIff(fields[Msg]); }
    if OriginDomain in fields { DomainIff(fields[OriginDomain]); }
  }

  /** Fields that are not acceptable are refused for the first thing that is wrong with them. */
  lemma WhyRefused(env: Environment, ctx: Context, fields: Fields)
    requires env.registry(ctx.network) != [] && !Acceptable(env, ctx, fields)
    ensures Check(env, ctx, fields) == Failure(FaultOf(env, ctx, fields))
  {
    EarlyIff(env, ctx, fields);
    if !DestinationOk(env, fields) || Callback in fields || Memo in fields || MemoType in fields
       || !NetworkOk(ctx, fields) {
      EarlyFault(env, ctx, fields);
    } else if !AssetOk(env, ctx, fields) {
      AssetFault(env, ctx, fields);
    } else {
      AssetIff(env, ctx, fields);
      LateFault(fields);
    }
  }

  /**
   * Acceptance is sound: whatever text is accepted as a request, its asset is in
   * the registry of the wallet's network, its destination is an account or a
   * contract, its amount is positive, its message is safe to show, and it has an
   * origin exactly when it has a signature.
   */
  lemma AcceptedIsSound(env: Environment, ctx: Context, input: Text)
    requires env.registry(ctx.network) != [] && Parse(env, ctx, input).Success?
    ensures var r := Parse(env, ctx, input).value.request;
      && r.asset in env.registry(ctx.network)
      && KeyText(env, r.destination, if r.kind == Account then 'G' else 'C')
      && (r.amount.Some? ==> PositiveAmount(r.amount.value))
      && (r.msg.Some? ==> r.msg.value != [] && SafeText(r.msg.value))
      && (r.originDomain.Some? <==> r.signature.Some?)
      && (r.originDomain.Some? ==> DomainText(r.originDomain.value) && r.signature.value != [])
  {
    var pairs := Split(Query(Trim(input)).value, AMP);
    FieldsAcceptedIff(env, ctx, Collect(pairs, map[]).value);
  }
}
