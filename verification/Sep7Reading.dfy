/** Exactly which texts the wallet accepts as payment requests, and as which request. */
module Sep7Reading {
  import opened Wrappers
  import opened Text
  import opened PercentEncoding
  import opened Sep7
  import opened Sep7RoundTrip
  import opened Sep7Acceptance

  // ---- The parts of a request ----

  /** What is left of a text without the white space at both its ends. */
  ghost predicate TrimsTo(input: Text, t: Text) {
    && (t != [] ==> !IsSpace(t[0]) && !IsSpace(t[|t| - 1]))
    && exists before, after :: AllSpace(before) && AllSpace(after) && input == before + t + after
  }

  predicate AllSpace(s: Text) {
    forall i :: 0 <= i < |s| ==> IsSpace(s[i])
  }

  /** The scheme, in capitals or not. */
  predicate SchemeText(s: Text) {
    |s| == 12 && forall i :: 0 <= i < 12 ==> s[i] == Ch("web+stellar:"[i]) || s[i] == Ch("WEB+STELLAR:"[i])
  }

  /** The text is a `pay` request with this query. */
  ghost predicate PayText(t: Text, query: Text) {
    && |t| <= 2048 && query != [] && Ch('#') !in query
    && exists scheme :: SchemeText(scheme) && t == scheme + Ascii("pay?") + query
  }

  predicate Named(key: Text, p: Param) {
    key == match p
           case Destination => Ascii("destination")
           case Amount => Ascii("amount")
           case AssetCode => Ascii("asset_code")
           case AssetIssuer => Ascii("asset_issuer")
           case Memo => Ascii("memo")
           case MemoType => Ascii("memo_type")
           case Callback => Ascii("callback")
           case Msg => Ascii("msg")
           case NetworkPassphrase => Ascii("network_passphrase")
           case OriginDomain => Ascii("origin_domain")
           case Signature => Ascii("signature")
  }

  /** A part of the query gives this field this value: a name and a value, both readable, around the first equals sign. */
  ghost predicate SaysField(pair: Text, p: Param, v: Text) {
    exists key, raw :: SaysThus(pair, p, v, key, raw)
  }

  ghost predicate SaysThus(pair: Text, p: Param, v: Text, key: Text, raw: Text) {
    && pair == key + Ascii("=") + raw && key != [] && Ch('=') !in key
    && DecodeForm(raw) == Some(v) && DecodeForm(key).Some? && Named(DecodeForm(key).value, p)
  }

  /** The parts give the fields, one each and none twice. */
  ghost predicate Carries(pairs: seq<Text>, ps: seq<Param>, fields: Fields) {
    && |ps| == |pairs|
    && AllDifferent(ps)
    && NamesOf(ps, fields)
    && (forall i :: 0 <= i < |ps| ==> Gives(pairs[i], ps[i], fields))
  }

  predicate AllDifferent(ps: seq<Param>) {
    forall i, j :: 0 <= i < j < |ps| ==> ps[i] != ps[j]
  }

  ghost predicate NamesOf(ps: seq<Param>, fields: Fields) {
    forall p :: p in fields <==> p in ps
  }

  ghost predicate Gives(pair: Text, p: Param, fields: Fields) {
    p in fields && SaysField(pair, p, fields[p])
  }

  // ---- Trimming ----

  lemma {:induction false} TrimStartTakes(s: Text)
    ensures var t := TrimStart(s);
      && |t| <= |s| && t == s[|s| - |t|..] && AllSpace(s[..|s| - |t|])
      && (t != [] ==> !IsSpace(t[0]))
  {
    if s != [] && IsSpace(s[0]) {
      TrimStartTakes(s[1..]);
      var t := TrimStart(s);
      assert s[..|s| - |t|] == [s[0]] + s[1..][..|s| - 1 - |t|];
    }
  }

  lemma {:induction false} TrimEndTakes(s: Text)
    ensures var t := TrimEnd(s);
      && |t| <= |s| && t == s[..|t|] && AllSpace(s[|t|..])
      && (t != [] ==> !IsSpace(t[|t| - 1]))
  {
    if s != [] && IsSpace(s[|s| - 1]) {
      var most := s[..|s| - 1];
      TrimEndTakes(most);
      var t := TrimEnd(s);
      assert s[|t|..] == most[|t|..] + [s[|s| - 1]];
    }
  }

  lemma Cut(s: Text, k: nat)
    requires k <= |s|
    ensures s == s[..k] + s[k..]
  {
  }

  lemma Surrounded(input: Text, before: Text, t: Text, after: Text)
    requires AllSpace(before) && AllSpace(after) && input == before + (t + after)
    requires t != [] ==> !IsSpace(t[0]) && !IsSpace(t[|t| - 1])
    ensures TrimsTo(input, t)
  {
    assert before + (t + after) == before + t + after;
  }

  lemma TrimGives(input: Text)
    ensures TrimsTo(input, Trim(input))
  {
    var s := TrimStart(input);
    var t := TrimEnd(s);
    TrimStartTakes(input);
    TrimEndTakes(s);
    Cut(input, |input| - |s|);
    Cut(s, |t|);
    if t != [] { assert t[0] == s[0]; }
    Surrounded(input, input[..|input| - |s|], t, s[|t|..]);
  }

  lemma {:induction false} TrimStartSkips(before: Text, t: Text)
    requires AllSpace(before) && (t != [] ==> !IsSpace(t[0]))
    ensures TrimStart(before + t) == t
  {
    if before == [] {
      assert before + t == t;
    } else {
      assert (before + t)[1..] == before[1..] + t;
      TrimStartSkips(before[1..], t);
    }
  }

  lemma {:induction false} TrimEndSkips(t: Text, after: Text)
    requires AllSpace(after) && (t != [] ==> !IsSpace(t[|t| - 1]))
    ensures TrimEnd(t + after) == t
  {
    var s := t + after;
    if after == [] {
      assert s == t;
    } else {
      assert s[..|s| - 1] == t + after[..|after| - 1];
      TrimEndSkips(t, after[..|after| - 1]);
    }
  }

  lemma AllSpaceTrims(s: Text)
    requires AllSpace(s)
    ensures Trim(s) == []
  {
    TrimStartSkips(s, []);
    assert s + [] == s;
  }

  lemma TrimIff(input: Text, t: Text)
    ensures Trim(input) == t <==> TrimsTo(input, t)
  {
    TrimGives(input);
    if TrimsTo(input, t) {
      var before, after :| AllSpace(before) && AllSpace(after) && input == before + t + after;
      if t == [] {
        assert input == before + after;
        AllSpaceTrims(input);
      } else {
        assert input == before + (t + after) && (t + after)[0] == t[0];
        TrimStartSkips(before, t + after);
        TrimEndSkips(t, after);
      }
    }
  }

  // ---- The query ----

  /** A character and its capital, if it has one. */
  predicate Cases(lower: char, upper: char) {
    if 'a' <= lower <= 'z' then upper as int == lower as int - 32
    else upper == lower && lower < 'A'
  }

  lemma LetterIff(u: Unit, lower: char, upper: char)
    requires Cases(lower, upper)
    ensures Lower(u) == Ch(lower) <==> u == Ch(lower) || u == Ch(upper)
  {
  }

  lemma SchemeCases(i: nat)
    requires i < 12
    ensures Cases("web+stellar:"[i], "WEB+STELLAR:"[i])
  {
  }

  lemma SchemeIff(s: Text)
    requires |s| == 12
    ensures HasScheme(s) <==> SchemeText(s)
  {
    var scheme := Scheme();
    assert scheme == Ascii("web+stellar:") && |scheme| == 12;
    forall i | 0 <= i < 12
      ensures Lower(s[i]) == scheme[i] <==> s[i] == Ch("web+stellar:"[i]) || s[i] == Ch("WEB+STELLAR:"[i])
    {
      SchemeCases(i);
      LetterIff(s[i], "web+stellar:"[i], "WEB+STELLAR:"[i]);
    }
  }

  lemma SchemePrefix(t: Text)
    requires |t| >= 12
    ensures HasScheme(t) <==> SchemeText(t[..12])
  {
    SchemeIff(t[..12]);
    assert |Scheme()| == 12;
    assert forall i :: 0 <= i < 12 ==> t[..12][i] == t[i];
  }

  lemma OperationFound(query: Text)
    ensures var rest := Ascii("pay?") + query;
      IndexOf(rest, QUESTION) == 3 && rest[..3] == Ascii("pay") && rest[4..] == query
  {
    assert Ascii("pay?") == Ascii("pay") + [QUESTION];
    IndexOfFirst(Ascii("pay"), QUESTION, query);
  }

  lemma OperationGives(rest: Text, q: nat)
    requires q < |rest| && rest[q] == QUESTION && rest[..q] == Ascii("pay")
    ensures rest == Ascii("pay?") + rest[q + 1..]
  {
    assert Ascii("pay?") == Ascii("pay") + [QUESTION];
    assert rest == rest[..q] + [rest[q]] + rest[q + 1..];
  }

  lemma QueryGives(t: Text)
    requires Query(t).Success?
    ensures PayText(t, Query(t).value)
  {
    assert |Scheme()| == 12;
    SchemePrefix(t);
    var scheme, rest := t[..12], t[12..];
    OperationGives(rest, IndexOf(rest, QUESTION));
    assert t == scheme + Ascii("pay?") + Query(t).value;
  }

  lemma QuerySteps(t: Text, rest: Text, query: Text)
    requires |t| <= 2048 && HasScheme(t) && t[|Scheme()|..] == rest
    requires IndexOf(rest, QUESTION) == 3 && rest[..3] == Ascii("pay") && rest[4..] == query
    requires query != [] && HASH !in query
    ensures Query(t) == Success(query)
  {
  }

  lemma SchemeInFront(scheme: Text, rest: Text)
    requires SchemeText(scheme)
    ensures HasScheme(scheme + rest) && |Scheme()| == 12 && (scheme + rest)[12..] == rest
  {
    var t := scheme + rest;
    assert t[..12] == scheme;
    SchemePrefix(t);
  }

  lemma QueryFound(t: Text, query: Text)
    requires PayText(t, query)
    ensures Query(t) == Success(query)
  {
    var scheme :| SchemeText(scheme) && t == scheme + Ascii("pay?") + query;
    var rest := Ascii("pay?") + query;
    assert t == scheme + rest;
    SchemeInFront(scheme, rest);
    OperationFound(query);
    QuerySteps(t, rest, query);
  }

  lemma QueryIff(t: Text, query: Text)
    ensures Query(t) == Success(query) <==> PayText(t, query)
  {
    if Query(t) == Success(query) { QueryGives(t); }
    if PayText(t, query) { QueryFound(t, query); }
  }

  /** A text that is no `pay` request is refused for the first thing that is wrong with it. */
  lemma WhyNoQuery(t: Text)
    requires forall query :: !PayText(t, query)
    ensures Query(t) == Failure(
      if |t| > 2048 then TooLong
      else if |t| < 12 || !SchemeText(t[..12]) then BadScheme
      else if t[12..] == Ascii("pay") || t[12..] == Ascii("pay?") then MissingDestination
      else if !(Ascii("pay?") <= t[12..]) then UnsupportedOperation
      else Malformed)
  {
    assert |Scheme()| == 12;
    if Query(t).Success? { QueryGives(t); }
    if |t| >= 12 {
      SchemePrefix(t);
      OperationOf(t[12..]);
    }
  }

  lemma JustPay()
    ensures IndexOf(Ascii("pay"), QUESTION) < 0
  {
    assert Ascii("pay") == [112, 97, 121];
  }

  lemma PayPrefix(rest: Text)
    requires Ascii("pay?") <= rest
    ensures IndexOf(rest, QUESTION) == 3 && rest[..3] == Ascii("pay") && |Ascii("pay?")| == 4
  {
    OperationFound(rest[4..]);
    assert rest == Ascii("pay?") + rest[4..];
  }

  /** Where the operation ends, in a text that begins with it or not. */
  lemma OperationOf(rest: Text)
    ensures var q := IndexOf(rest, QUESTION);
      var operation := if q < 0 then rest else rest[..q];
      && (operation == Ascii("pay") <==> rest == Ascii("pay") || Ascii("pay?") <= rest)
      && (rest == Ascii("pay") ==> q < 0)
      && (Ascii("pay?") <= rest ==> q == 3)
  {
    var q := IndexOf(rest, QUESTION);
    if rest == Ascii("pay") {
      JustPay();
    } else if Ascii("pay?") <= rest {
      PayPrefix(rest);
    } else if q >= 0 && rest[..q] == Ascii("pay") {
      OperationGives(rest, q);
    }
  }

  // ---- The fields ----

  lemma NamedAs(key: Text, p: Param)
    ensures Named(key, p) <==> key == Ascii(Name(p))
  {
  }

  lemma ParamIsNamed(key: Text)
    requires ParamOf(key).Some?
    ensures key == Ascii(Name(ParamOf(key).value))
  {
  }

  lemma NamedIff(key: Text, p: Param)
    ensures Named(key, p) <==> ParamOf(key) == Some(p)
  {
    NamedAs(key, p);
    NamesReadBack(p);
    if ParamOf(key) == Some(p) { ParamIsNamed(key); }
  }

  lemma EqualsAt(pair: Text, key: Text, raw: Text)
    ensures pair == key + Ascii("=") + raw && Ch('=') !in key <==>
      IndexOf(pair, EQUALS) >= 0 && key == pair[..IndexOf(pair, EQUALS)] && raw == pair[IndexOf(pair, EQUALS) + 1..]
  {
    assert Ascii("=") == [EQUALS];
    if pair == key + Ascii("=") + raw && Ch('=') !in key {
      IndexOfFirst(key, EQUALS, raw);
    }
    var eq := IndexOf(pair, EQUALS);
    if eq >= 0 {
      assert pair == pair[..eq] + [pair[eq]] + pair[eq + 1..];
    }
  }

  lemma EntryIff(pair: Text, p: Param, v: Text)
    ensures Entry(pair) == Success((p, v)) <==> SaysField(pair, p, v)
  {
    if Entry(pair) == Success((p, v)) {
      var eq := IndexOf(pair, EQUALS);
      var key, raw := pair[..eq], pair[eq + 1..];
      EqualsAt(pair, key, raw);
      NamedIff(DecodeForm(key).value, p);
      assert SaysThus(pair, p, v, key, raw);
    }
    if SaysField(pair, p, v) {
      var key, raw :| SaysThus(pair, p, v, key, raw);
      EqualsAt(pair, key, raw);
      NamedIff(DecodeForm(key).value, p);
    }
  }

  lemma NamesCons(p: Param, v: Text, ps: seq<Param>, fields: Fields)
    requires AllDifferent(ps) && NamesOf(ps, fields) && p !in fields
    ensures AllDifferent([p] + ps) && NamesOf([p] + ps, fields[p := v])
  {
    assert p !in ps;
  }

  lemma GivesStill(pair: Text, p: Param, fields: Fields, q: Param, v: Text)
    requires Gives(pair, p, fields) && p != q
    ensures Gives(pair, p, fields[q := v])
  {
  }

  lemma CarriesCons(pair: Text, pairs: seq<Text>, p: Param, v: Text, ps: seq<Param>, fields: Fields)
    requires Carries(pairs, ps, fields) && p !in fields && SaysField(pair, p, v)
    ensures Carries([pair] + pairs, [p] + ps, fields[p := v])
  {
    var more := fields[p := v];
    NamesCons(p, v, ps, fields);
    assert Gives(pair, p, more);
    forall i | 0 <= i < |ps| ensures Gives(pairs[i], ps[i], more) {
      GivesStill(pairs[i], ps[i], fields, p, v);
    }
  }

  lemma NamesTail(ps: seq<Param>, fields: Fields)
    requires ps != [] && AllDifferent(ps) && NamesOf(ps, fields)
    ensures AllDifferent(ps[1..]) && NamesOf(ps[1..], fields - {ps[0]}) && ps[0] !in ps[1..]
  {
    assert ps == [ps[0]] + ps[1..];
    assert forall i :: 0 <= i < |ps[1..]| ==> ps[1..][i] == ps[i + 1];
  }

  lemma CarriesTail(pairs: seq<Text>, ps: seq<Param>, fields: Fields)
    requires Carries(pairs, ps, fields) && pairs != []
    ensures Gives(pairs[0], ps[0], fields) && Carries(pairs[1..], ps[1..], fields - {ps[0]})
  {
    var rest := fields - {ps[0]};
    NamesTail(ps, fields);
    forall i | 0 <= i < |ps[1..]| ensures Gives(pairs[1..][i], ps[1..][i], rest) {
      assert Gives(pairs[i + 1], ps[i + 1], fields) && ps[i + 1] in ps[1..];
    }
  }

  lemma GatherOneMore(pairs: seq<Text>, fields: Fields, p: Param, v: Text)
    requires pairs != [] && Gather(pairs[1..]) == Some(fields)
    requires p !in fields && Entry(pairs[0]) == Success((p, v))
    ensures Gather(pairs) == Some(fields[p := v])
  {
  }

  lemma GatheredParts(pairs: seq<Text>)
    requires pairs != [] && Gather(pairs).Some?
    ensures Entry(pairs[0]).Success? && Gather(pairs[1..]).Some?
    ensures var (p, v) := Entry(pairs[0]).value;
      p !in Gather(pairs[1..]).value && Gather(pairs).value == Gather(pairs[1..]).value[p := v]
  {
  }

  lemma GatherStep(pairs: seq<Text>, ps: seq<Param>)
    requires pairs != [] && Gather(pairs).Some? && Gather(pairs[1..]).Some?
    requires Carries(pairs[1..], ps, Gather(pairs[1..]).value)
    ensures exists all :: Carries(pairs, all, Gather(pairs).value)
  {
    GatheredParts(pairs);
    var rest := Gather(pairs[1..]).value;
    var (p, v) := Entry(pairs[0]).value;
    assert SaysField(pairs[0], p, v) by { EntryIff(pairs[0], p, v); }
    CarriesCons(pairs[0], pairs[1..], p, v, ps, rest);
    assert [pairs[0]] + pairs[1..] == pairs;
  }

  lemma {:induction false} GatherCarries(pairs: seq<Text>)
    requires Gather(pairs).Some?
    ensures exists ps :: Carries(pairs, ps, Gather(pairs).value)
  {
    if pairs == [] {
      assert Carries(pairs, [], map[]);
    } else {
      GatherCarries(pairs[1..]);
      var ps :| Carries(pairs[1..], ps, Gather(pairs[1..]).value);
      GatherStep(pairs, ps);
    }
  }

  lemma MapBack(fields: Fields, p: Param)
    requires p in fields
    ensures p !in fields - {p} && (fields - {p})[p := fields[p]] == fields
  {
  }

  lemma NoNames(fields: Fields)
    requires NamesOf([], fields)
    ensures fields == map[]
  {
    assert forall p :: p !in fields;
  }

  lemma {:induction false} CarriesGather(pairs: seq<Text>, ps: seq<Param>, fields: Fields)
    requires Carries(pairs, ps, fields)
    ensures Gather(pairs) == Some(fields)
    decreases |pairs|
  {
    if pairs == [] {
      assert ps == [];
      NoNames(fields);
    } else {
      var p := ps[0];
      CarriesTail(pairs, ps, fields);
      CarriesGather(pairs[1..], ps[1..], fields - {p});
      EntryIff(pairs[0], p, fields[p]);
      MapBack(fields, p);
      GatherOneMore(pairs, fields - {p}, p, fields[p]);
    }
  }

  // ---- The whole request ----

  predicate NoneHas(parts: seq<Text>, u: Unit) {
    forall i :: 0 <= i < |parts| ==> u !in parts[i]
  }

  /** A text that trims to a `pay` request whose parts give these acceptable fields. */
  ghost predicate RequestText(
      env: Environment, ctx: Context, input: Text, t: Text, pairs: seq<Text>, ps: seq<Param>, fields: Fields)
  {
    && TrimsTo(input, t)
    && pairs != [] && NoneHas(pairs, Ch('&'))
    && PayText(t, Join(pairs, Ch('&')))
    && Carries(pairs, ps, fields)
    && Acceptable(env, ctx, fields)
  }

  lemma ParsedIsRequest(env: Environment, ctx: Context, input: Text)
    requires env.registry(ctx.network) != [] && Parse(env, ctx, input).Success?
    ensures exists t, pairs, ps, fields ::
      && RequestText(env, ctx, input, t, pairs, ps, fields)
      && Parse(env, ctx, input) == Success(Parsed(RequestIn(env, ctx, fields), t))
  {
    var t := Trim(input);
    var query := Query(t).value;
    var pairs := Split(query, AMP);
    var fields := Collect(pairs, map[]).value;
    TrimIff(input, t);
    QueryIff(t, query);
    JoinSplit(query, AMP);
    PartsAvoid(query, AMP);
    CollectFromEmpty(pairs);
    GatherCarries(pairs);
    var ps :| Carries(pairs, ps, fields);
    FieldsAcceptedIff(env, ctx, fields);
    assert RequestText(env, ctx, input, t, pairs, ps, fields);
  }

  lemma {:induction false} PartsAvoid(s: Text, sep: Unit)
    ensures forall i :: 0 <= i < |Split(s, sep)| ==> sep !in Split(s, sep)[i]
  {
    if s != [] { PartsAvoid(s[1..], sep); }
  }

  lemma SplitAtAmpersand(query: Text)
    ensures Split(query, Ch('&')) == Split(query, AMP)
  {
    assert Ch('&') == AMP;
  }

  lemma ParseInSteps(
      env: Environment, ctx: Context, input: Text, t: Text, query: Text, pairs: seq<Text>, fields: Fields, r: Request)
    requires env.registry(ctx.network) != []
    requires Trim(input) == t && Query(t) == Success(query)
    requires Split(query, AMP) == pairs && Collect(pairs, map[]) == Success(fields) && Check(env, ctx, fields) == Success(r)
    ensures Parse(env, ctx, input) == Success(Parsed(r, t))
  {
    assert Read(env, ctx, pairs) == Success(r);
  }

  lemma CarriedIsCollected(pairs: seq<Text>, sep: Unit, ps: seq<Param>, fields: Fields)
    requires pairs != [] && NoneHas(pairs, sep) && Carries(pairs, ps, fields)
    ensures Split(Join(pairs, sep), sep) == pairs && Collect(pairs, map[]) == Success(fields)
  {
    SplitJoin(pairs, sep);
    CarriesGather(pairs, ps, fields);
    CollectFromEmpty(pairs);
  }

  lemma FoundQuery(input: Text, t: Text, query: Text)
    requires TrimsTo(input, t) && PayText(t, query)
    ensures Trim(input) == t && Query(t) == Success(query)
  {
    TrimIff(input, t);
    QueryIff(t, query);
  }

  lemma AcceptedFields(env: Environment, ctx: Context, fields: Fields)
    requires env.registry(ctx.network) != [] && Acceptable(env, ctx, fields)
    ensures Check(env, ctx, fields) == Success(RequestIn(env, ctx, fields))
  {
    FieldsAcceptedIff(env, ctx, fields);
  }

  lemma RequestIsParsed(
      env: Environment, ctx: Context, input: Text, t: Text, pairs: seq<Text>, ps: seq<Param>, fields: Fields)
    requires env.registry(ctx.network) != [] && RequestText(env, ctx, input, t, pairs, ps, fields)
    ensures Parse(env, ctx, input) == Success(Parsed(RequestIn(env, ctx, fields), t))
  {
    var query := Join(pairs, Ch('&'));
    FoundQuery(input, t, query);
    CarriedIsCollected(pairs, Ch('&'), ps, fields);
    AcceptedFields(env, ctx, fields);
    SplitAtAmpersand(query);
    ParseInSteps(env, ctx, input, t, query, pairs, fields, RequestIn(env, ctx, fields));
  }

  /**
   * A text is accepted exactly when, without white space around it, it is a
   * `pay` request of at most 2048 characters, every part of its query gives one
   * field that no other part gives, and the fields are acceptable. It is then
   * read as the request that they make.
   */
  lemma ParseIff(env: Environment, ctx: Context, input: Text, parsed: Parsed)
    requires env.registry(ctx.network) != []
    ensures Parse(env, ctx, input) == Success(parsed) <==>
      exists t, pairs, ps, fields ::
        && RequestText(env, ctx, input, t, pairs, ps, fields)
        && parsed == Parsed(RequestIn(env, ctx, fields), t)
  {
    if Parse(env, ctx, input).Success? { ParsedIsRequest(env, ctx, input); }
    forall t, pairs, ps, fields | RequestText(env, ctx, input, t, pairs, ps, fields)
      ensures Parse(env, ctx, input) == Success(Parsed(RequestIn(env, ctx, fields), t))
    {
      RequestIsParsed(env, ctx, input, t, pairs, ps, fields);
    }
  }
}
