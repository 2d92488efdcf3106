/** The order of the parameters of a payment request does not matter, up to white space at its end. */
module Sep7Reorder {
  import opened Wrappers
  import opened Sequences
  import opened Text
  import opened PercentEncoding
  import opened Sep7
  import opened Sep7RoundTrip

  // ---- Reordered pairs ----

  /** How long the pairs are, each with a separator. */
  function Total(pairs: seq<Text>): nat {
    if pairs == [] then 0 else |pairs[0]| + 1 + Total(pairs[1..])
  }

  lemma {:induction false} JoinLength(pairs: seq<Text>)
    requires pairs != []
    ensures |Join(pairs, AMP)| + 1 == Total(pairs)
  {
    if |pairs| > 1 { JoinLength(pairs[1..]); }
  }

  lemma {:induction false} TakeOutTotal(pairs: seq<Text>, i: nat)
    requires i < |pairs|
    ensures Total(pairs) == Total(Without(pairs, i)) + |pairs[i]| + 1
  {
    if i == 0 {
      assert Without(pairs, 0) == pairs[1..];
    } else {
      TakeOutTotal(pairs[1..], i - 1);
      assert Without(pairs, i)[0] == pairs[0] && Without(pairs, i)[1..] == Without(pairs[1..], i - 1);
    }
  }

  /** In any order pairs gather to the same fields, and are as long. */
  lemma {:induction false} Permuted(a: seq<Text>, b: seq<Text>)
    requires multiset(a) == multiset(b)
    ensures Gather(b) == Gather(a) && Total(b) == Total(a)
    decreases |b|
  {
    if b == [] {
      assert |multiset(a)| == 0;
    } else {
      assert b[0] in multiset(a);
      var i :| 0 <= i < |a| && a[i] == b[0];
      TakeOut(a, i);
      TakeOutTotal(a, i);
      OneLess(a, i, b);
      Permuted(Without(a, i), b[1..]);
    }
  }

  /** Another pair for the same name changes that field. */
  lemma Replaced(pairs: seq<Text>, i: nat, pair: Text, v: Text)
    requires i < |pairs| && Gather(pairs).Some?
    requires Entry(pairs[i]).Success? && Entry(pair) == Success((Entry(pairs[i]).value.0, v))
    ensures Entry(pairs[i]).value.0 in Gather(pairs).value
    ensures Gather(pairs).value[Entry(pairs[i]).value.0] == Entry(pairs[i]).value.1
    ensures Gather(pairs[i := pair]) == Some(Gather(pairs).value[Entry(pairs[i]).value.0 := v])
  {
    TakeOut(pairs, i);
    TakeOut(pairs[i := pair], i);
    assert Without(pairs[i := pair], i) == Without(pairs, i);
    var less := Gather(Without(pairs, i)).value;
    var (p, v0) := Entry(pairs[i]).value;
    assert less[p := v0][p := v] == less[p := v];
  }

  // ---- White space at the end of a pair ----

  lemma {:induction false} IndexOfPrefix(s: Text, u: Unit, t: Text)
    requires IndexOf(s, u) >= 0
    ensures IndexOf(s[..IndexOf(s, u) + 1] + t, u) == IndexOf(s, u)
  {
    var i := IndexOf(s, u);
    assert s[..i + 1] + t == s[..i] + [u] + t;
    IndexOfFirst(s[..i], u, t);
  }

  predicate EndsInSpace(s: Text) {
    s != [] && IsSpace(s[|s| - 1])
  }

  /** A text with another end: what is before a position, and what is after it. */
  lemma AroundIndex(s: Text, i: nat, t: Text)
    requires i < |s|
    ensures (s[..i + 1] + t)[..i] == s[..i] && (s[..i + 1] + t)[i + 1..] == t
    ensures t == s[i + 1..] ==> s[..i + 1] + t == s
  {
  }

  lemma EndAfterIndex(s: Text, i: nat)
    requires i < |s| && EndsInSpace(s) && !IsSpace(s[i])
    ensures EndsInSpace(s[i + 1..])
  {
    assert i + 1 < |s| && s[i + 1..][|s| - i - 2] == s[|s| - 1];
  }

  /** Trimming a pair with a separator trims what is after it. */
  lemma PairTrimmed(pair: Text)
    requires IndexOf(pair, EQUALS) >= 0 && EndsInSpace(pair)
    ensures var eq := IndexOf(pair, EQUALS);
      && IndexOf(TrimEnd(pair), EQUALS) == eq
      && TrimEnd(pair)[..eq] == pair[..eq]
      && TrimEnd(pair)[eq + 1..] == TrimEnd(pair[eq + 1..])
      && EndsInSpace(pair[eq + 1..])
  {
    var eq := IndexOf(pair, EQUALS);
    var raw := pair[eq + 1..];
    AroundIndex(pair, eq, raw);
    AroundIndex(pair, eq, TrimEnd(raw));
    EndAfterIndex(pair, eq);
    TrimEndAfter(pair[..eq + 1], raw);
    IndexOfPrefix(pair, EQUALS, TrimEnd(raw));
  }

  /** Trimming a pair shortens its value and nothing else. */
  lemma EntryTrimmed(pair: Text)
    requires Entry(pair).Success? && EndsInSpace(pair)
    ensures Entry(TrimEnd(pair)).Success?
    ensures Entry(TrimEnd(pair)).value.0 == Entry(pair).value.0
    ensures |Entry(TrimEnd(pair)).value.1| < |Entry(pair).value.1|
  {
    var raw := pair[IndexOf(pair, EQUALS) + 1..];
    PairTrimmed(pair);
    TrimEndShortens(raw);
    TrimmedValue(raw);
  }

  lemma {:induction false} TrimEndShortens(s: Text)
    ensures |TrimEnd(s)| <= |s|
    ensures EndsInSpace(s) ==> TrimEnd(s) != s
  {
    if EndsInSpace(s) { TrimEndShortens(s[..|s| - 1]); }
  }

  // ---- A shorter value is another request ----

  lemma AssetFields(env: Environment, ctx: Context, fields: Fields)
    requires env.registry(ctx.network) != [] && ResolveAsset(env, ctx, fields).Success?
    requires AssetCode in fields || AssetIssuer in fields
    ensures AssetCode in fields && AssetIssuer in fields
    ensures ResolveAsset(env, ctx, fields).value.code == fields[AssetCode]
    ensures ResolveAsset(env, ctx, fields).value.issuer == Some(fields[AssetIssuer])
  {
  }

  /** What an accepted request tells of its fields. */
  lemma AcceptedFields(env: Environment, ctx: Context, fields: Fields)
    requires env.registry(ctx.network) != [] && Check(env, ctx, fields).Success?
    ensures Callback !in fields && Memo !in fields && MemoType !in fields
    ensures NetworkPassphrase in fields ==> fields[NetworkPassphrase] == ctx.networkPassphrase
    ensures var r := Check(env, ctx, fields).value;
      && Lookup(fields, Destination) == Some(r.destination) && Lookup(fields, Amount) == r.amount
      && Given(Lookup(fields, Msg)) == r.msg && Lookup(fields, OriginDomain) == r.originDomain
      && Lookup(fields, Signature) == r.signature
      && ResolveAsset(env, ctx, fields) == Success(r.asset)
  {
  }

  lemma Shortened(env: Environment, ctx: Context, fields: Fields, p: Param, v: Text)
    requires env.registry(ctx.network) != [] && p in fields && |v| < |fields[p]|
    requires Check(env, ctx, fields).Success? && Check(env, ctx, fields[p := v]).Success?
    ensures Check(env, ctx, fields[p := v]) != Check(env, ctx, fields)
  {
    AcceptedFields(env, ctx, fields);
    AcceptedFields(env, ctx, fields[p := v]);
    if p.AssetCode? || p.AssetIssuer? {
      AssetFields(env, ctx, fields);
      AssetFields(env, ctx, fields[p := v]);
    }
  }

  // ---- The text of a reordered URI ----

  /** The URI up to its query. */
  function Head(uri: Text): Text
    requires Query(uri).Success?
  {
    uri[..|uri| - |Query(uri).value|]
  }

  lemma HeadText(uri: Text)
    requires Query(uri).Success?
    ensures |Scheme()| == 12 && |Head(uri)| == 16 && Head(uri)[15] == QUESTION && !IsSpace(Head(uri)[0])
    ensures uri == Head(uri) + Query(uri).value
    ensures HasScheme(Head(uri)) && Head(uri)[12..15] == Ascii("pay")
  {
    var rest := uri[12..];
    assert rest[..3] == Ascii("pay") && IndexOf(rest, QUESTION) == 3;
    assert Lower(uri[0]) == Scheme()[0] == 119;
  }

  lemma OtherQuery(head: Text, query: Text)
    requires |head| == 16 && head[15] == QUESTION && HasScheme(head) && head[12..15] == Ascii("pay")
    requires query != [] && HASH !in query && 16 + |query| <= MAX_URI_LENGTH
    ensures Query(head + query) == Success(query)
  {
    var uri := head + query;
    SchemeLowers();
    var rest := uri[12..];
    assert rest == Ascii("pay") + [QUESTION] + query;
    IndexOfFirst(Ascii("pay"), QUESTION, query);
    assert rest[..3] == Ascii("pay") && rest[4..] == query;
  }

  lemma TrimStartKeeps(s: Text)
    requires s != [] && !IsSpace(s[0])
    ensures TrimStart(s) == s
  {
  }

  /** The URI with its parameters in another order. */
  function Rebuilt(uri: Text, pairs: seq<Text>): Text
    requires Query(uri).Success? && pairs != []
  {
    Head(uri) + Join(pairs, AMP)
  }

  function Trimmed(pairs: seq<Text>): seq<Text>
    requires pairs != []
  {
    pairs[|pairs| - 1 := TrimEnd(pairs[|pairs| - 1])]
  }

  lemma TrimRebuilt(uri: Text, pairs: seq<Text>)
    requires Query(uri).Success? && pairs != []
    ensures Trim(Rebuilt(uri, pairs)) == Head(uri) + Join(Trimmed(pairs), AMP)
  {
    HeadText(uri);
    TrimStartKeeps(Rebuilt(uri, pairs));
    TrimEndAfter(Head(uri), Join(pairs, AMP));
    TrimEndJoin(pairs, AMP);
  }

  lemma {:induction false} TrimEndKeepsOut(s: Text, u: Unit)
    requires u !in s
    ensures u !in TrimEnd(s)
  {
    if EndsInSpace(s) { TrimEndKeepsOut(s[..|s| - 1], u); }
  }

  ghost predicate CleanPairs(pairs: seq<Text>) {
    forall pair :: pair in pairs ==> AMP !in pair && HASH !in pair
  }

  lemma TrimmedClean(pairs: seq<Text>)
    requires pairs != [] && CleanPairs(pairs)
    ensures CleanPairs(Trimmed(pairs))
  {
    var last := pairs[|pairs| - 1];
    assert last in pairs;
    TrimEndKeepsOut(last, AMP);
    TrimEndKeepsOut(last, HASH);
    forall pair | pair in Trimmed(pairs) ensures AMP !in pair && HASH !in pair {
      assert pair in pairs || pair == TrimEnd(last);
    }
  }

  /** Clean pairs that fit come out of the URI as they went in. */
  lemma PairsComeOut(uri: Text, pairs: seq<Text>)
    requires Query(uri).Success? && pairs != [] && CleanPairs(pairs)
    requires Join(pairs, AMP) != [] && 16 + |Join(pairs, AMP)| <= MAX_URI_LENGTH
    ensures Query(Head(uri) + Join(pairs, AMP)).Success?
    ensures Split(Query(Head(uri) + Join(pairs, AMP)).value, AMP) == pairs
  {
    HeadText(uri);
    JoinAvoids(pairs, AMP, HASH);
    OtherQuery(Head(uri), Join(pairs, AMP));
    SplitJoin(pairs, AMP);
  }

  lemma ShorterJoin(pairs: seq<Text>)
    requires pairs != []
    ensures |Join(Trimmed(pairs), AMP)| <= |Join(pairs, AMP)|
  {
    TrimEndJoin(pairs, AMP);
    TrimEndShortens(Join(pairs, AMP));
  }

  /** The text of the reordered URI, as the parser sees it: its last pair loses white space at its end. */
  lemma RebuiltReads(env: Environment, ctx: Context, uri: Text, pairs: seq<Text>)
    requires env.registry(ctx.network) != [] && Query(uri).Success?
    requires Gather(Split(Query(uri).value, AMP)).Some?
    requires multiset(pairs) == multiset(Split(Query(uri).value, AMP))
    ensures pairs != [] && Gather(pairs) == Gather(Split(Query(uri).value, AMP))
    ensures var again := Parse(env, ctx, Rebuilt(uri, pairs));
      var read := Read(env, ctx, Trimmed(pairs));
      again == if read.Success? then Success(Parsed(read.value, Trim(Rebuilt(uri, pairs)))) else Failure(read.error)
  {
    var query := Query(uri).value;
    var original := Split(query, AMP);
    assert original[0] in multiset(original);
    Permuted(original, pairs);
    HeadText(uri);
    JoinSplit(query, AMP);
    JoinLength(original);
    JoinLength(pairs);
    TrimRebuilt(uri, pairs);
    OriginalClean(uri, pairs);
    TrimmedClean(pairs);
    ShorterJoin(pairs);
    TrimmedNotEmpty(pairs);
    PairsComeOut(uri, Trimmed(pairs));
  }

  lemma OriginalClean(uri: Text, pairs: seq<Text>)
    requires Query(uri).Success? && multiset(pairs) == multiset(Split(Query(uri).value, AMP))
    ensures CleanPairs(pairs)
  {
    var query := Query(uri).value;
    SplitParts(query, AMP, AMP);
    SplitParts(query, AMP, HASH);
    forall pair | pair in pairs ensures AMP !in pair && HASH !in pair {
      assert pair in multiset(pairs);
    }
  }

  lemma TrimmedNotEmpty(pairs: seq<Text>)
    requires pairs != [] && Gather(pairs).Some?
    ensures Join(Trimmed(pairs), AMP) != []
  {
    if |pairs| == 1 {
      var pair := pairs[0];
      if EndsInSpace(pair) { EntryTrimmed(pair); }
    }
  }

  ghost predicate Accepts(r: Result<Parsed, Sep7Error>, request: Request) {
    r.Success? && r.value.request == request
  }

  lemma ReadChecks(env: Environment, ctx: Context, pairs: seq<Text>)
    requires env.registry(ctx.network) != []
    ensures Read(env, ctx, pairs).Success? ==> Gather(pairs).Some?
    ensures Gather(pairs).Some? ==> Read(env, ctx, pairs) == Check(env, ctx, Gather(pairs).value)
  {
    CollectFromEmpty(pairs);
  }

  /** Pairs that are read as a request are read as another, or not at all, when white space is trimmed off the last. */
  lemma TrimmedReadsOther(env: Environment, ctx: Context, pairs: seq<Text>)
    requires env.registry(ctx.network) != [] && pairs != [] && Read(env, ctx, pairs).Success?
    ensures Read(env, ctx, Trimmed(pairs)) == Read(env, ctx, pairs) <==> !EndsInSpace(pairs[|pairs| - 1])
  {
    var last := |pairs| - 1;
    ReadChecks(env, ctx, pairs);
    ReadChecks(env, ctx, Trimmed(pairs));
    if EndsInSpace(pairs[last]) {
      TakeOut(pairs, last);
      EntryTrimmed(pairs[last]);
      var fields := Gather(pairs).value;
      var (p, v) := Entry(TrimEnd(pairs[last])).value;
      Replaced(pairs, last, TrimEnd(pairs[last]), v);
      if Check(env, ctx, fields[p := v]).Success? { Shortened(env, ctx, fields, p, v); }
    } else {
      assert Trimmed(pairs) == pairs;
    }
  }

  /**
   * An accepted URI with its parameters reordered is accepted as the same
   * request exactly when its new last parameter does not end in white space.
   */
  lemma Reordering(env: Environment, ctx: Context, input: Text, pairs: seq<Text>)
    requires env.registry(ctx.network) != [] && Parse(env, ctx, input).Success?
    requires multiset(pairs) == multiset(Split(Query(Trim(input)).value, AMP))
    ensures pairs != []
    ensures Accepts(Parse(env, ctx, Rebuilt(Trim(input), pairs)), Parse(env, ctx, input).value.request)
       <==> !EndsInSpace(pairs[|pairs| - 1])
  {
    var uri := Trim(input);
    var original := Split(Query(uri).value, AMP);
    ReadChecks(env, ctx, original);
    RebuiltReads(env, ctx, uri, pairs);
    ReadChecks(env, ctx, pairs);
    TrimmedReadsOther(env, ctx, pairs);
  }
}
