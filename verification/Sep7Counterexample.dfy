/** A request that reordering its parameters changes. */
module Sep7Counterexample {
  import opened Wrappers
  import opened Text
  import opened PercentEncoding
  import opened Sep7
  import opened Sep7RoundTrip
  import opened Sep7Reorder

  function MessagePair(): Text {
    PairText(Msg, [SPACE])
  }

  function DestinationPair(d: Text): Text {
    PairText(Param.Destination, d)
  }

  /** A request whose message is one raw space, before its destination. */
  function SpaceUri(d: Text): Text {
    UriOf(Join([MessagePair(), DestinationPair(d)], AMP))
  }

  lemma MessageReads()
    ensures Entry(MessagePair()) == Success((Msg, [SPACE]))
  {
    var raw: Text := [SPACE];
    PlainHasNoPlus(raw);
    assert raw[1..] == [] && [raw[0]] + [] == raw;
    assert Decode(raw) == Some(raw);
    RawEntryReads(Msg, [SPACE], [SPACE]);
  }

  lemma DestinationReads(env: Environment, d: Text)
    requires IsAccount(env, d)
    ensures Entry(DestinationPair(d)) == Success((Param.Destination, d))
  {
    PlainEncodes(d);
    EntryReads(Param.Destination, d);
  }

  lemma PairsGather(env: Environment, d: Text)
    requires IsAccount(env, d)
    ensures Gather([MessagePair(), DestinationPair(d)])
         == Some(map[Param.Destination := d][Msg := [SPACE]])
  {
    MessageReads();
    DestinationReads(env, d);
    GatherHead(DestinationPair(d), []);
    assert [DestinationPair(d)] + [] == [DestinationPair(d)];
    GatherHead(MessagePair(), [DestinationPair(d)]);
    assert [MessagePair()] + [DestinationPair(d)] == [MessagePair(), DestinationPair(d)];
  }

  lemma FieldsAreAccepted(env: Environment, ctx: Context, d: Text)
    requires IsAccount(env, d) && ctx.network == Mainnet && env.registry(ctx.network) != []
    ensures Check(env, ctx, map[Param.Destination := d][Msg := [SPACE]]).Success?
  {
  }

  lemma PairsAreClean(env: Environment, d: Text)
    requires IsAccount(env, d)
    ensures CleanPairs([MessagePair(), DestinationPair(d)])
    ensures |MessagePair()| == 5 && |DestinationPair(d)| == 68 && 50 <= DestinationPair(d)[67] <= 90
  {
    KeysArePlain(Msg);
    KeysArePlain(Param.Destination);
  }

  lemma SpaceUriParses(env: Environment, ctx: Context, d: Text)
    requires IsAccount(env, d) && ctx.network == Mainnet && env.registry(ctx.network) != []
    ensures Trim(SpaceUri(d)) == SpaceUri(d)
    ensures Query(SpaceUri(d)).Success? && Split(Query(SpaceUri(d)).value, AMP) == [MessagePair(), DestinationPair(d)]
    ensures Parse(env, ctx, SpaceUri(d)).Success?
  {
    var pairs := [MessagePair(), DestinationPair(d)];
    PairsAreClean(env, d);
    JoinAvoids(pairs, AMP, HASH);
    assert pairs[1..] == [DestinationPair(d)];
    assert Join(pairs, AMP) == MessagePair() + [AMP] + DestinationPair(d);
    SchemeLowers();
    TrimNothing(SpaceUri(d));
    QueryOfUri(Join(pairs, AMP));
    SplitJoin(pairs, AMP);
    PairsGather(env, d);
    CollectFromEmpty(pairs);
    FieldsAreAccepted(env, ctx, d);
  }

  /** Two parameters swapped, the first of which ends in white space. */
  lemma SwappedIsAnother(env: Environment, ctx: Context, input: Text, a: Text, b: Text)
    requires env.registry(ctx.network) != [] && Parse(env, ctx, input).Success?
    requires Split(Query(Trim(input)).value, AMP) == [a, b] && EndsInSpace(a)
    ensures !Accepts(Parse(env, ctx, Rebuilt(Trim(input), [b, a])), Parse(env, ctx, input).value.request)
  {
    Reordering(env, ctx, input, [b, a]);
  }

  /** For any destination: with the message last its space is trimmed, and the same parameters are another request. */
  lemma TrailingSpaceIsLost(env: Environment, ctx: Context, d: Text)
    requires IsAccount(env, d) && ctx.network == Mainnet && env.registry(ctx.network) != []
    ensures Parse(env, ctx, SpaceUri(d)).Success? && Query(Trim(SpaceUri(d))).Success?
    ensures !Accepts(Parse(env, ctx, Rebuilt(Trim(SpaceUri(d)), [DestinationPair(d), MessagePair()])),
                     Parse(env, ctx, SpaceUri(d)).value.request)
  {
    SpaceUriParses(env, ctx, d);
    PairsAreClean(env, d);
    SwappedIsAnother(env, ctx, SpaceUri(d), MessagePair(), DestinationPair(d));
  }
}
