/**
 * The cleanup transaction builder (services/lifecycle-service/src/builder.ts):
 * the dependency-ordered operation list, its split into transactions, and the
 * tracking of which of them are confirmed.
 */
module CleanupBuilder {
  import opened Wrappers
  import opened Horizon

  const OPS_PER_TX: nat := 100
  const MISSING_ASSET := "Non-native asset is missing code or issuer"

  // ---- The operation list ----

  predicate Buildable(account: Account) {
    && (forall i :: 0 <= i < |account.offers| ==>
          Resolvable(account.offers[i].selling) && Resolvable(account.offers[i].buying))
    && (forall i :: 0 <= i < |account.balances| ==> Resolvable(account.balances[i].asset))
  }

  function CancelOp(o: Offer): Op
    requires Resolvable(o.selling) && Resolvable(o.buying)
  {
    CancelOffer(AssetOf(o.selling), AssetOf(o.buying), o.price, o.id)
  }

  /** Pay the balance out if there is any, then drop the trustline. */
  function CloseLineOps(b: Balance, destination: string): seq<Op>
    requires Resolvable(b.asset)
  {
    if IsNative(b.asset) then []
    else (if b.balance.stroops > 0 then [Payment(destination, AssetOf(b.asset), b.balance)] else [])
         + [RemoveTrustline(AssetOf(b.asset))]
  }

  function OfferOps(offers: seq<Offer>): (ops: seq<Op>)
    requires forall i :: 0 <= i < |offers| ==> Resolvable(offers[i].selling) && Resolvable(offers[i].buying)
  {
    seq(|offers|, i requires 0 <= i < |offers| => CancelOp(offers[i]))
  }

  function BalanceOps(bs: seq<Balance>, destination: string): seq<Op>
    requires forall i :: 0 <= i < |bs| ==> Resolvable(bs[i].asset)
  {
    if bs == [] then [] else CloseLineOps(bs[0], destination) + BalanceOps(bs[1..], destination)
  }

  function DataOps(keys: seq<string>): seq<Op> {
    seq(|keys|, i requires 0 <= i < |keys| => DeleteData(keys[i]))
  }

  /** Offers first, then the trustlines, then the data entries. */
  function CleanupOps(account: Account, destination: string): seq<Op>
    requires Buildable(account)
  {
    OfferOps(account.offers) + BalanceOps(account.balances, destination) + DataOps(account.dataKeys)
  }

  lemma {:induction false} BalanceOpsAppend(bs: seq<Balance>, b: Balance, destination: string)
    requires forall i :: 0 <= i < |bs| ==> Resolvable(bs[i].asset)
    requires Resolvable(b.asset)
    ensures forall i :: 0 <= i < |bs + [b]| ==> Resolvable((bs + [b])[i].asset)
    ensures BalanceOps(bs + [b], destination) == BalanceOps(bs, destination) + CloseLineOps(b, destination)
  {
    if bs == [] {
      assert bs + [b] == [b];
      assert [b][1..] == [];
    } else {
      assert (bs + [b])[1..] == bs[1..] + [b];
      BalanceOpsAppend(bs[1..], b, destination);
    }
  }

  method CollectOfferOps(offers: seq<Offer>) returns (r: Result<seq<Op>, string>)
    ensures r.Success? <==>
      forall i :: 0 <= i < |offers| ==> Resolvable(offers[i].selling) && Resolvable(offers[i].buying)
    ensures r.Success? ==> r.value == OfferOps(offers)
    ensures r.Failure? ==> r.error == MISSING_ASSET
  {
    var out: seq<Op> := [];
    for i := 0 to |offers|
      invariant forall k :: 0 <= k < i ==> Resolvable(offers[k].selling) && Resolvable(offers[k].buying)
      invariant |out| == i && forall k :: 0 <= k < i ==> out[k] == CancelOp(offers[k])
    {
      var offer := offers[i];
      if !Resolvable(offer.selling) || !Resolvable(offer.buying) {
        return Failure(MISSING_ASSET);
      }
      out := out + [CancelOp(offer)];
    }
    return Success(out);
  }

  method CollectBalanceOps(balances: seq<Balance>, destination: string) returns (r: Result<seq<Op>, string>)
    ensures r.Success? <==> forall i :: 0 <= i < |balances| ==> Resolvable(balances[i].asset)
    ensures r.Success? ==> r.value == BalanceOps(balances, destination)
    ensures r.Failure? ==> r.error == MISSING_ASSET
  {
    var out: seq<Op> := [];
    for i := 0 to |balances|
      invariant forall k :: 0 <= k < i ==> Resolvable(balances[k].asset)
      invariant out == BalanceOps(balances[..i], destination)
    {
      var balance := balances[i];
      if !Resolvable(balance.asset) {
        return Failure(MISSING_ASSET);
      }
      assert balances[..i + 1] == balances[..i] + [balance];
      BalanceOpsAppend(balances[..i], balance, destination);
      if !IsNative(balance.asset) {
        if balance.balance.stroops > 0 {
          out := out + [Payment(destination, AssetOf(balance.asset), balance.balance)];
        }
        out := out + [RemoveTrustline(AssetOf(balance.asset))];
      }
    }
    assert balances[..|balances|] == balances;
    return Success(out);
  }

  /** The three loops of the source run one after the other; the first unbuildable asset throws. */
  method CollectCleanupOps(account: Account, destination: string) returns (r: Result<seq<Op>, string>)
    ensures r.Success? <==> Buildable(account)
    ensures r.Success? ==> r.value == CleanupOps(account, destination)
    ensures r.Failure? ==> r.error == MISSING_ASSET
  {
    var cancels := CollectOfferOps(account.offers);
    if cancels.Failure? {
      return cancels;
    }
    var closes := CollectBalanceOps(account.balances, destination);
    if closes.Failure? {
      return closes;
    }
    var out := cancels.value + closes.value;
    for i := 0 to |account.dataKeys|
      invariant out == cancels.value + closes.value + DataOps(account.dataKeys)[..i]
    {
      out := out + [DeleteData(account.dataKeys[i])];
    }
    return Success(out);
  }

  // ---- The split into transactions ----

  /** An unsigned transaction: its sequence number and its operations. */
  datatype Tx = Tx(sequence: int, ops: seq<Op>)

  datatype CleanupStep = CleanupStep(tx: Tx, hash: string)

  function Take(ops: seq<Op>): nat {
    if |ops| < OPS_PER_TX then |ops| else OPS_PER_TX
  }

  /** The steps for `ops` when the source account's sequence number is `sequence`. */
  function Split(ops: seq<Op>, sequence: int, hash: Tx -> string): seq<CleanupStep>
    decreases |ops|
  {
    if ops == [] then []
    else
      var tx := Tx(sequence + 1, ops[..Take(ops)]);
      [CleanupStep(tx, hash(tx))] + Split(ops[Take(ops)..], sequence + 1, hash)
  }

  function CeilDiv(n: nat, d: nat): nat
    requires d > 0
  {
    (n + d - 1) / d
  }

  function Concat(steps: seq<CleanupStep>): seq<Op> {
    if steps == [] then [] else steps[0].tx.ops + Concat(steps[1..])
  }

  /** Splitting loses nothing and respects the protocol limits: consecutive
      sequence numbers, no empty transaction, none over 100 operations. */
  lemma {:induction false} SplitIsExact(ops: seq<Op>, sequence: int, hash: Tx -> string)
    ensures var steps := Split(ops, sequence, hash);
      && Concat(steps) == ops
      && |steps| == CeilDiv(|ops|, OPS_PER_TX)
      && (forall i :: 0 <= i < |steps| ==>
            && steps[i].tx.sequence == sequence + 1 + i
            && steps[i].hash == hash(steps[i].tx)
            && 0 < |steps[i].tx.ops| <= OPS_PER_TX)
    decreases |ops|
  {
    if ops != [] {
      var rest := ops[Take(ops)..];
      var steps := Split(ops, sequence, hash);
      SplitIsExact(rest, sequence + 1, hash);
      assert steps[1..] == Split(rest, sequence + 1, hash);
      assert ops[..Take(ops)] + rest == ops;
      assert CeilDiv(|ops|, OPS_PER_TX) == 1 + CeilDiv(|rest|, OPS_PER_TX);
      forall i | 0 <= i < |steps|
        ensures steps[i].tx.sequence == sequence + 1 + i
        ensures steps[i].hash == hash(steps[i].tx)
        ensures 0 < |steps[i].tx.ops| <= OPS_PER_TX
      {
        if i > 0 { assert steps[i] == steps[1..][i - 1]; }
      }
    }
  }

  /** Splitting what the first `k` transactions left over gives the other ones. */
  lemma {:induction false} SplitDrop(ops: seq<Op>, sequence: int, hash: Tx -> string, k: nat)
    requires k < |Split(ops, sequence, hash)|
    ensures OPS_PER_TX * k < |ops|
    ensures Split(ops[OPS_PER_TX * k..], sequence + k, hash) == Split(ops, sequence, hash)[k..]
    ensures Concat(Split(ops, sequence, hash)[..k]) == ops[..OPS_PER_TX * k]
    decreases k
  {
    var steps := Split(ops, sequence, hash);
    if k > 0 {
      var rest := ops[Take(ops)..];
      var tail := Split(rest, sequence + 1, hash);
      assert steps[1..] == tail;
      SplitDrop(rest, sequence + 1, hash, k - 1);
      assert Take(ops) == OPS_PER_TX;
      assert rest[OPS_PER_TX * (k - 1)..] == ops[OPS_PER_TX * k..];
      assert steps[k..] == tail[k - 1..];
      assert steps[..k][1..] == tail[..k - 1];
      assert ops[..OPS_PER_TX * k] == ops[..OPS_PER_TX] + rest[..OPS_PER_TX * (k - 1)];
    } else {
      assert steps[..0] == [];
    }
  }

  /** What `buildCleanupSteps` returns; a throw is a failure. */
  function Build(account: Account, destination: string, hash: Tx -> string): Result<seq<CleanupStep>, string> {
    if Buildable(account)
    then Success(Split(CleanupOps(account, destination), account.sequence, hash))
    else Failure(MISSING_ASSET)
  }

  method BuildCleanupSteps(account: Account, destination: string, hash: Tx -> string)
    returns (r: Result<seq<CleanupStep>, string>)
    ensures r == Build(account, destination, hash)
  {
    var collected := CollectCleanupOps(account, destination);
    if collected.Failure? {
      return Failure(collected.error);
    }
    var ops := collected.value;
    var sequence := account.sequence;
    var steps: seq<CleanupStep> := [];
    var start := 0;
    while start < |ops|
      invariant 0 <= start <= |ops|
      invariant Split(ops, account.sequence, hash) == steps + Split(ops[start..], sequence, hash)
    {
      var end := if start + OPS_PER_TX < |ops| then start + OPS_PER_TX else |ops|;
      var tx := Tx(sequence + 1, ops[start..end]);
      assert ops[start..][..Take(ops[start..])] == ops[start..end];
      assert ops[start..][Take(ops[start..])..] == ops[end..];
      sequence := sequence + 1;
      steps := steps + [CleanupStep(tx, hash(tx))];
      start := end;
    }
    assert ops[start..] == [];
    assert steps + [] == steps;
    return Success(steps);
  }

  /** The same transactions built another time, whose time bounds give them other hashes. */
  function Rehashed(steps: seq<CleanupStep>, later: Tx -> string): seq<CleanupStep> {
    seq(|steps|, i requires 0 <= i < |steps| => CleanupStep(steps[i].tx, later(steps[i].tx)))
  }

  lemma {:induction false} SplitRehashed(ops: seq<Op>, sequence: int, hash: Tx -> string, later: Tx -> string)
    ensures Split(ops, sequence, later) == Rehashed(Split(ops, sequence, hash), later)
    decreases |ops|
  {
    if ops != [] { SplitRehashed(ops[Take(ops)..], sequence + 1, hash, later); }
  }

  // ---- Tracking which steps are confirmed ----

  datatype StepConfirmation =
    StepConfirmation(stepIndex: int, hash: string, confirmed: bool, confirmedAt: Option<string>)

  datatype ExpectedState =
    ExpectedState(sequence: int, balances: seq<Balance>, dataKeys: seq<string>, openOffers: nat)

  datatype Tracking = Tracking(
    accountId: string,
    destination: string,
    totalSteps: nat,
    steps: seq<StepConfirmation>,
    originalSteps: seq<CleanupStep>,
    expected: ExpectedState)

  function CreatePlanTracking(account: Account, destination: string, steps: seq<CleanupStep>): Tracking {
    Tracking(account.accountId, destination, |steps|,
             seq(|steps|, i requires 0 <= i < |steps| => StepConfirmation(i, steps[i].hash, false, None)),
             steps,
             ExpectedState(account.sequence, account.balances, account.dataKeys, account.openOffers))
  }

  /** A confirmation names a step by its index or by its transaction hash. */
  datatype StepName = ByIndex(index: int) | ByHash(hash: string)

  predicate Names(s: StepConfirmation, name: StepName) {
    match name
    case ByIndex(i) => s.stepIndex == i
    case ByHash(h) => s.hash == h
  }

  function RecordStepConfirmation(tracking: Tracking, name: StepName, now: string): Tracking {
    tracking.(steps := seq(|tracking.steps|, i requires 0 <= i < |tracking.steps| =>
      var s := tracking.steps[i];
      if Names(s, name)
      then s.(confirmed := true, confirmedAt := if s.confirmedAt.Some? then s.confirmedAt else Some(now))
      else s))
  }

  /** What holds of every tracking record made by the two functions above. */
  ghost predicate WellFormed(t: Tracking) {
    && |t.steps| == t.totalSteps == |t.originalSteps|
    && (forall i :: 0 <= i < |t.steps| ==>
          t.steps[i].stepIndex == i && t.steps[i].hash == t.originalSteps[i].hash)
  }

  /** A confirmed step has the time of its confirmation. */
  ghost predicate Stamped(t: Tracking) {
    forall i :: 0 <= i < |t.steps| && t.steps[i].confirmed ==> t.steps[i].confirmedAt.Some?
  }

  /** The confirmed steps are exactly the first `k`. */
  ghost predicate ConfirmedPrefix(t: Tracking, k: nat) {
    k <= |t.steps| && forall i :: 0 <= i < |t.steps| ==> (t.steps[i].confirmed <==> i < k)
  }

  /** A record made from any sequence of confirmations. */
  function RecordAll(t: Tracking, names: seq<StepName>, now: string): Tracking {
    if names == [] then t
    else RecordStepConfirmation(RecordAll(t, names[..|names| - 1], now), names[|names| - 1], now)
  }

  /** After any run of confirmations a step counts as confirmed exactly when one
      of them named it, and nothing else of the plan has changed. */
  lemma {:induction false} ConfirmationsAreExact(
      account: Account, destination: string, steps: seq<CleanupStep>, names: seq<StepName>, now: string)
    ensures var t := RecordAll(CreatePlanTracking(account, destination, steps), names, now);
      && WellFormed(t) && Stamped(t)
      && t == CreatePlanTracking(account, destination, steps).(steps := t.steps)
      && (forall i :: 0 <= i < |steps| ==>
            (t.steps[i].confirmed <==>
             exists n :: 0 <= n < |names| && (names[n] == ByIndex(i) || names[n] == ByHash(steps[i].hash))))
  {
    if names != [] {
      var last := |names| - 1;
      ConfirmationsAreExact(account, destination, steps, names[..last], now);
      var before := RecordAll(CreatePlanTracking(account, destination, steps), names[..last], now);
      var t := RecordAll(CreatePlanTracking(account, destination, steps), names, now);
      forall i | 0 <= i < |steps|
        ensures t.steps[i].confirmed <==>
          exists n :: 0 <= n < |names| && (names[n] == ByIndex(i) || names[n] == ByHash(steps[i].hash))
      {
        assert Names(before.steps[i], names[last]) <==>
               names[last] == ByIndex(i) || names[last] == ByHash(steps[i].hash);
        if before.steps[i].confirmed {
          var n :| 0 <= n < |names[..last]| &&
            (names[..last][n] == ByIndex(i) || names[..last][n] == ByHash(steps[i].hash));
          assert names[n] == names[..last][n];
        } else {
          forall n | 0 <= n < last
            ensures !(names[n] == ByIndex(i) || names[n] == ByHash(steps[i].hash))
          {
            assert names[n] == names[..last][n];
          }
        }
      }
    }
  }

  ghost predicate NamedIn(names: seq<StepName>, i: nat, hash: string) {
    exists n :: 0 <= n < |names| && (names[n] == ByIndex(i) || names[n] == ByHash(hash))
  }

  lemma NamedInSnoc(names: seq<StepName>, i: nat, hash: string)
    requires names != []
    ensures var last := names[|names| - 1];
      NamedIn(names, i, hash) <==> NamedIn(names[..|names| - 1], i, hash) || last == ByIndex(i) || last == ByHash(hash)
  {
    var most := names[..|names| - 1];
    if n :| 0 <= n < |most| && (most[n] == ByIndex(i) || most[n] == ByHash(hash)) {
      assert names[n] == most[n];
    }
    if n :| 0 <= n < |names| - 1 && (names[n] == ByIndex(i) || names[n] == ByHash(hash)) {
      assert names[n] == most[n];
    }
  }

  lemma {:induction false} StampsAfter(t: Tracking, names: seq<StepName>, now: string)
    requires forall i :: 0 <= i < |t.steps| ==> t.steps[i].stepIndex == i
    ensures var steps := RecordAll(t, names, now).steps;
      && |steps| == |t.steps|
      && (forall i :: 0 <= i < |steps| ==> steps[i].stepIndex == i && steps[i].hash == t.steps[i].hash)
      && (forall i :: 0 <= i < |steps| ==>
            steps[i].confirmedAt == if t.steps[i].confirmedAt.Some? then t.steps[i].confirmedAt
                                    else if NamedIn(names, i, t.steps[i].hash) then Some(now) else None)
  {
    if names != [] {
      var most := names[..|names| - 1];
      StampsAfter(t, most, now);
      forall i | 0 <= i < |t.steps| {
        NamedInSnoc(names, i, t.steps[i].hash);
      }
    }
  }

  /** A step keeps the time of the confirmation that named it first. */
  lemma StampIsFirst(
      account: Account, destination: string, steps: seq<CleanupStep>,
      names: seq<StepName>, now: string, more: seq<StepName>, later: string)
    ensures var t := RecordAll(RecordAll(CreatePlanTracking(account, destination, steps), names, now), more, later);
      && |t.steps| == |steps|
      && (forall i :: 0 <= i < |steps| ==>
            t.steps[i].confirmedAt == if NamedIn(names, i, steps[i].hash) then Some(now)
                                      else if NamedIn(more, i, steps[i].hash) then Some(later) else None)
  {
    var t := CreatePlanTracking(account, destination, steps);
    StampsAfter(t, names, now);
    StampsAfter(RecordAll(t, names, now), more, later);
  }

  /** A confirmation leaves the record as it was exactly when every step that it names is confirmed already. */
  lemma ConfirmationIsLostIff(t: Tracking, name: StepName, now: string)
    requires Stamped(t)
    ensures RecordStepConfirmation(t, name, now) == t
       <==> forall i :: 0 <= i < |t.steps| && Names(t.steps[i], name) ==> t.steps[i].confirmed
  {
    var next := RecordStepConfirmation(t, name, now);
    if forall i :: 0 <= i < |t.steps| && Names(t.steps[i], name) ==> t.steps[i].confirmed {
      assert next.steps == t.steps;
    } else {
      var i :| 0 <= i < |t.steps| && Names(t.steps[i], name) && !t.steps[i].confirmed;
      assert next.steps[i].confirmed;
    }
  }
}
