/**
 * The cleanup planner (services/lifecycle-service/src/planner.ts): the
 * self-funding preflight, the blockers, and the promised transaction count.
 */
module CleanupPlanner {
  import opened Wrappers
  import opened Horizon
  import opened CleanupBuilder
  import opened Ledger
  import opened CleanupProgress
  import opened CleanupRuns

  datatype Blocker =
    | HoldsBalance(asset: AssetRef, balance: Decimal)
    | HoldsTrustline(asset: AssetRef)
    | HasOffers(count: nat)
    | HasData(name: string)

  datatype Plan =
    | Insufficient(spendable: nat, required: nat)
    | Plan(blockers: seq<Blocker>, estimatedTransactions: nat, mergeReady: bool)

  // ---- The two amounts of the preflight ----

  function NativeStroops(bs: seq<Balance>): int {
    if bs == [] then 0
    else if IsNative(bs[0].asset) then bs[0].balance.stroops
    else NativeStroops(bs[1..])
  }

  function SubentriesOf(account: Account): nat {
    if account.subentryCount.Some? then account.subentryCount.value
    else |NonNative(account.balances)| + account.openOffers + |account.dataKeys|
  }

  function SpendableBalance(account: Account): nat {
    var native := NativeStroops(account.balances);
    var reserve := (2 + SubentriesOf(account)) * BASE_RESERVE;
    if native > reserve then native - reserve else 0
  }

  function OpsForBalances(bs: seq<Balance>): nat {
    if bs == [] then 0
    else (if IsNative(bs[0].asset) then 0 else if bs[0].balance.stroops > 0 then 2 else 1) + OpsForBalances(bs[1..])
  }

  function CountedOps(account: Account): nat {
    OpsForBalances(account.balances) + account.openOffers + |account.dataKeys|
  }

  function RequiredFee(account: Account): nat {
    (if CountedOps(account) > 1 then CountedOps(account) else 1) * BASE_FEE
  }

  lemma {:induction false} OpsForBalancesAppend(bs: seq<Balance>, b: Balance)
    ensures OpsForBalances(bs + [b]) == OpsForBalances(bs) + OpsForBalances([b])
  {
    if bs == [] {
      assert bs + [b] == [b];
    } else {
      assert (bs + [b])[1..] == bs[1..] + [b];
      OpsForBalancesAppend(bs[1..], b);
    }
  }

  /** The counting loop that the fee and the estimate both run. */
  method CountOps(account: Account) returns (cleanupOps: nat)
    ensures cleanupOps == CountedOps(account)
  {
    cleanupOps := 0;
    for i := 0 to |account.balances|
      invariant cleanupOps == OpsForBalances(account.balances[..i])
    {
      var balance := account.balances[i];
      assert account.balances[..i + 1] == account.balances[..i] + [balance];
      OpsForBalancesAppend(account.balances[..i], balance);
      if !IsNative(balance.asset) {
        if balance.balance.stroops > 0 {
          cleanupOps := cleanupOps + 1;
        }
        cleanupOps := cleanupOps + 1;
      }
    }
    assert account.balances[..|account.balances|] == account.balances;
    cleanupOps := cleanupOps + account.openOffers;
    cleanupOps := cleanupOps + |account.dataKeys|;
  }

  method CalculateRequiredFee(account: Account) returns (fee: nat)
    ensures fee == RequiredFee(account)
  {
    var cleanupOps := CountOps(account);
    var totalOps := if cleanupOps > 1 then cleanupOps else 1;
    fee := totalOps * BASE_FEE;
  }

  // ---- The plan ----

  function LineBlockers(b: Balance): seq<Blocker> {
    if IsNative(b.asset) then []
    else (if b.balance.stroops > 0 then [HoldsBalance(b.asset, b.balance)] else []) + [HoldsTrustline(b.asset)]
  }

  function BalanceBlockers(bs: seq<Balance>): seq<Blocker> {
    if bs == [] then [] else LineBlockers(bs[0]) + BalanceBlockers(bs[1..])
  }

  function DataBlockers(keys: seq<string>): seq<Blocker> {
    seq(|keys|, i requires 0 <= i < |keys| => HasData(keys[i]))
  }

  function Blockers(account: Account): seq<Blocker> {
    BalanceBlockers(account.balances)
    + (if account.openOffers > 0 then [HasOffers(account.openOffers)] else [])
    + DataBlockers(account.dataKeys)
  }

  /** The planner refuses an incomplete account and reports one that cannot pay its own fees. */
  function PlanOf(account: Account): Result<Plan, string> {
    if account.paginationIncomplete then Failure("trustline pagination is incomplete")
    else if SpendableBalance(account) < RequiredFee(account) then
      Success(Insufficient(SpendableBalance(account), RequiredFee(account)))
    else
      var blockers := Blockers(account);
      Success(Plan(blockers,
                   if blockers == [] then 1 else CeilDiv(CountedOps(account), OPS_PER_TX) + 1,
                   blockers == []))
  }

  lemma {:induction false} BalanceBlockersAppend(bs: seq<Balance>, b: Balance)
    ensures BalanceBlockers(bs + [b]) == BalanceBlockers(bs) + LineBlockers(b)
  {
    if bs == [] {
      assert bs + [b] == [b];
      assert [b][1..] == [];
    } else {
      assert (bs + [b])[1..] == bs[1..] + [b];
      BalanceBlockersAppend(bs[1..], b);
    }
  }

  lemma NextBlockers(bs: seq<Balance>, i: nat)
    requires i < |bs|
    ensures BalanceBlockers(bs[..i + 1]) == BalanceBlockers(bs[..i]) + LineBlockers(bs[i])
  {
    assert bs[..i + 1] == bs[..i] + [bs[i]];
    BalanceBlockersAppend(bs[..i], bs[i]);
  }

  method BuildCleanupPlan(account: Account) returns (r: Result<Plan, string>)
    ensures r == PlanOf(account)
  {
    if account.paginationIncomplete {
      return Failure("trustline pagination is incomplete");
    }
    var spendable := SpendableBalance(account);
    var required := CalculateRequiredFee(account);
    if spendable < required {
      return Success(Insufficient(spendable, required));
    }
    var blockers: seq<Blocker> := [];
    for i := 0 to |account.balances|
      invariant blockers == BalanceBlockers(account.balances[..i])
    {
      var balance := account.balances[i];
      NextBlockers(account.balances, i);
      if !IsNative(balance.asset) {
        if balance.balance.stroops > 0 {
          blockers := blockers + [HoldsBalance(balance.asset, balance.balance)];
        }
        blockers := blockers + [HoldsTrustline(balance.asset)];
      }
    }
    assert account.balances[..|account.balances|] == account.balances;
    if account.openOffers > 0 {
      blockers := blockers + [HasOffers(account.openOffers)];
    }
    ghost var before := blockers;
    for i := 0 to |account.dataKeys|
      invariant blockers == before + DataBlockers(account.dataKeys)[..i]
    {
      blockers := blockers + [HasData(account.dataKeys[i])];
    }
    assert blockers == Blockers(account);
    var cleanupOps := CountOps(account);
    var estimate := CeilDiv(cleanupOps, OPS_PER_TX) + 1;
    return Success(Plan(blockers, if blockers == [] then 1 else estimate, blockers == []));
  }

  // ---- Planner and builder ----

  lemma {:induction false} BalanceCounts(bs: seq<Balance>, destination: string)
    requires forall i :: 0 <= i < |bs| ==> Resolvable(bs[i].asset)
    ensures |BalanceOps(bs, destination)| == OpsForBalances(bs) == |BalanceBlockers(bs)|
  {
    if bs != [] {
      BalanceCounts(bs[1..], destination);
    }
  }

  lemma CountedOpsAreBuilt(account: Account, destination: string)
    requires Buildable(account) && account.openOffers == |account.offers|
    ensures |CleanupOps(account, destination)| == CountedOps(account)
    ensures Blockers(account) == [] <==> CleanupOps(account, destination) == []
  {
    BalanceCounts(account.balances, destination);
  }

  /**
   * The planner's promise and the builder's output. They agree exactly when the
   * preflight passes: an account that cannot fund its cleanup is promised no
   * transaction at all and is never ready, whatever would be built.
   */
  lemma PlannerAndBuilderAgree(account: Account, destination: string, hash: Tx -> string)
    requires Buildable(account) && account.openOffers == |account.offers| && !account.paginationIncomplete
    ensures var plan := PlanOf(account).value;
      var steps := Build(account, destination, hash).value;
      && (plan.Plan? <==> SpendableBalance(account) >= RequiredFee(account))
      && (plan.Plan? ==>
            plan.estimatedTransactions == |steps| + 1 && (plan.mergeReady <==> steps == []))
  {
    CountedOpsAreBuilt(account, destination);
    SplitIsExact(CleanupOps(account, destination), account.sequence, hash);
  }

  // ---- The preflight on the ledger ----

  lemma {:induction false} NativeIsReported(bs: seq<Balance>, native: int)
    requires forall b :: b in bs && IsNative(b.asset) ==> b.balance.stroops == native
    requires exists b :: b in bs && IsNative(b.asset)
    ensures NativeStroops(bs) == native
  {
    if IsNative(bs[0].asset) {
      assert bs[0] in bs;
    } else {
      assert forall b :: b in bs[1..] ==> b in bs;
      var b :| b in bs && IsNative(b.asset);
      assert b in bs[1..];
      NativeIsReported(bs[1..], native);
    }
  }

  lemma PreflightCountsTheLedger(account: Account, s: Source, destination: string, show: nat -> string)
    requires Reports(account, s, show)
    requires forall i :: 0 <= i < |s.lines| ==> s.lines[i].asset.Credit?
    ensures SubentriesOf(account) == Subentries(s)
    ensures NativeStroops(account.balances) == s.native
    ensures CountedOps(account) == |Program(s, destination, show)|
  {
    NativeIsReported(account.balances, s.native);
    BuilderEmitsProgram(account, s, destination, show);
    CountedOpsAreBuilt(account, destination);
  }

  /**
   * The preflight does not read what offers lock. When the spendable balance
   * covers the required fee, the whole cleanup runs exactly if there is nothing
   * to do or the native balance that offers sell leaves the first fee.
   */
  lemma PreflightRunsIff(account: Account, w: World, hash: Tx -> string, show: nat -> string)
    requires Reports(account, w.src, show)
    requires forall i :: 0 <= i < |w.src.lines| ==> w.src.lines[i].asset.Credit?
    requires DestinationReady(w) && SpendableBalance(account) >= RequiredFee(account)
    ensures Build(account, w.destId, hash).Success?
    ensures ApplyTxs(w, Build(account, w.destId, hash).value).Some? <==>
      || Ahead(w, show) == []
      || SellingLiabilities(w.src.offers, Native) <= SpendableBalance(account) - BASE_FEE * Take(Ahead(w, show))
  {
    PreflightCountsTheLedger(account, w.src, w.destId, show);
    CleanupRunsIffFunded(account, w, hash, show);
  }

  /**
   * So it is sound when no offer sells the native asset: every transaction's
   * fee is covered as the reserve falls, the whole cleanup runs, and the
   * cleaned account passes the preflight again and is ready to merge.
   */
  lemma PreflightIsSound(
      account: Account, w: World, hash: Tx -> string, show: nat -> string, cleaned: Account)
    requires Reports(account, w.src, show) && !cleaned.paginationIncomplete
    requires forall i :: 0 <= i < |w.src.lines| ==> w.src.lines[i].asset.Credit?
    requires forall o :: o in w.src.offers ==> o.selling != Native
    requires DestinationReady(w)
    requires SpendableBalance(account) >= RequiredFee(account)
    ensures Build(account, w.destId, hash).Success?
    ensures var run := ApplyTxs(w, Build(account, w.destId, hash).value);
      && run.Some?
      && (Reports(cleaned, run.value.src, show) ==>
            PlanOf(cleaned) == Success(Plan([], 1, true)))
  {
    PreflightCountsTheLedger(account, w.src, w.destId, show);
    NothingLocked(w.src.offers, Native);
    CleanupAlwaysRuns(account, w, hash, show);
    var after := ApplyTxs(w, Build(account, w.destId, hash).value).value;
    if Reports(cleaned, after.src, show) {
      BuilderEmitsProgram(account, w.src, w.destId, show);
      NothingLeftToPlan(cleaned, w, after, show);
    }
  }

  lemma {:induction false} NothingLocked(offers: seq<OpenOffer>, a: Asset)
    requires forall o :: o in offers ==> o.selling != a
    ensures SellingLiabilities(offers, a) == 0
  {
    if offers != [] {
      assert offers[0] in offers;
      NothingLocked(offers[1..], a);
    }
  }

  /** A cleaned account still has the reserve of its own subentries, and nothing is left to plan. */
  lemma NothingLeftToPlan(cleaned: Account, w: World, after: World, show: nat -> string)
    requires Reports(cleaned, after.src, show) && !cleaned.paginationIncomplete
    requires w.src.native - Reserve(w.src) >= BASE_FEE * |Ahead(w, show)|
    requires w.src.native - Reserve(w.src) >= BASE_FEE
    requires CleanedUp(w, after, CeilDiv(|Ahead(w, show)|, OPS_PER_TX), |Ahead(w, show)|)
    ensures PlanOf(cleaned) == Success(Plan([], 1, true))
  {
    PreflightCountsTheLedger(cleaned, after.src, w.destId, show);
    BuilderEmitsProgram(cleaned, after.src, w.destId, show);
    EmptyProgram(after.src, w.destId, show);
    CountedOpsAreBuilt(cleaned, w.destId);
    ProgramCost(w.src, w.destId, show);
  }

  /** Each subentry costs at most two operations to remove. */
  lemma ProgramCost(s: Source, destination: string, show: nat -> string)
    ensures |Program(s, destination, show)| <= 2 * (|s.lines| + |s.offers| + |s.data|)
  {
    LinesCost(s.lines, destination, show);
  }

  lemma {:induction false} LinesCost(lines: seq<Line>, destination: string, show: nat -> string)
    ensures |CloseAll(lines, destination, show)| <= 2 * |lines|
  {
    if lines != [] {
      LinesCost(lines[1..], destination, show);
    }
  }
}
