/** What a cleanup plan says of any account, in numbers and by membership. */
module CleanupPlans {
  import opened Wrappers
  import opened Horizon
  import opened CleanupBuilder
  import opened Ledger
  import opened CleanupPlanner

  /** The balances that are trustlines. */
  ghost function Trustlines(bs: seq<Balance>): set<nat> {
    set i: nat | i < |bs| && bs[i].asset.assetType != "native"
  }

  /** The trustlines that still hold something. */
  ghost function Holding(bs: seq<Balance>): set<nat> {
    set i: nat | i < |bs| && bs[i].asset.assetType != "native" && bs[i].balance.stroops > 0
  }

  /** The first native balance of the list, or nothing when there is none. */
  ghost predicate FirstNative(bs: seq<Balance>, native: int) {
    || (native == 0 && forall i :: 0 <= i < |bs| ==> bs[i].asset.assetType != "native")
    || (exists i :: 0 <= i < |bs| && bs[i].asset.assetType == "native" && native == bs[i].balance.stroops
          && forall j :: 0 <= j < i ==> bs[j].asset.assetType != "native")
  }

  lemma {:induction false} NativeIsFirst(bs: seq<Balance>, native: int)
    requires FirstNative(bs, native)
    ensures NativeStroops(bs) == native
  {
    if bs != [] && !IsNative(bs[0].asset) {
      if i :| 0 <= i < |bs| && bs[i].asset.assetType == "native" {
        var first :| 0 <= first < |bs| && bs[first].asset.assetType == "native" && native == bs[first].balance.stroops
          && forall j :: 0 <= j < first ==> bs[j].asset.assetType != "native";
        assert bs[1..][first - 1] == bs[first];
      }
      NativeIsFirst(bs[1..], native);
    }
  }

  lemma TrustlinesGrow(bs: seq<Balance>, b: Balance)
    ensures Trustlines(bs + [b]) == if b.asset.assetType == "native" then Trustlines(bs) else Trustlines(bs) + {|bs|}
  {
    var all := bs + [b];
    forall i: nat ensures i in Trustlines(all) <==> i in Trustlines(bs) || (i == |bs| && b.asset.assetType != "native") {
      if i < |bs| { assert all[i] == bs[i]; }
    }
  }

  lemma HoldingGrows(bs: seq<Balance>, b: Balance)
    ensures Holding(bs + [b])
         == if b.asset.assetType == "native" || b.balance.stroops <= 0 then Holding(bs) else Holding(bs) + {|bs|}
  {
    var all := bs + [b];
    forall i: nat ensures i in Holding(all) <==> i in Holding(bs) || (i == |bs| && i in Holding(all)) {
      if i < |bs| { assert all[i] == bs[i]; }
    }
  }

  lemma {:induction false} CountsAreSizes(bs: seq<Balance>)
    ensures |NonNative(bs)| == |Trustlines(bs)|
    ensures OpsForBalances(bs) == |Trustlines(bs)| + |Holding(bs)| == |BalanceBlockers(bs)|
    decreases |bs|
  {
    if bs == [] {
      assert Trustlines(bs) == {} && Holding(bs) == {};
    } else {
      var n := |bs| - 1;
      var most, b := bs[..n], bs[n];
      assert bs == most + [b];
      CountsAreSizes(most);
      TrustlinesGrow(most, b);
      HoldingGrows(most, b);
      NonNativeAppend(most, b);
      OpsForBalancesAppend(most, b);
      BalanceBlockersAppend(most, b);
    }
  }

  /** How many operations the cleanup of an account takes. */
  ghost function OpCount(account: Account): nat {
    |Trustlines(account.balances)| + |Holding(account.balances)| + account.openOffers + |account.dataKeys|
  }

  /** The reserve of half a lumen for each entry and two more. */
  ghost function ReserveOf(account: Account): nat {
    var subentries := if account.subentryCount.Some? then account.subentryCount.value
                      else |Trustlines(account.balances)| + account.openOffers + |account.dataKeys|;
    (2 + subentries) * 5_000_000
  }

  ghost function FeeOf(account: Account): nat {
    if OpCount(account) == 0 then 100 else 100 * OpCount(account)
  }

  /** The refusal, the two amounts of the preflight, and the promise, for every account. */
  lemma PlanIff(account: Account, native: int)
    requires FirstNative(account.balances, native)
    ensures PlanOf(account).Failure? <==> account.paginationIncomplete
    ensures !account.paginationIncomplete ==>
      var plan, above := PlanOf(account).value, native - ReserveOf(account);
      && (plan.Plan? <==> above >= FeeOf(account))
      && (plan.Insufficient? ==>
            plan.required == FeeOf(account) && plan.spendable == if above > 0 then above else 0)
      && (plan.Plan? ==> Promises(plan, OpCount(account)))
  {
    NativeIsFirst(account.balances, native);
    CountsAreSizes(account.balances);
  }

  /** One transaction for the merge when nothing stands in its way, else that and as many as are filled at a hundred operations each. */
  ghost predicate Promises(plan: Plan, ops: nat)
    requires plan.Plan?
  {
    && (plan.mergeReady <==> plan.blockers == [])
    && (plan.mergeReady <==> ops == 0)
    && (ops == 0 ==> plan.estimatedTransactions == 1)
    && (ops > 0 ==> 100 * (plan.estimatedTransactions - 2) < ops <= 100 * (plan.estimatedTransactions - 1))
  }

  /** What a blocker says has to be so of the account. */
  ghost predicate Blocks(account: Account, b: Blocker) {
    match b
    case HoldsBalance(asset, balance) =>
      Balance(asset, balance) in account.balances && asset.assetType != "native" && balance.stroops > 0
    case HasOffers(count) => count == account.openOffers && count > 0
    case HasData(name) => name in account.dataKeys
    case HoldsTrustline(asset) =>
      asset.assetType != "native" && exists held :: held in account.balances && held.asset == asset
  }

  lemma {:induction false} LineBlocks(bs: seq<Balance>, b: Blocker)
    ensures b in BalanceBlockers(bs) <==> exists i :: 0 <= i < |bs| && b in LineBlockers(bs[i])
  {
    if bs != [] {
      LineBlocks(bs[1..], b);
      if i :| 0 <= i < |bs| && b in LineBlockers(bs[i]) && i > 0 {
        assert bs[1..][i - 1] == bs[i];
      }
    }
  }

  /** A plan lists everything that blocks the merge and nothing else: each trustline and what it holds, the offers, each data entry. */
  lemma BlockersIff(account: Account, b: Blocker)
    requires PlanOf(account).Success? && PlanOf(account).value.Plan?
    ensures b in PlanOf(account).value.blockers <==> Blocks(account, b)
    ensures |PlanOf(account).value.blockers|
         == OpCount(account) - account.openOffers + if account.openOffers > 0 then 1 else 0
  {
    CountsAreSizes(account.balances);
    LineBlocks(account.balances, b);
    if b.HoldsBalance? || b.HoldsTrustline? {
      LinesBlock(account.balances, b);
    }
    DataBlocks(account.dataKeys, b);
    assert b in PlanOf(account).value.blockers <==>
      || b in BalanceBlockers(account.balances)
      || (account.openOffers > 0 && b == HasOffers(account.openOffers))
      || b in DataBlockers(account.dataKeys);
  }

  lemma DataBlocks(keys: seq<string>, b: Blocker)
    ensures b in DataBlockers(keys) <==> b.HasData? && b.name in keys
  {
    if b.HasData? && b.name in keys {
      var i :| 0 <= i < |keys| && keys[i] == b.name;
      assert DataBlockers(keys)[i] == b;
    }
  }

  lemma LinesBlock(bs: seq<Balance>, b: Blocker)
    requires b.HoldsBalance? || b.HoldsTrustline?
    ensures (exists i :: 0 <= i < |bs| && b in LineBlockers(bs[i])) <==>
      && b.asset.assetType != "native"
      && exists held :: held in bs && held.asset == b.asset
           && (b.HoldsBalance? ==> held.balance == b.balance && b.balance.stroops > 0)
  {
    if held :|
      held in bs && held.asset == b.asset && b.asset.assetType != "native"
      && (b.HoldsBalance? ==> held.balance == b.balance && b.balance.stroops > 0) {
      var i :| 0 <= i < |bs| && bs[i] == held;
      assert b in LineBlockers(bs[i]);
    }
  }
}
