/**
 * The part of the Stellar ledger that a cleanup touches: one account being
 * emptied, and the trustlines of the account that receives its assets.
 */
module Ledger {
  import opened Wrappers
  import opened Sequences
  import opened Horizon
  import opened CleanupBuilder

  const BASE_RESERVE: nat := 5_000_000
  const BASE_FEE: nat := 100

  datatype Line = Line(asset: Asset, balance: nat)

  /** An open offer locks `amount` of what it sells and reserves room for `wants` of what it buys. */
  datatype OpenOffer = OpenOffer(id: string, selling: Asset, buying: Asset, price: string, amount: nat, wants: nat)

  datatype Source = Source(
    id: string,
    sequence: int,
    native: int,
    lines: seq<Line>,
    offers: seq<OpenOffer>,
    data: seq<string>,
    otherSubentries: nat)

  /** A trustline of the destination: what it holds and how much more it can take. */
  datatype DestLine = DestLine(balance: nat, room: nat)

  datatype World = World(src: Source, destId: string, dest: map<Asset, DestLine>)

  function SellingLiabilities(offers: seq<OpenOffer>, a: Asset): nat {
    if offers == [] then 0
    else (if offers[0].selling == a then offers[0].amount else 0) + SellingLiabilities(offers[1..], a)
  }

  function BuyingLiabilities(offers: seq<OpenOffer>, a: Asset): nat {
    if offers == [] then 0
    else (if offers[0].buying == a then offers[0].wants else 0) + BuyingLiabilities(offers[1..], a)
  }

  function Held(lines: seq<Line>, a: Asset): nat {
    if lines == [] then 0
    else (if lines[0].asset == a then lines[0].balance else 0) + Held(lines[1..], a)
  }

  function Subentries(s: Source): nat {
    |s.lines| + |s.offers| + |s.data| + s.otherSubentries
  }

  function Reserve(s: Source): nat {
    (2 + Subentries(s)) * BASE_RESERVE
  }

  function FindLine(lines: seq<Line>, a: Asset): (i: nat)
    ensures i <= |lines|
    ensures i < |lines| ==> lines[i].asset == a
  {
    if lines == [] || lines[0].asset == a then 0 else 1 + FindLine(lines[1..], a)
  }

  function FindOffer(offers: seq<OpenOffer>, id: string): (i: nat)
    ensures i <= |offers|
    ensures i < |offers| ==> offers[i].id == id
  {
    if offers == [] || offers[0].id == id then 0 else 1 + FindOffer(offers[1..], id)
  }

  function FindData(data: seq<string>, name: string): (i: nat)
    ensures i <= |data|
    ensures i < |data| ==> data[i] == name
  {
    if data == [] || data[0] == name then 0 else 1 + FindData(data[1..], name)
  }

  /** One operation; `None` when the ledger would refuse it. */
  function ApplyOp(w: World, op: Op): Option<World> {
    match op
    case CancelOffer(selling, buying, price, id) =>
      var i := FindOffer(w.src.offers, id);
      if i < |w.src.offers| && w.src.offers[i].selling == selling && w.src.offers[i].buying == buying
      then Some(w.(src := w.src.(offers := Without(w.src.offers, i))))
      else None
    case Payment(destination, asset, amount) =>
      var i := FindLine(w.src.lines, asset);
      if && destination == w.destId
         && amount.stroops > 0
         && i < |w.src.lines|
         && w.src.lines[i].balance - SellingLiabilities(w.src.offers, asset) >= amount.stroops
         && asset in w.dest
         && w.dest[asset].room >= amount.stroops
      then
        var line := w.src.lines[i];
        var there := w.dest[asset];
        Some(w.(src := w.src.(lines := w.src.lines[i := line.(balance := line.balance - amount.stroops)]),
                dest := w.dest[asset := DestLine(there.balance + amount.stroops, there.room - amount.stroops)]))
      else None
    case RemoveTrustline(asset) =>
      var i := FindLine(w.src.lines, asset);
      if && i < |w.src.lines|
         && w.src.lines[i].balance == 0
         && SellingLiabilities(w.src.offers, asset) == 0
         && BuyingLiabilities(w.src.offers, asset) == 0
      then Some(w.(src := w.src.(lines := Without(w.src.lines, i))))
      else None
    case DeleteData(name) =>
      var i := FindData(w.src.data, name);
      if i < |w.src.data| then Some(w.(src := w.src.(data := Without(w.src.data, i)))) else None
  }

  function ApplyOps(w: World, ops: seq<Op>): Option<World>
    decreases |ops|
  {
    if ops == [] then Some(w)
    else
      var next := ApplyOp(w, ops[0]);
      if next.None? then None else ApplyOps(next.value, ops[1..])
  }

  /** What the account may spend: not its reserve, and nothing an offer has locked. */
  function Spendable(s: Source): int {
    s.native - Reserve(s) - SellingLiabilities(s.offers, Native)
  }

  /** A whole transaction: in sequence, within the size limit, its fee covered, every operation successful. */
  function ApplyTx(w: World, tx: Tx): Option<World> {
    var fee := BASE_FEE * |tx.ops|;
    if tx.sequence == w.src.sequence + 1 && 0 < |tx.ops| <= OPS_PER_TX && Spendable(w.src) >= fee
    then ApplyOps(w.(src := w.src.(sequence := tx.sequence, native := w.src.native - fee)), tx.ops)
    else None
  }

  function ApplyTxs(w: World, steps: seq<CleanupStep>): Option<World>
    decreases |steps|
  {
    if steps == [] then Some(w)
    else
      var next := ApplyTx(w, steps[0].tx);
      if next.None? then None else ApplyTxs(next.value, steps[1..])
  }

  // ---- Snapshots ----

  ghost predicate RefersTo(r: AssetRef, a: Asset) {
    Resolvable(r) && AssetOf(r) == a
  }

  /**
   * `account` is what the reader reports of ledger account `s`, where `show` is
   * how a balance is printed. The native balance may stand anywhere in the list.
   */
  ghost predicate Reports(account: Account, s: Source, show: nat -> string) {
    && account.accountId == s.id
    && account.sequence == s.sequence
    && account.dataKeys == s.data
    && account.openOffers == |account.offers| == |s.offers|
    && (forall i :: 0 <= i < |s.offers| ==>
          && account.offers[i].id == s.offers[i].id
          && account.offers[i].price == s.offers[i].price
          && RefersTo(account.offers[i].selling, s.offers[i].selling)
          && RefersTo(account.offers[i].buying, s.offers[i].buying))
    && (forall b :: b in account.balances && IsNative(b.asset) ==> b.balance.stroops == s.native)
    && (exists b :: b in account.balances && IsNative(b.asset))
    && ReportsLines(NonNative(account.balances), s.lines, show)
    && (account.subentryCount.Some? ==> account.subentryCount.value == Subentries(s))
    && (account.subentryCount.None? ==> s.otherSubentries == 0)
  }

  ghost predicate ReportsLines(bs: seq<Balance>, lines: seq<Line>, show: nat -> string) {
    && |bs| == |lines|
    && (forall i :: 0 <= i < |bs| ==>
          && RefersTo(bs[i].asset, lines[i].asset)
          && bs[i].balance == Decimal(show(lines[i].balance), lines[i].balance))
  }
}
