/**
 * The account as the Horizon reader reports it to the lifecycle service
 * (services/lifecycle-service/src/horizon.ts), and the classic assets and
 * operations the transaction builder works with.
 */
module Horizon {
  import opened Wrappers

  const NATIVE := "native"

  /** A decimal string together with its value in units of 10^-7. */
  datatype Decimal = Decimal(text: string, stroops: int)

  datatype AssetRef = AssetRef(assetType: string, code: Option<string>, issuer: Option<string>)

  datatype Balance = Balance(asset: AssetRef, balance: Decimal)

  datatype Offer = Offer(id: string, selling: AssetRef, buying: AssetRef, price: string)

  datatype Account = Account(
    accountId: string,
    sequence: int,
    subentryCount: Option<nat>,
    balances: seq<Balance>,
    dataKeys: seq<string>,
    offers: seq<Offer>,
    openOffers: nat,
    paginationIncomplete: bool)

  datatype Asset = Native | Credit(code: string, issuer: string)

  datatype Op =
    | CancelOffer(selling: Asset, buying: Asset, price: string, id: string)
    | Payment(destination: string, asset: Asset, amount: Decimal)
    | RemoveTrustline(asset: Asset)
    | DeleteData(name: string)

  predicate IsNative(r: AssetRef) { r.assetType == NATIVE }

  /** An asset can be built when it is native or names a code and an issuer. */
  predicate Resolvable(r: AssetRef) {
    IsNative(r) || (r.code.Some? && r.code.value != "" && r.issuer.Some? && r.issuer.value != "")
  }

  function AssetOf(r: AssetRef): Asset
    requires Resolvable(r)
  {
    if IsNative(r) then Native else Credit(r.code.value, r.issuer.value)
  }

  /** The balances that are trustlines, in the reported order. */
  function NonNative(bs: seq<Balance>): seq<Balance> {
    if bs == [] then []
    else if IsNative(bs[0].asset) then NonNative(bs[1..])
    else [bs[0]] + NonNative(bs[1..])
  }

  lemma {:induction false} NonNativeAppend(bs: seq<Balance>, b: Balance)
    ensures NonNative(bs + [b]) == NonNative(bs) + (if IsNative(b.asset) then [] else [b])
  {
    if bs == [] {
      assert bs + [b] == [b];
      assert [b][1..] == [];
    } else {
      assert (bs + [b])[1..] == bs[1..] + [b];
      NonNativeAppend(bs[1..], b);
    }
  }
}
