/**
 * When a half-finished cleanup is resumed for an account that may have changed
 * in any way (services/lifecycle-service/src/builder.ts, `resumeCleanupPlan`).
 */
module CleanupRefusals {
  import opened Wrappers
  import opened OrderedMap
  import opened Horizon
  import opened CleanupBuilder
  import opened CleanupResume

  // ---- What has changed, said of the two lists of balances ----

  /** The plan knew a trustline with this balance's key. */
  ghost predicate WasPlanned(b: Balance, planned: seq<Balance>) {
    exists p :: p in planned && !IsNative(p.asset) && KeyOf(p.asset) == KeyOf(b.asset)
  }

  /** The balance is printed as the plan had it, or as "0". */
  ghost predicate AsPlanned(b: Balance, planned: seq<Balance>) {
    || b.balance.text == "0"
    || exists p :: p in planned && !IsNative(p.asset) && KeyOf(p.asset) == KeyOf(b.asset)
         && p.balance.text == b.balance.text
  }

  ghost predicate IsNew(b: Balance, planned: seq<Balance>) {
    !IsNative(b.asset) && !WasPlanned(b, planned)
  }

  ghost predicate IsChanged(b: Balance, planned: seq<Balance>) {
    !IsNative(b.asset) && WasPlanned(b, planned) && !AsPlanned(b, planned)
  }

  /** `key` is that of the first balance in the list of which `p` holds. */
  ghost predicate FirstKey(bs: seq<Balance>, p: Balance -> bool, key: string) {
    exists i :: 0 <= i < |bs| && p(bs[i]) && KeyOf(bs[i].asset) == key && forall j :: 0 <= j < i ==> !p(bs[j])
  }

  ghost function News(planned: seq<Balance>): Balance -> bool {
    b => IsNew(b, planned)
  }

  ghost function Changes(planned: seq<Balance>): Balance -> bool {
    b => IsChanged(b, planned)
  }

  /** `key` is that of the first new trustline in the list. */
  ghost predicate FirstNewKey(bs: seq<Balance>, planned: seq<Balance>, key: string) {
    FirstKey(bs, News(planned), key)
  }

  /** `key` is that of the first changed balance in the list. */
  ghost predicate FirstChangedKey(bs: seq<Balance>, planned: seq<Balance>, key: string) {
    FirstKey(bs, Changes(planned), key)
  }

  /** No two trustlines of the list have the same key. */
  ghost predicate UniqueBalances(bs: seq<Balance>) {
    forall i, j :: 0 <= i < j < |bs| && !IsNative(bs[i].asset) && !IsNative(bs[j].asset) ==>
      KeyOf(bs[i].asset) != KeyOf(bs[j].asset)
  }

  /** The key tells assets apart, for codes without a colon. */
  lemma KeysNameAssets(r: AssetRef, q: AssetRef)
    requires Resolvable(r) && Resolvable(q) && !IsNative(r) && !IsNative(q)
    requires ':' !in r.code.value && ':' !in q.code.value
    ensures KeyOf(r) == KeyOf(q) <==> AssetOf(r) == AssetOf(q)
  {
    var a, b := r.code.value, q.code.value;
    if KeyOf(r) == KeyOf(q) {
      assert KeyOf(r)[|a|] == ':' && KeyOf(q)[|b|] == ':';
      assert |a| == |b|;
      assert a == KeyOf(r)[..|a|] && b == KeyOf(q)[..|b|];
      assert r.issuer.value == KeyOf(r)[|a| + 1..] && q.issuer.value == KeyOf(q)[|b| + 1..];
    }
  }

  // ---- The maps of the code ----

  function EntriesOf(bs: seq<Balance>): Entries<string, string> {
    seq(|bs|, i requires 0 <= i < |bs| => (KeyOf(bs[i].asset), bs[i].balance.text))
  }

  lemma {:induction false} NonNativeMembers(bs: seq<Balance>)
    ensures forall b :: b in NonNative(bs) <==> b in bs && !IsNative(b.asset)
  {
    if bs != [] {
      NonNativeMembers(bs[1..]);
      assert bs == [bs[0]] + bs[1..];
    }
  }

  lemma {:induction false} NonNativeUnique(bs: seq<Balance>)
    requires UniqueBalances(bs)
    ensures UniqueBalances(NonNative(bs))
  {
    if bs != [] {
      NonNativeUnique(bs[1..]);
      NonNativeMembers(bs[1..]);
      var rest := NonNative(bs[1..]);
      if !IsNative(bs[0].asset) {
        forall j | 0 <= j < |rest| ensures KeyOf(bs[0].asset) != KeyOf(rest[j].asset) {
          assert rest[j] in bs[1..];
        }
      }
    }
  }

  /** With distinct keys the map has every balance as an entry. */
  lemma {:induction false} MapOfUnique(bs: seq<Balance>)
    requires UniqueBalances(bs) && forall b :: b in bs ==> !IsNative(b.asset)
    ensures MapOf(bs) == EntriesOf(bs) && DistinctKeys(EntriesOf(bs))
  {
    if bs != [] {
      var last := |bs| - 1;
      MapOfUnique(bs[..last]);
      PutFresh(EntriesOf(bs[..last]), KeyOf(bs[last].asset), bs[last].balance.text);
      assert EntriesOf(bs) == EntriesOf(bs[..last]) + [(KeyOf(bs[last].asset), bs[last].balance.text)];
    }
  }

  lemma MapOfBalances(bs: seq<Balance>)
    requires UniqueBalances(bs)
    ensures MapOf(NonNative(bs)) == EntriesOf(NonNative(bs)) && DistinctKeys(EntriesOf(NonNative(bs)))
  {
    NonNativeUnique(bs);
    NonNativeMembers(bs);
    MapOfUnique(NonNative(bs));
  }

  /** Looking up a balance's key in the plan's map. */
  lemma LookedUp(b: Balance, planned: seq<Balance>)
    requires UniqueBalances(planned)
    ensures var was := Get(EntriesOf(NonNative(planned)), KeyOf(b.asset));
      && (was.Some? <==> WasPlanned(b, planned))
      && (was.Some? ==> (AsPlanned(b, planned) <==> b.balance.text == "0" || b.balance.text == was.value))
  {
    var lines := NonNative(planned);
    var m := EntriesOf(lines);
    MapOfBalances(planned);
    NonNativeMembers(planned);
    var was := Get(m, KeyOf(b.asset));
    if was.Some? {
      var i :| 0 <= i < |m| && m[i] == (KeyOf(b.asset), was.value);
      assert lines[i] in planned;
    }
    forall p | p in planned && !IsNative(p.asset) && KeyOf(p.asset) == KeyOf(b.asset)
      ensures was == Some(p.balance.text)
    {
      assert p in lines;
      var i :| 0 <= i < |lines| && lines[i] == p;
      GetDistinct(m, i);
      assert m[i] == (KeyOf(p.asset), p.balance.text);
    }
  }

  // ---- The loops of the code find the first of each kind ----

  lemma FirstHere(bs: seq<Balance>, p: Balance -> bool)
    requires bs != [] && p(bs[0])
    ensures FirstKey(bs, p, KeyOf(bs[0].asset))
  {
  }

  lemma FirstLater(bs: seq<Balance>, p: Balance -> bool, key: string)
    requires bs != [] && !p(bs[0]) && FirstKey(bs[1..], p, key)
    ensures FirstKey(bs, p, key)
  {
    var rest := bs[1..];
    var i :| 0 <= i < |rest| && p(rest[i]) && KeyOf(rest[i].asset) == key && forall j :: 0 <= j < i ==> !p(rest[j]);
    assert bs[i + 1] == rest[i];
    forall j | 0 <= j < i + 1 ensures !p(bs[j]) {
      if j > 0 { assert bs[j] == rest[j - 1]; }
    }
  }

  lemma {:induction false} FindsNew(bs: seq<Balance>, planned: seq<Balance>)
    requires UniqueBalances(planned)
    ensures var found := FirstNew(EntriesOf(NonNative(bs)), EntriesOf(NonNative(planned)));
      if found.Some? then FirstNewKey(bs, planned, found.value) else forall b :: b in bs ==> !IsNew(b, planned)
  {
    if bs != [] {
      var b, rest, m := bs[0], bs[1..], EntriesOf(NonNative(planned));
      FindsNew(rest, planned);
      LookedUp(b, planned);
      EntriesHead(bs);
      assert bs == [b] + rest;
      if IsNew(b, planned) {
        FirstHere(bs, News(planned));
      } else if FirstNew(EntriesOf(NonNative(rest)), m).Some? {
        FirstLater(bs, News(planned), FirstNew(EntriesOf(NonNative(rest)), m).value);
      }
    }
  }

  lemma {:induction false} FindsChanged(bs: seq<Balance>, planned: seq<Balance>)
    requires UniqueBalances(planned)
    ensures var found := FirstChanged(EntriesOf(NonNative(bs)), EntriesOf(NonNative(planned)));
      if found.Some? then FirstChangedKey(bs, planned, found.value) else forall b :: b in bs ==> !IsChanged(b, planned)
  {
    if bs != [] {
      var b, rest, m := bs[0], bs[1..], EntriesOf(NonNative(planned));
      FindsChanged(rest, planned);
      LookedUp(b, planned);
      EntriesHead(bs);
      assert bs == [b] + rest;
      if IsChanged(b, planned) {
        FirstHere(bs, Changes(planned));
      } else if FirstChanged(EntriesOf(NonNative(rest)), m).Some? {
        FirstLater(bs, Changes(planned), FirstChanged(EntriesOf(NonNative(rest)), m).value);
      }
    }
  }

  lemma EntriesHead(bs: seq<Balance>)
    requires bs != []
    ensures var rest := EntriesOf(NonNative(bs[1..]));
      EntriesOf(NonNative(bs))
      == if IsNative(bs[0].asset) then rest else [(KeyOf(bs[0].asset), bs[0].balance.text)] + rest
    ensures !IsNative(bs[0].asset) ==> EntriesOf(NonNative(bs))[1..] == EntriesOf(NonNative(bs[1..]))
  {
    if !IsNative(bs[0].asset) { EntriesCons(bs[0], NonNative(bs[1..])); }
  }

  lemma EntriesCons(b: Balance, rest: seq<Balance>)
    ensures EntriesOf([b] + rest) == [(KeyOf(b.asset), b.balance.text)] + EntriesOf(rest)
  {
  }

  // ---- The answer ----

  lemma RefusalNames(current: Account, tracking: Tracking)
    requires UniqueBalances(current.balances) && UniqueBalances(tracking.expected.balances)
    ensures var planned := tracking.expected.balances;
      match Refusal(current, tracking)
      case Some(UnexpectedTrustline(key)) => FirstNewKey(current.balances, planned, key)
      case Some(BalanceChanged(key)) =>
        && (forall b :: b in current.balances ==> !IsNew(b, planned))
        && FirstChangedKey(current.balances, planned, key)
      case Some(OffersIncreased) =>
        && (forall b :: b in current.balances ==> !IsNew(b, planned) && !IsChanged(b, planned))
        && current.openOffers > tracking.expected.openOffers
      case Some(_) => false
      case None =>
        && (forall b :: b in current.balances ==> !IsNew(b, planned) && !IsChanged(b, planned))
        && current.openOffers <= tracking.expected.openOffers
  {
    MapOfBalances(current.balances);
    MapOfBalances(tracking.expected.balances);
    FindsNew(current.balances, tracking.expected.balances);
    FindsChanged(current.balances, tracking.expected.balances);
  }

  /** Every trustline there is was planned, and is printed as it was or as "0"; and there are no more offers. */
  ghost predicate NothingUnexpected(current: Account, tracking: Tracking) {
    && (forall b :: b in current.balances && !IsNative(b.asset) ==>
          WasPlanned(b, tracking.expected.balances) && AsPlanned(b, tracking.expected.balances))
    && current.openOffers <= tracking.expected.openOffers
  }

  /**
   * Whatever has become of the account, with a proper prefix of the steps
   * confirmed a cleanup is resumed exactly when there is nothing unexpected and
   * every asset can be built. Otherwise a fresh plan is asked for and the reason
   * is the first new trustline, else the first changed balance, else the offers;
   * and an account that can only not be built fails as building it does.
   */
  lemma ResumedIffNothingUnexpected(current: Account, destination: string, later: Tx -> string, tracking: Tracking, k: nat)
    requires WellFormed(tracking) && ConfirmedPrefix(tracking, k) && k < tracking.totalSteps
    requires current.accountId == tracking.accountId
    requires UniqueBalances(current.balances) && UniqueBalances(tracking.expected.balances)
    ensures var answer := Resume(current, destination, later, tracking);
      var rebuilt := Build(current, destination, later);
      var planned := tracking.expected.balances;
      && ((answer.Success? && answer.value.Resumed?) <==> NothingUnexpected(current, tracking) && rebuilt.Success?)
      && (NothingUnexpected(current, tracking) ==>
            answer == if rebuilt.Success? then Success(Resumed(k, rebuilt.value, tracking.totalSteps))
                      else Failure(rebuilt.error))
      && (!NothingUnexpected(current, tracking) ==>
            && answer.Success? && answer.value.FreshPlanRequired?
            && match answer.value.reason
               case UnexpectedTrustline(key) => FirstNewKey(current.balances, planned, key)
               case BalanceChanged(key) =>
                 && (forall b :: b in current.balances ==> !IsNew(b, planned))
                 && FirstChangedKey(current.balances, planned, key)
               case OffersIncreased =>
                 && (forall b :: b in current.balances ==> !IsNew(b, planned) && !IsChanged(b, planned))
                 && current.openOffers > tracking.expected.openOffers
               case _ => false)
  {
    GapFreeIsPrefix(tracking, k);
    RefusalNames(current, tracking);
    assert Refusal(current, tracking).None? <==> NothingUnexpected(current, tracking);
  }

  /** The confirmed indices ascend and are those of the confirmed steps. */
  ghost predicate ListsConfirmed(c: seq<int>, steps: seq<StepConfirmation>, base: int) {
    && (forall i, j :: 0 <= i < j < |c| ==> c[i] < c[j])
    && (forall x :: x in c ==> base <= x < base + |steps| && steps[x - base].confirmed)
    && (forall i :: 0 <= i < |steps| && steps[i].confirmed ==> base + i in c)
  }

  lemma ListsConfirmedCons(c: seq<int>, first: StepConfirmation, rest: seq<StepConfirmation>, base: int)
    requires ListsConfirmed(c, rest, base + 1)
    ensures ListsConfirmed((if first.confirmed then [base] else []) + c, [first] + rest, base)
  {
    var steps, all := [first] + rest, (if first.confirmed then [base] else []) + c;
    forall x | x in all ensures base <= x < base + |steps| && steps[x - base].confirmed {
      if x in c { assert steps[x - base] == rest[x - base - 1]; }
    }
    forall i | 0 <= i < |steps| && steps[i].confirmed ensures base + i in all {
      if i > 0 { assert steps[i] == rest[i - 1] && base + 1 + (i - 1) in c; }
    }
    forall i, j | 0 <= i < j < |all| ensures all[i] < all[j] {
      assert all[j] in c;
    }
  }

  lemma {:induction false} IndicesListConfirmed(steps: seq<StepConfirmation>, base: int)
    requires forall i :: 0 <= i < |steps| ==> steps[i].stepIndex == base + i
    ensures ListsConfirmed(ConfirmedIndices(steps), steps, base)
  {
    if steps != [] {
      forall i | 0 <= i < |steps[1..]| ensures steps[1..][i].stepIndex == base + 1 + i {
        assert steps[1..][i] == steps[i + 1];
      }
      IndicesListConfirmed(steps[1..], base + 1);
      ListsConfirmedCons(ConfirmedIndices(steps[1..]), steps[0], steps[1..], base);
      assert steps == [steps[0]] + steps[1..];
    }
  }

  /** Where the confirmed indices first stop counting up, the step of that index is not confirmed. */
  lemma GapIsUnconfirmed(c: seq<int>, steps: seq<StepConfirmation>, gap: nat)
    requires ListsConfirmed(c, steps, 0) && gap < |c| && c[gap] != gap
    requires forall i :: 0 <= i < gap ==> c[i] == i
    ensures gap < |steps| && !steps[gap].confirmed
    ensures forall i :: 0 <= i < gap ==> steps[i].confirmed
  {
    assert c[gap] in c;
    if gap > 0 { assert c[gap - 1] == gap - 1; }
    if gap in c {
      var j :| 0 <= j < |c| && c[j] == gap;
      assert j > gap && c[gap] < c[j];
    }
    assert gap !in c;
    forall i | 0 <= i < gap ensures steps[i].confirmed {
      assert c[i] in c;
    }
  }

  lemma {:induction false} FirstGapCounts(s: seq<int>, from: nat)
    requires from <= |s| && FirstGap(s, from).Some?
    ensures var gap := FirstGap(s, from).value;
      from <= gap < |s| && s[gap] != gap && forall i :: from <= i < gap ==> s[i] == i
    decreases |s| - from
  {
    if s[from] == from { FirstGapCounts(s, from + 1); }
  }

  /** And for any record: another account, a gap before a confirmed step, or all steps confirmed, decide first. */
  lemma OtherAnswers(current: Account, destination: string, later: Tx -> string, tracking: Tracking)
    requires WellFormed(tracking)
    ensures var answer := Resume(current, destination, later, tracking);
      && (answer == Success(FreshPlanRequired(AccountMismatch)) <==> current.accountId != tracking.accountId)
      && (current.accountId == tracking.accountId && ConfirmedPrefix(tracking, tracking.totalSteps) ==>
            answer == Success(Completed))
      && (current.accountId == tracking.accountId && (forall k :: !ConfirmedPrefix(tracking, k)) ==>
            answer.Success? && answer.value.FreshPlanRequired? && answer.value.reason.NonContiguous?
            && var gap := answer.value.reason.step;
               && gap < |tracking.steps| && !tracking.steps[gap].confirmed
               && forall i :: 0 <= i < gap ==> tracking.steps[i].confirmed)
  {
    var confirmed := SortInts(ConfirmedIndices(tracking.steps));
    GapFreeIsPrefix(tracking, |confirmed|);
    ResumesOnlyFromProperPrefix(current, destination, later, tracking);
    if current.accountId == tracking.accountId && FirstGap(confirmed, 0).Some? {
      ConfirmedAscend(tracking.steps, 0);
      IndicesListConfirmed(tracking.steps, 0);
      FirstGapCounts(confirmed, 0);
      GapIsUnconfirmed(confirmed, tracking.steps, FirstGap(confirmed, 0).value);
    }
  }
}
