/**
 * Resuming a half-finished cleanup
 * (services/lifecycle-service/src/builder.ts, `resumeCleanupPlan`).
 */
module CleanupResume {
  import opened Wrappers
  import opened OrderedMap
  import opened Horizon
  import opened CleanupBuilder
  import opened Ledger
  import opened CleanupProgress
  import opened CleanupRuns

  datatype FreshReason =
    | AccountMismatch
    | NonContiguous(step: nat)
    | UnexpectedTrustline(key: string)
    | BalanceChanged(key: string)
    | OffersIncreased

  datatype ResumeResult =
    | Resumed(resumedFromStep: nat, remainingSteps: seq<CleanupStep>, totalSteps: nat)
    | Completed
    | FreshPlanRequired(reason: FreshReason)

  // ---- The confirmed steps, in order ----

  function ConfirmedIndices(steps: seq<StepConfirmation>): seq<int> {
    if steps == [] then []
    else (if steps[0].confirmed then [steps[0].stepIndex] else []) + ConfirmedIndices(steps[1..])
  }

  function InsertSorted(x: int, s: seq<int>): seq<int> {
    if s == [] || x <= s[0] then [x] + s else [s[0]] + InsertSorted(x, s[1..])
  }

  function SortInts(s: seq<int>): (r: seq<int>)
    ensures |r| == |s|
  {
    if s == [] then [] else
      InsertedLength(s[0], SortInts(s[1..]));
      InsertSorted(s[0], SortInts(s[1..]))
  }

  lemma InsertedLength(x: int, s: seq<int>)
    ensures |InsertSorted(x, s)| == |s| + 1
  {
  }

  /** The first position that does not hold its own index. */
  function FirstGap(s: seq<int>, from: nat): Option<nat>
    requires from <= |s|
    decreases |s| - from
  {
    if from == |s| then None else if s[from] != from then Some(from) else FirstGap(s, from + 1)
  }

  // ---- The balances by asset key ----

  function KeyOf(r: AssetRef): string {
    (if r.code.Some? then r.code.value else "undefined") + ":"
    + (if r.issuer.Some? then r.issuer.value else "undefined")
  }

  function MapOf(bs: seq<Balance>): Entries<string, string> {
    if bs == [] then []
    else Put(MapOf(bs[..|bs| - 1]), KeyOf(bs[|bs| - 1].asset), bs[|bs| - 1].balance.text)
  }

  method BalanceMap(bs: seq<Balance>) returns (m: Entries<string, string>)
    ensures m == MapOf(NonNative(bs))
  {
    m := [];
    for i := 0 to |bs|
      invariant m == MapOf(NonNative(bs[..i]))
    {
      assert bs[..i + 1] == bs[..i] + [bs[i]];
      NonNativeAppend(bs[..i], bs[i]);
      assert NonNative(bs[..i]) + [] == NonNative(bs[..i]);
      if !IsNative(bs[i].asset) {
        ghost var grown := NonNative(bs[..i]) + [bs[i]];
        assert grown[..|grown| - 1] == NonNative(bs[..i]);
        assert grown[|grown| - 1] == bs[i] && grown != [];
        assert NonNative(bs[..i + 1]) == grown;
        m := Put(m, KeyOf(bs[i].asset), bs[i].balance.text);
      }
    }
    assert bs[..|bs|] == bs;
  }

  function FirstNew(current: Entries<string, string>, original: Entries<string, string>): Option<string> {
    if current == [] then None
    else if Get(original, current[0].0).None? then Some(current[0].0)
    else FirstNew(current[1..], original)
  }

  /** A balance may only be what it was, or the text "0". */
  predicate Differs(entry: (string, string), original: Entries<string, string>) {
    var was := Get(original, entry.0);
    was.Some? && entry.1 != was.value && entry.1 != "0"
  }

  function FirstChanged(current: Entries<string, string>, original: Entries<string, string>): Option<string> {
    if current == [] then None
    else if Differs(current[0], original) then Some(current[0].0)
    else FirstChanged(current[1..], original)
  }

  // ---- The decision ----

  function Refusal(current: Account, tracking: Tracking): Option<FreshReason> {
    var now := MapOf(NonNative(current.balances));
    var planned := MapOf(NonNative(tracking.expected.balances));
    if FirstNew(now, planned).Some? then Some(UnexpectedTrustline(FirstNew(now, planned).value))
    else if FirstChanged(now, planned).Some? then Some(BalanceChanged(FirstChanged(now, planned).value))
    else if current.openOffers > tracking.expected.openOffers then Some(OffersIncreased)
    else None
  }

  function Resume(current: Account, destination: string, hash: Tx -> string, tracking: Tracking)
    : Result<ResumeResult, string>
  {
    var confirmed := SortInts(ConfirmedIndices(tracking.steps));
    if current.accountId != tracking.accountId then Success(FreshPlanRequired(AccountMismatch))
    else if |confirmed| == tracking.totalSteps then Success(Completed)
    else if FirstGap(confirmed, 0).Some? then Success(FreshPlanRequired(NonContiguous(FirstGap(confirmed, 0).value)))
    else
      var refusal := Refusal(current, tracking);
      if refusal.Some? then Success(FreshPlanRequired(refusal.value))
      else
        var rebuilt := Build(current, destination, hash);
        if rebuilt.Failure? then Failure(rebuilt.error)
        else Success(Resumed(|confirmed|, rebuilt.value, tracking.totalSteps))
  }

  method ResumeCleanupPlan(current: Account, destination: string, hash: Tx -> string, tracking: Tracking)
    returns (r: Result<ResumeResult, string>)
    ensures r == Resume(current, destination, hash, tracking)
  {
    if current.accountId != tracking.accountId {
      return Success(FreshPlanRequired(AccountMismatch));
    }
    var confirmed := SortInts(ConfirmedIndices(tracking.steps));
    if |confirmed| == tracking.totalSteps {
      return Success(Completed);
    }
    for i := 0 to |confirmed|
      invariant FirstGap(confirmed, 0) == FirstGap(confirmed, i)
    {
      if confirmed[i] != i {
        return Success(FreshPlanRequired(NonContiguous(i)));
      }
    }
    var planned := BalanceMap(tracking.expected.balances);
    var now := BalanceMap(current.balances);
    for i := 0 to |now|
      invariant FirstNew(now, planned) == FirstNew(now[i..], planned)
    {
      if Get(planned, now[i].0).None? {
        return Success(FreshPlanRequired(UnexpectedTrustline(now[i].0)));
      }
    }
    for i := 0 to |now|
      invariant FirstChanged(now, planned) == FirstChanged(now[i..], planned)
    {
      var was := Get(planned, now[i].0);
      if was.Some? && now[i].1 != was.value && now[i].1 != "0" {
        return Success(FreshPlanRequired(BalanceChanged(now[i].0)));
      }
    }
    if current.openOffers > tracking.expected.openOffers {
      return Success(FreshPlanRequired(OffersIncreased));
    }
    var remaining := BuildCleanupSteps(current, destination, hash);
    if remaining.Failure? {
      return Failure(remaining.error);
    }
    return Success(Resumed(|confirmed|, remaining.value, tracking.totalSteps));
  }

  // ---- Only a proper prefix resumes ----

  /** The confirmed indices of a well-formed record ascend, so sorting leaves them alone. */
  lemma {:induction false} ConfirmedAscend(steps: seq<StepConfirmation>, base: int)
    requires forall i :: 0 <= i < |steps| ==> steps[i].stepIndex == base + i
    ensures SortInts(ConfirmedIndices(steps)) == ConfirmedIndices(steps)
    ensures ConfirmedIndices(steps) != [] ==> ConfirmedIndices(steps)[0] >= base
  {
    if steps != [] {
      assert forall i :: 0 <= i < |steps[1..]| ==> steps[1..][i] == steps[i + 1];
      ConfirmedAscend(steps[1..], base + 1);
      var rest := ConfirmedIndices(steps[1..]);
      if steps[0].confirmed {
        assert ConfirmedIndices(steps) == [base] + rest;
        assert ([base] + rest)[1..] == rest;
      } else {
        assert ConfirmedIndices(steps) == rest;
      }
    }
  }

  function CountUp(base: int, n: nat): (r: seq<int>)
    ensures |r| == n
    decreases n
  {
    if n == 0 then [] else [base] + CountUp(base + 1, n - 1)
  }

  lemma {:induction false} CountUpAt(base: int, n: nat)
    ensures forall i :: 0 <= i < n ==> CountUp(base, n)[i] == base + i
    decreases n
  {
    if n > 0 { CountUpAt(base + 1, n - 1); }
  }

  /** Confirmed indices count up from the first step exactly when a prefix is confirmed. */
  lemma {:induction false} CountingUpIsPrefix(steps: seq<StepConfirmation>, base: int, n: nat)
    requires forall i :: 0 <= i < |steps| ==> steps[i].stepIndex == base + i
    ensures ConfirmedIndices(steps) == CountUp(base, n) <==>
      n <= |steps| && forall i :: 0 <= i < |steps| ==> (steps[i].confirmed <==> i < n)
  {
    if steps != [] {
      var tail := steps[1..];
      var c, rest := ConfirmedIndices(steps), ConfirmedIndices(tail);
      assert forall i :: 0 <= i < |tail| ==> tail[i] == steps[i + 1];
      assert forall i :: 0 < i < |steps| ==> steps[i] == tail[i - 1];
      if steps[0].confirmed {
        assert c[0] == base && c[1..] == rest;
        if n > 0 {
          assert CountUp(base, n)[1..] == CountUp(base + 1, n - 1);
          CountingUpIsPrefix(tail, base + 1, n - 1);
        }
      } else {
        assert c == rest;
        ConfirmedAscend(tail, base + 1);
        CountingUpIsPrefix(tail, base + 1, 0);
      }
    }
  }

  lemma {:induction false} NoGap(s: seq<int>, from: nat)
    requires from <= |s|
    ensures FirstGap(s, from).None? <==> forall i :: from <= i < |s| ==> s[i] == i
    decreases |s| - from
  {
    if from < |s| { NoGap(s, from + 1); }
  }

  /** The code's check of the confirmed indices passes exactly for a prefix. */
  lemma GapFreeIsPrefix(t: Tracking, k: nat)
    requires WellFormed(t)
    ensures var confirmed := SortInts(ConfirmedIndices(t.steps));
      (FirstGap(confirmed, 0).None? && |confirmed| == k) <==> ConfirmedPrefix(t, k)
  {
    var confirmed := ConfirmedIndices(t.steps);
    ConfirmedAscend(t.steps, 0);
    NoGap(confirmed, 0);
    CountUpAt(0, k);
    CountingUpIsPrefix(t.steps, 0, k);
    if FirstGap(confirmed, 0).None? && |confirmed| == k {
      assert confirmed == CountUp(0, k);
    }
  }

  /** Whatever has happened since, a plan resumes only from a proper prefix of confirmed steps. */
  lemma ResumesOnlyFromProperPrefix(current: Account, destination: string, hash: Tx -> string, tracking: Tracking)
    requires WellFormed(tracking)
    ensures var r := Resume(current, destination, hash, tracking);
      && (r.Success? && r.value.Resumed? ==>
            r.value.resumedFromStep < tracking.totalSteps && ConfirmedPrefix(tracking, r.value.resumedFromStep))
      && (r == Success(Completed) <==>
            current.accountId == tracking.accountId && ConfirmedPrefix(tracking, tracking.totalSteps))
  {
    ConfirmedAscend(tracking.steps, 0);
    var confirmed := ConfirmedIndices(tracking.steps);
    GapFreeIsPrefix(tracking, |confirmed|);
    GapFreeIsPrefix(tracking, tracking.totalSteps);
    ConfirmedBound(tracking.steps);
    if |confirmed| == tracking.totalSteps {
      AllConfirmed(tracking.steps);
    }
  }

  lemma {:induction false} ConfirmedBound(steps: seq<StepConfirmation>)
    ensures |ConfirmedIndices(steps)| <= |steps|
  {
    if steps != [] { ConfirmedBound(steps[1..]); }
  }

  lemma {:induction false} AllConfirmed(steps: seq<StepConfirmation>)
    requires |ConfirmedIndices(steps)| == |steps|
    ensures forall i :: 0 <= i < |steps| ==> steps[i].confirmed
  {
    if steps != [] {
      ConfirmedBound(steps[1..]);
      AllConfirmed(steps[1..]);
      assert forall i :: 0 < i < |steps| ==> steps[i] == steps[1..][i - 1];
    }
  }

  // ---- Resuming equals continuing ----

  function KeyText(a: Asset): string {
    if a.Native? then NATIVE else a.code + ":" + a.issuer
  }

  ghost predicate UniqueKeys(lines: seq<Line>) {
    && (forall i :: 0 <= i < |lines| ==> lines[i].asset.Credit?)
    && (forall i, j :: 0 <= i < j < |lines| ==> KeyText(lines[i].asset) != KeyText(lines[j].asset))
  }

  function LineEntries(lines: seq<Line>, show: nat -> string): Entries<string, string> {
    seq(|lines|, i requires 0 <= i < |lines| => (KeyText(lines[i].asset), show(lines[i].balance)))
  }

  lemma {:induction false} MapOfLines(bs: seq<Balance>, lines: seq<Line>, show: nat -> string)
    requires ReportsLines(bs, lines, show) && UniqueKeys(lines)
    requires forall i :: 0 <= i < |bs| ==> !IsNative(bs[i].asset)
    ensures MapOf(bs) == LineEntries(lines, show)
  {
    if bs != [] {
      var last := |bs| - 1;
      MapOfLines(bs[..last], lines[..last], show);
      LastLineIsNew(lines, show);
      PutFresh(LineEntries(lines[..last], show), KeyText(lines[last].asset), bs[last].balance.text);
    }
  }

  lemma LastLineIsNew(lines: seq<Line>, show: nat -> string)
    requires lines != [] && UniqueKeys(lines)
    ensures var last := |lines| - 1;
      var before, key := LineEntries(lines[..last], show), KeyText(lines[last].asset);
      !Has(before, key) && LineEntries(lines, show) == before + [(key, show(lines[last].balance))]
  {
  }

  lemma {:induction false} NonNativeIsNot(bs: seq<Balance>)
    ensures forall i :: 0 <= i < |NonNative(bs)| ==> !IsNative(NonNative(bs)[i].asset)
  {
    if bs != [] { NonNativeIsNot(bs[1..]); }
  }

  lemma {:induction false} NothingNew(current: Entries<string, string>, original: Entries<string, string>)
    requires forall e :: e in current ==> Get(original, e.0).Some?
    ensures FirstNew(current, original).None?
  {
    if current != [] {
      assert current[0] in current;
      NothingNew(current[1..], original);
    }
  }

  lemma {:induction false} NothingChanged(current: Entries<string, string>, original: Entries<string, string>)
    requires forall e :: e in current ==> !Differs(e, original)
    ensures FirstChanged(current, original).None?
  {
    if current != [] {
      assert current[0] in current;
      NothingChanged(current[1..], original);
    }
  }

  /** A transaction boundary after the first `n` operations parts a payout from its trustline removal. */
  predicate SplitsPayout(program: seq<Op>, n: nat) {
    0 < n < |program| && program[n - 1].Payment?
  }

  /** The reader prints an emptied balance as something other than "0" and than what it was. */
  predicate LooksChanged(program: seq<Op>, n: nat, show: nat -> string)
    requires SplitsPayout(program, n)
  {
    show(0) != "0" && show(0) != program[n - 1].amount.text
  }

  /** The one thing a run that changed nothing else can be refused for. */
  function Objection(program: seq<Op>, n: nat, show: nat -> string): Option<FreshReason> {
    if SplitsPayout(program, n) && LooksChanged(program, n, show)
    then Some(BalanceChanged(KeyText(program[n - 1].asset))) else None
  }

  /**
   * What the code should answer `n` operations into the program, when `remaining`
   * are the transactions left: resume with them, unless it sees a changed balance.
   */
  function Answer(program: seq<Op>, n: nat, show: nat -> string, k: nat, remaining: seq<CleanupStep>, total: nat)
    : ResumeResult
  {
    var objection := Objection(program, n, show);
    if objection.Some? then FreshPlanRequired(objection.value) else Resumed(k, remaining, total)
  }

  /** The lines of a run part-way through are the last of the plan's, but for one that has been emptied. */
  lemma MidwayLines(orig: seq<Line>, s: Source, paid: bool)
    requires UniqueKeys(orig) && Midway(orig, s, paid)
    ensures |s.lines| <= |orig| && UniqueKeys(s.lines)
    ensures forall i :: 0 <= i < |s.lines| ==> s.lines[i].asset == orig[|orig| - |s.lines| + i].asset
    ensures forall i :: 0 <= i < |s.lines| && (i > 0 || !paid) ==> s.lines[i] == orig[|orig| - |s.lines| + i]
    ensures paid ==> s.lines != [] && s.lines[0].balance == 0
  {
  }

  /** The key of the emptied line of a run part-way through, if it looks changed. */
  function ChangedKey(orig: seq<Line>, lines: seq<Line>, paid: bool, show: nat -> string): Option<string>
    requires paid ==> 0 < |lines| <= |orig|
  {
    if paid && show(0) != "0" && show(0) != show(orig[|orig| - |lines|].balance)
    then Some(KeyText(lines[0].asset)) else None
  }

  /** The balance check part-way through: it objects to nothing but an emptied line that looks changed. */
  lemma MidwayRefusal(orig: seq<Line>, s: Source, paid: bool, show: nat -> string)
    requires UniqueKeys(orig) && Midway(orig, s, paid)
    ensures UniqueKeys(s.lines) && (paid ==> 0 < |s.lines| <= |orig|)
    ensures FirstNew(LineEntries(s.lines, show), LineEntries(orig, show)).None?
    ensures FirstChanged(LineEntries(s.lines, show), LineEntries(orig, show)) == ChangedKey(orig, s.lines, paid, show)
  {
    var j := |orig| - |s.lines|;
    var now, planned := LineEntries(s.lines, show), LineEntries(orig, show);
    MidwayLines(orig, s, paid);
    MidwayEntries(orig, s.lines, j, show);
    NothingNew(now, planned);
    if !paid || !Differs(now[0], planned) {
      NothingChanged(now, planned);
    }
  }

  /** Each current entry against the plan's. */
  lemma MidwayEntries(orig: seq<Line>, lines: seq<Line>, j: nat, show: nat -> string)
    requires UniqueKeys(orig) && j + |lines| == |orig|
    requires forall i :: 0 <= i < |lines| ==> lines[i].asset == orig[j + i].asset
    ensures forall i :: 0 <= i < |lines| ==>
      Get(LineEntries(orig, show), LineEntries(lines, show)[i].0) == Some(show(orig[j + i].balance))
  {
    var planned := LineEntries(orig, show);
    forall i | 0 <= i < |lines|
      ensures Get(planned, LineEntries(lines, show)[i].0) == Some(show(orig[j + i].balance))
    {
      GetDistinct(planned, j + i);
    }
  }

  /** A payment of the program moves one line's whole balance, and that line's removal follows it. */
  lemma {:induction false} PaymentThenRemoval(lines: seq<Line>, destination: string, show: nat -> string, p: nat)
      returns (line: Line)
    requires p < |CloseAll(lines, destination, show)| && CloseAll(lines, destination, show)[p].Payment?
    ensures line in lines
    ensures CloseAll(lines, destination, show)[p]
         == Payment(destination, line.asset, Decimal(show(line.balance), line.balance))
    ensures p + 1 < |CloseAll(lines, destination, show)|
    ensures CloseAll(lines, destination, show)[p + 1] == RemoveTrustline(line.asset)
  {
    var head := CloseLine(lines[0], destination, show);
    if p < |head| {
      line := lines[0];
    } else {
      line := PaymentThenRemoval(lines[1..], destination, show, p - |head|);
    }
  }

  /** What the payment just before the boundary was, when the run stands between it and the removal. */
  lemma PaidBefore(s: Source, after: Source, destination: string, show: nat -> string, n: nat)
    requires UniqueKeys(s.lines) && Midway(s.lines, after, true)
    requires 0 < n < |Program(s, destination, show)| && Program(s, destination, show)[n - 1].Payment?
    requires Program(after, destination, show) == Program(s, destination, show)[n..]
    ensures var op := Program(s, destination, show)[n - 1];
      && after.lines != []
      && op.asset == after.lines[0].asset
      && op.amount.text == show(s.lines[|s.lines| - |after.lines|].balance)
  {
    var program := Program(s, destination, show);
    assert CloseAll(s.lines, destination, show)[n - 1 - |s.offers|] == program[n - 1];
    var line := PaymentThenRemoval(s.lines, destination, show, n - 1 - |s.offers|);
    assert program[n] == RemoveTrustline(line.asset);
    assert CloseLine(after.lines[0], destination, show) == [RemoveTrustline(after.lines[0].asset)];
    assert Program(after, destination, show)[0] == program[n];
    assert line == s.lines[|s.lines| - |after.lines|];
  }

  /** `tracking` is the record of this plan with exactly its first `k` steps confirmed. */
  ghost predicate TracksPrefix(
      tracking: Tracking, account: Account, destination: string, steps: seq<CleanupStep>, k: nat)
  {
    && WellFormed(tracking)
    && tracking == CreatePlanTracking(account, destination, steps).(steps := tracking.steps)
    && ConfirmedPrefix(tracking, k)
  }

  /** `after` stands `n` operations, in `k` transactions, into the program of `w`. */
  ghost predicate StandsAt(w: World, after: World, show: nat -> string, k: nat, n: nat) {
    && n <= |Ahead(w, show)|
    && Ahead(after, show) == Ahead(w, show)[n..]
    && after.destId == w.destId
    && after.src.id == w.src.id
    && after.src.sequence == w.src.sequence + k
    && |after.src.offers| <= |w.src.offers|
    && Midway(w.src.lines, after.src, SplitsPayout(Ahead(w, show), n))
  }

  lemma RunnableStands(w: World, after: World, show: nat -> string, k: nat, n: nat)
    requires Advanced(w, after, k, n) && n <= |Ahead(w, show)|
    requires Runnable(after, show, w.src.lines, Ahead(w, show), n)
    ensures StandsAt(w, after, show, k, n)
  {
    EmptyProgram(after.src, after.destId, show);
  }

  /** Where the run stands once the first `k` transactions have been applied. */
  lemma AfterFirstTxs(w: World, steps: seq<CleanupStep>, hash: Tx -> string, show: nat -> string, k: nat)
      returns (after: World)
    requires DestinationReady(w) && Funded(w, show)
    requires steps == Split(Ahead(w, show), w.src.sequence, hash) && k <= |steps|
    ensures ApplyTxs(w, steps[..k]) == Some(after)
    ensures StandsAt(w, after, show, k, OffsetAfter(Ahead(w, show), 0, k))
  {
    after := CleanupTxsRun(w, show, hash, k);
    RunnableStands(w, after, show, k, OffsetAfter(Ahead(w, show), 0, k));
  }

  lemma ReportedBalances(account: Account, s: Source, show: nat -> string)
    requires Reports(account, s, show) && UniqueKeys(s.lines)
    ensures MapOf(NonNative(account.balances)) == LineEntries(s.lines, show)
  {
    NonNativeIsNot(account.balances);
    MapOfLines(NonNative(account.balances), s.lines, show);
  }

  lemma RefusalFrom(current: Account, tracking: Tracking, now: Entries<string, string>, planned: Entries<string, string>)
    requires MapOf(NonNative(current.balances)) == now && MapOf(NonNative(tracking.expected.balances)) == planned
    requires FirstNew(now, planned).None? && current.openOffers <= tracking.expected.openOffers
    ensures Refusal(current, tracking)
         == if FirstChanged(now, planned).Some? then Some(BalanceChanged(FirstChanged(now, planned).value)) else None
  {
  }

  /** What the code objects to, in a run that stands at `s`. */
  lemma RefusalMidway(account: Account, tracking: Tracking, orig: Source, current: Account, s: Source,
                      show: nat -> string, paid: bool)
    requires Reports(account, orig, show) && UniqueKeys(orig.lines)
    requires Reports(current, s, show) && Midway(orig.lines, s, paid) && |s.offers| <= |orig.offers|
    requires tracking.expected.balances == account.balances && tracking.expected.openOffers == account.openOffers
    ensures UniqueKeys(s.lines) && (paid ==> 0 < |s.lines| <= |orig.lines|)
    ensures var key := ChangedKey(orig.lines, s.lines, paid, show);
      Refusal(current, tracking) == if key.Some? then Some(BalanceChanged(key.value)) else None
  {
    MidwayRefusal(orig.lines, s, paid, show);
    ReportedBalances(account, orig, show);
    ReportedBalances(current, s, show);
    RefusalFrom(current, tracking, LineEntries(s.lines, show), LineEntries(orig.lines, show));
  }

  /** An emptied line that looks changed is the one whose payout the boundary parted from its removal. */
  lemma ChangedIsObjection(w: World, after: World, show: nat -> string, k: nat, n: nat)
    requires UniqueKeys(w.src.lines) && StandsAt(w, after, show, k, n)
    requires SplitsPayout(Ahead(w, show), n) ==> 0 < |after.src.lines| <= |w.src.lines|
    ensures var key := ChangedKey(w.src.lines, after.src.lines, SplitsPayout(Ahead(w, show), n), show);
      Objection(Ahead(w, show), n, show) == if key.Some? then Some(BalanceChanged(key.value)) else None
  {
    if SplitsPayout(Ahead(w, show), n) {
      PaidBefore(w.src, after.src, w.destId, show, n);
    }
  }

  lemma RefusalIsObjection(account: Account, w: World, show: nat -> string, k: nat, n: nat,
                           tracking: Tracking, current: Account, after: World)
    requires Reports(account, w.src, show) && UniqueKeys(w.src.lines)
    requires tracking.expected.balances == account.balances && tracking.expected.openOffers == account.openOffers
    requires StandsAt(w, after, show, k, n) && Reports(current, after.src, show)
    ensures UniqueKeys(after.src.lines)
    ensures Refusal(current, tracking) == Objection(Ahead(w, show), n, show)
  {
    RefusalMidway(account, tracking, w.src, current, after.src, show, SplitsPayout(Ahead(w, show), n));
    ChangedIsObjection(w, after, show, k, n);
  }

  /** Resuming a record with the first `k` steps confirmed: what is refused, or what is built now. */
  lemma ResumeDecides(account: Account, destination: string, later: Tx -> string, k: nat, tracking: Tracking,
                      current: Account, steps: seq<CleanupStep>)
    requires TracksPrefix(tracking, account, destination, steps, k) && k < |steps|
    requires current.accountId == account.accountId && Build(current, destination, later).Success?
    ensures Resume(current, destination, later, tracking)
         == Success(if Refusal(current, tracking).Some? then FreshPlanRequired(Refusal(current, tracking).value)
                    else Resumed(k, Build(current, destination, later).value, |steps|))
  {
    GapFreeIsPrefix(tracking, k);
  }

  /** The code's answer when the ledger stands `n` operations, in `j` transactions, into the program. */
  lemma ResumeMidway(account: Account, w: World, later: Tx -> string, show: nat -> string, k: nat, j: nat, n: nat,
                     tracking: Tracking, current: Account, after: World, steps: seq<CleanupStep>,
                     left: seq<CleanupStep>)
    requires Reports(account, w.src, show) && UniqueKeys(w.src.lines)
    requires TracksPrefix(tracking, account, w.destId, steps, k) && k < |steps|
    requires StandsAt(w, after, show, j, n)
    requires Reports(current, after.src, show)
    requires left == Split(Ahead(w, show)[n..], w.src.sequence + j, later)
    ensures Resume(current, w.destId, later, tracking)
         == Success(Answer(Ahead(w, show), n, show, k, left, |steps|))
  {
    RefusalIsObjection(account, w, show, j, n, tracking, current, after);
    BuildsWhatIsAhead(current, after, later, show);
    ResumeDecides(account, w.destId, later, k, tracking, current, steps);
  }

  /** The transactions left after the first `k` are the split of the operations left. */
  lemma StepsLeft(program: seq<Op>, sequence: int, hash: Tx -> string, k: nat)
    requires k < |Split(program, sequence, hash)|
    ensures OPS_PER_TX * k < |program|
    ensures Split(program, sequence, hash)[k..] == Split(program[OPS_PER_TX * k..], sequence + k, hash)
    ensures Concat(Split(program, sequence, hash)[k..]) == program[OPS_PER_TX * k..]
  {
    SplitDrop(program, sequence, hash, k);
    SplitIsExact(program[OPS_PER_TX * k..], sequence + k, hash);
  }

  /** The world after the first `k` of these transactions, if the ledger accepts them all. */
  ghost predicate Reaches(w: World, steps: seq<CleanupStep>, k: nat, after: World) {
    k <= |steps| && ApplyTxs(w, steps[..k]) == Some(after)
  }

  /** Short of the end the first `j` transactions are all full. */
  lemma FullSoFar(program: seq<Op>, sequence: int, hash: Tx -> string, j: nat)
    requires j < |Split(program, sequence, hash)|
    ensures OPS_PER_TX * j < |program| && OffsetAfter(program, 0, j) == OPS_PER_TX * j
    ensures Concat(Split(program, sequence, hash)[j..]) == program[OPS_PER_TX * j..]
  {
    StepsLeft(program, sequence, hash, j);
    OffsetIs(program, 0, j);
  }

  lemma OffsetAtEnd(program: seq<Op>, sequence: int, hash: Tx -> string)
    ensures OffsetAfter(program, 0, |Split(program, sequence, hash)|) == |program|
  {
    SplitIsExact(program, sequence, hash);
    OffsetIs(program, 0, |Split(program, sequence, hash)|);
  }

  /** What is left of the transactions, built again, when the first `j` have been applied. */
  lemma LeftAtOffset(program: seq<Op>, sequence: int, hash: Tx -> string, later: Tx -> string, j: nat)
    requires j <= |Split(program, sequence, hash)|
    ensures Split(program[OffsetAfter(program, 0, j)..], sequence + j, later)
         == Rehashed(Split(program, sequence, hash)[j..], later)
  {
    var n := OffsetAfter(program, 0, j);
    SplitRehashed(program[n..], sequence + j, hash, later);
    if j < |Split(program, sequence, hash)| {
      FullSoFar(program, sequence, hash, j);
      StepsLeft(program, sequence, hash, j);
    } else {
      OffsetAtEnd(program, sequence, hash);
    }
  }

  lemma BoundaryState(w: World, steps: seq<CleanupStep>, hash: Tx -> string, show: nat -> string, j: nat, after: World)
    requires DestinationReady(w)
    requires steps == Split(Ahead(w, show), w.src.sequence, hash)
    requires Reaches(w, steps, j, after)
    ensures StandsAt(w, after, show, j, OffsetAfter(Ahead(w, show), 0, j))
  {
    if j == 0 {
      assert Ahead(w, show)[0..] == Ahead(w, show) && w.src.lines[0..] == w.src.lines;
    } else {
      AcceptedIsFunded(w, steps, hash, show, j, after);
      var reached := AfterFirstTxs(w, steps, hash, show, j);
    }
  }

  /** If a transaction was accepted the first one was, so its fee was covered. */
  lemma AcceptedIsFunded(w: World, steps: seq<CleanupStep>, hash: Tx -> string, show: nat -> string, k: nat, after: World)
    requires steps == Split(Ahead(w, show), w.src.sequence, hash) && 0 < k <= |steps|
    requires Reaches(w, steps, k, after)
    ensures Funded(w, show)
  {
    var first := SplitHead(Ahead(w, show), w.src.sequence, hash);
    assert steps[..k][0] == first;
  }

  /**
   * A cleanup that was interrupted: of the transactions `steps`, built for a
   * reported account, the ledger has applied the first `j`, which gave `after`;
   * the record counts the first `k`, not all, as confirmed; and `current` is what
   * the reader reports now.
   */
  ghost predicate Interrupted(account: Account, w: World, show: nat -> string, steps: seq<CleanupStep>,
                              k: nat, tracking: Tracking, j: nat, after: World, current: Account) {
    && Reports(account, w.src, show) && UniqueKeys(w.src.lines) && DestinationReady(w)
    && k < |steps| && TracksPrefix(tracking, account, w.destId, steps, k)
    && Reaches(w, steps, j, after)
    && Reports(current, after.src, show)
  }

  lemma BoundaryIs(w: World, hash: Tx -> string, later: Tx -> string, show: nat -> string, steps: seq<CleanupStep>,
                   j: nat, after: World, n: nat, left: seq<CleanupStep>)
    requires DestinationReady(w) && Reaches(w, steps, j, after)
    requires steps == Split(Ahead(w, show), w.src.sequence, hash)
    requires n == OffsetAfter(Ahead(w, show), 0, j) && left == Rehashed(steps[j..], later)
    ensures StandsAt(w, after, show, j, n)
    ensures left == Split(Ahead(w, show)[n..], w.src.sequence + j, later)
  {
    BoundaryState(w, steps, hash, show, j, after);
    LeftAtOffset(Ahead(w, show), w.src.sequence, hash, later, j);
  }

  lemma ResumeFromSplit(account: Account, w: World, hash: Tx -> string, later: Tx -> string, show: nat -> string,
                        steps: seq<CleanupStep>, k: nat, tracking: Tracking, j: nat, after: World, current: Account)
    requires Interrupted(account, w, show, steps, k, tracking, j, after, current)
    requires steps == Split(Ahead(w, show), w.src.sequence, hash)
    ensures Resume(current, w.destId, later, tracking)
         == Success(Answer(Ahead(w, show), OffsetAfter(Ahead(w, show), 0, j), show, k,
                           Rehashed(steps[j..], later), |steps|))
  {
    var n := OffsetAfter(Ahead(w, show), 0, j);
    var left := Rehashed(steps[j..], later);
    BoundaryIs(w, hash, later, show, steps, j, after, n, left);
    ResumeMidway(account, w, later, show, k, j, n, tracking, current, after, steps, left);
  }

  /**
   * What resuming answers follows the ledger, and takes from the record only how
   * many steps it counts as confirmed. The first `j` of the built transactions
   * have been applied, the first `k`, not all, are confirmed, and nothing else
   * has changed: the code resumes with exactly the transactions after the first
   * `j`, built again, unless the last of them parted a payout from its trustline
   * removal and the reader prints the emptied balance as something the code does
   * not recognise: in exactly that case it asks for a fresh plan.
   */
  lemma ResumeFollowsLedger(account: Account, w: World, hash: Tx -> string, later: Tx -> string, show: nat -> string,
                            steps: seq<CleanupStep>, k: nat, tracking: Tracking, j: nat, after: World, current: Account)
    requires Build(account, w.destId, hash) == Success(steps)
    requires Interrupted(account, w, show, steps, k, tracking, j, after, current)
    ensures Buildable(account)
    ensures var program := CleanupOps(account, w.destId);
      Resume(current, w.destId, later, tracking)
      == Success(Answer(program, OffsetAfter(program, 0, j), show, k, Rehashed(steps[j..], later), |steps|))
  {
    BuildsWhatIsAhead(account, w, hash, show);
    ResumeFromSplit(account, w, hash, later, show, steps, k, tracking, j, after, current);
  }

  /**
   * Resume equals continue. The first `k` of the built transactions have been
   * applied and confirmed, and nothing else has changed. Then the code resumes
   * with exactly the transactions that are left: the same operations and
   * sequence numbers, with the hashes of the later build. Only in the one case
   * above does it ask for a fresh plan. With "0" for an emptied balance it always
   * resumes.
   */
  lemma ResumeEqualsContinue(account: Account, w: World, hash: Tx -> string, later: Tx -> string, show: nat -> string,
                             steps: seq<CleanupStep>, k: nat, tracking: Tracking, after: World, current: Account)
    requires Build(account, w.destId, hash) == Success(steps)
    requires Interrupted(account, w, show, steps, k, tracking, k, after, current)
    ensures Buildable(account) && OPS_PER_TX * k < |CleanupOps(account, w.destId)|
    ensures var program := CleanupOps(account, w.destId);
      && Concat(steps[k..]) == program[OPS_PER_TX * k..]
      && Resume(current, w.destId, later, tracking)
         == Success(Answer(program, OPS_PER_TX * k, show, k, Rehashed(steps[k..], later), |steps|))
  {
    ResumeFollowsLedger(account, w, hash, later, show, steps, k, tracking, k, after, current);
    FullSoFar(CleanupOps(account, w.destId), account.sequence, hash, k);
  }

  /** The first `k` transactions can always be applied, so the theorem above speaks of every boundary. */
  lemma EveryBoundaryIsReached(account: Account, w: World, hash: Tx -> string, show: nat -> string, k: nat)
    requires Reports(account, w.src, show) && UniqueKeys(w.src.lines)
    requires DestinationReady(w) && Funded(w, show)
    requires Build(account, w.destId, hash).Success? && k <= |Build(account, w.destId, hash).value|
    ensures exists after :: Reaches(w, Build(account, w.destId, hash).value, k, after)
  {
    BuilderEmitsProgram(account, w.src, w.destId, show);
    var after := AfterFirstTxs(w, Build(account, w.destId, hash).value, hash, show, k);
    assert Reaches(w, Build(account, w.destId, hash).value, k, after);
  }

  /** When an emptied balance is printed "0", resuming half-way never needs a fresh plan. */
  lemma ResumeWithZeroText(account: Account, w: World, hash: Tx -> string, later: Tx -> string, show: nat -> string,
                           steps: seq<CleanupStep>, k: nat, tracking: Tracking, after: World, current: Account)
    requires Build(account, w.destId, hash) == Success(steps) && show(0) == "0"
    requires Interrupted(account, w, show, steps, k, tracking, k, after, current)
    ensures Resume(current, w.destId, later, tracking) == Success(Resumed(k, Rehashed(steps[k..], later), |steps|))
  {
    ResumeEqualsContinue(account, w, hash, later, show, steps, k, tracking, after, current);
  }

  // ---- Confirming what was built again ----

  /** By its index in the plan, the next step can be confirmed whatever its hash has become. */
  lemma NextIndexConfirms(tracking: Tracking, account: Account, destination: string, steps: seq<CleanupStep>, k: nat,
                          now: string)
    requires TracksPrefix(tracking, account, destination, steps, k) && k < |steps|
    ensures TracksPrefix(RecordStepConfirmation(tracking, ByIndex(k), now), account, destination, steps, k + 1)
  {
  }

  /**
   * The record keeps the hashes of the first build. Confirming a step that was
   * built again by its new hash changes nothing if and only if no step still to
   * be confirmed had that hash.
   */
  lemma RebuiltHashIsLostIff(tracking: Tracking, account: Account, destination: string, steps: seq<CleanupStep>, k: nat,
                             later: Tx -> string, i: nat, now: string)
    requires TracksPrefix(tracking, account, destination, steps, k) && Stamped(tracking) && k <= i < |steps|
    ensures RecordStepConfirmation(tracking, ByHash(Rehashed(steps, later)[i].hash), now) == tracking
       <==> forall m :: k <= m < |steps| ==> steps[m].hash != later(steps[i].tx)
  {
    ConfirmationIsLostIff(tracking, ByHash(later(steps[i].tx)), now);
    forall m | k <= m < |steps| ensures Names(tracking.steps[m], ByHash(later(steps[i].tx)))
                                   <==> steps[m].hash == later(steps[i].tx) {
    }
  }

  /** A plan whose confirmations are lost resumes for ever: all is done, nothing remains, and it is not completed. */
  lemma LostConfirmationsNeverComplete(account: Account, w: World, hash: Tx -> string, later: Tx -> string,
                                       show: nat -> string, steps: seq<CleanupStep>, k: nat, tracking: Tracking,
                                       after: World, current: Account)
    requires Build(account, w.destId, hash) == Success(steps)
    requires Interrupted(account, w, show, steps, k, tracking, |steps|, after, current)
    ensures Resume(current, w.destId, later, tracking) == Success(Resumed(k, [], |steps|))
  {
    ResumeFollowsLedger(account, w, hash, later, show, steps, k, tracking, |steps|, after, current);
    OffsetAtEnd(CleanupOps(account, w.destId), account.sequence, hash);
    assert steps[|steps|..] == [] && Rehashed([], later) == [];
  }
}
