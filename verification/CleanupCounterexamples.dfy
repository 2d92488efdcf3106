/**
 * Accounts on which the cleanup code does not do what its description says;
 * the exact conditions are theorems of the planner and of resuming.
 */
module CleanupCounterexamples {
  import opened Wrappers
  import opened Horizon
  import opened CleanupBuilder
  import opened Ledger
  import opened CleanupProgress
  import opened CleanupRuns
  import opened CleanupPlanner
  import opened CleanupResume

  const DOLLAR: Asset := Credit("USD", "G2")
  const DOLLAR_REF: AssetRef := AssetRef("credit_alphanum4", Some("USD"), Some("G2"))
  const NATIVE_REF: AssetRef := AssetRef(Horizon.NATIVE, None, None)

  /** One offer sells a single stroop of a native balance that otherwise just pays for the cleanup. */
  const LOCKED: Source :=
    Source("G1", 7, 20_000_200, [Line(DOLLAR, 0)], [OpenOffer("1", Native, DOLLAR, "1", 1, 1)], [], 0)

  function LockedAccount(show: nat -> string): Account {
    Account("G1", 7, Some(2),
            [Balance(DOLLAR_REF, Decimal(show(0), 0)), Balance(NATIVE_REF, Decimal(show(20_000_200), 20_000_200))],
            [], [Offer("1", NATIVE_REF, DOLLAR_REF, "1")], 1, false)
  }

  lemma DollarThenNative(dollar: Balance, native: Balance)
    requires !IsNative(dollar.asset) && IsNative(native.asset)
    ensures NonNative([dollar, native]) == [dollar]
    ensures native in [dollar, native]
  {
    var balances := [dollar, native];
    assert balances[1..] == [native] && [native][1..] == [];
    assert NonNative([native]) == [];
    assert balances[1] in balances;
  }

  lemma LockedIsReported(show: nat -> string)
    ensures Reports(LockedAccount(show), LOCKED, show)
  {
    var balances := LockedAccount(show).balances;
    DollarThenNative(balances[0], balances[1]);
  }

  lemma LockedAmounts(show: nat -> string)
    ensures SpendableBalance(LockedAccount(show)) == RequiredFee(LockedAccount(show)) == 200
  {
    var balances := LockedAccount(show).balances;
    assert OpsForBalances(balances[1..][1..]) == 0;
    assert OpsForBalances(balances[1..]) == 0 && OpsForBalances(balances) == 1;
    assert NativeStroops(balances[1..]) == 20_000_200 == NativeStroops(balances);
  }

  lemma LockedProgram(destination: string, show: nat -> string)
    ensures |Program(LOCKED, destination, show)| == 2
  {
    assert CloseAll(LOCKED.lines[1..], destination, show) == [];
  }

  /** It passes the preflight, and its cleanup is refused. */
  lemma PreflightMissesWhatOffersLock(w: World, hash: Tx -> string, show: nat -> string)
    requires w.src == LOCKED && w.destId != w.src.id
    ensures Reports(LockedAccount(show), w.src, show) && DestinationReady(w)
    ensures SpendableBalance(LockedAccount(show)) >= RequiredFee(LockedAccount(show))
    ensures Build(LockedAccount(show), w.destId, hash).Success?
    ensures ApplyTxs(w, Build(LockedAccount(show), w.destId, hash).value).None?
  {
    LockedIsReported(show);
    LockedAmounts(show);
    LockedProgram(w.destId, show);
    assert Held(LOCKED.lines[1..], DOLLAR) == 0;
    assert SellingLiabilities(LOCKED.offers[1..], Native) == 0;
    PreflightRunsIff(LockedAccount(show), w, hash, show);
  }

  // ---- A reader that prints seven decimals ----

  function Digit(d: nat): char
    requires d < 10
  {
    "0123456789"[d]
  }

  function Digits(n: nat): (s: string)
    ensures s != [] && (n >= 10 ==> |s| >= 2)
  {
    if n < 10 then [Digit(n)] else Digits(n / 10) + [Digit(n % 10)]
  }

  function SevenDecimals(): nat -> string {
    (n: nat) =>
      Digits(n / 10_000_000) + "."
      + [Digit(n / 1_000_000 % 10), Digit(n / 100_000 % 10), Digit(n / 10_000 % 10), Digit(n / 1_000 % 10),
         Digit(n / 100 % 10), Digit(n / 10 % 10), Digit(n % 10)]
  }

  lemma {:induction false} DigitsDiffer(m: nat, n: nat)
    requires m != n
    ensures Digits(m) != Digits(n)
  {
    if m >= 10 && n >= 10 {
      var a, b := Digits(m), Digits(n);
      assert a[..|a| - 1] == Digits(m / 10) && a[|a| - 1] == Digit(m % 10);
      assert b[..|b| - 1] == Digits(n / 10) && b[|b| - 1] == Digit(n % 10);
      if m / 10 != n / 10 { DigitsDiffer(m / 10, n / 10); }
    }
  }

  // ---- An account whose payout is the hundredth operation ----

  function OfferId(i: nat): string {
    Digits(100 + i)
  }

  /** Ninety-nine offers, each of one stroop, and one held trustline. */
  const PARTED: Source :=
    Source("G1", 7, 1_000_000_000, [Line(DOLLAR, 5)],
           seq(99, (i: nat) => OpenOffer(OfferId(i), Native, DOLLAR, "1", 1, 1)), [], 0)

  const PARTED_WORLD: World := World(PARTED, "G3", map[DOLLAR := DestLine(0, 1_000)])

  function PartedAccount(): Account {
    Account("G1", 7, Some(100),
            [Balance(DOLLAR_REF, Decimal(SevenDecimals()(5), 5)),
             Balance(NATIVE_REF, Decimal(SevenDecimals()(1_000_000_000), 1_000_000_000))],
            [], seq(99, (i: nat) => Offer(OfferId(i), NATIVE_REF, DOLLAR_REF, "1")), 99, false)
  }

  /** The ledger account, and the report of it, after the first transaction. */
  const EMPTIED: Source := Source("G1", 8, 999_990_000, [Line(DOLLAR, 0)], [], [], 0)

  function EmptiedAccount(): Account {
    Account("G1", 8, Some(1),
            [Balance(DOLLAR_REF, Decimal(SevenDecimals()(0), 0)),
             Balance(NATIVE_REF, Decimal(SevenDecimals()(999_990_000), 999_990_000))],
            [], [], 0, false)
  }

  lemma PartedIsReported()
    ensures Reports(PartedAccount(), PARTED, SevenDecimals())
  {
    var balances := PartedAccount().balances;
    DollarThenNative(balances[0], balances[1]);
    assert ReportsLines(NonNative(balances), PARTED.lines, SevenDecimals());
  }

  lemma PartedOffersDiffer()
    ensures forall i, j :: 0 <= i < j < |PARTED.offers| ==> PARTED.offers[i].id != PARTED.offers[j].id
  {
    forall i, j | 0 <= i < j < |PARTED.offers| ensures PARTED.offers[i].id != PARTED.offers[j].id {
      DigitsDiffer(100 + i, 100 + j);
    }
  }

  lemma EmptiedIsReported()
    ensures Reports(EmptiedAccount(), EMPTIED, SevenDecimals())
  {
    var balances := EmptiedAccount().balances;
    DollarThenNative(balances[0], balances[1]);
  }

  lemma {:induction false} LocksAtMost(offers: seq<OpenOffer>, a: Asset)
    requires forall i :: 0 <= i < |offers| ==> offers[i].amount <= 1
    ensures SellingLiabilities(offers, a) <= |offers|
  {
    if offers != [] { LocksAtMost(offers[1..], a); }
  }

  lemma PartedProgram()
    ensures var program := Ahead(PARTED_WORLD, SevenDecimals());
      && |program| == 101
      && program[99] == Payment("G3", DOLLAR, Decimal("0.0000005", 5))
      && program[100..] == [RemoveTrustline(DOLLAR)]
  {
    var show := SevenDecimals();
    assert CloseAll(PARTED.lines[1..], "G3", show) == [];
    assert CloseAll(PARTED.lines, "G3", show)
        == [Payment("G3", DOLLAR, Decimal(show(5), 5)), RemoveTrustline(DOLLAR)];
  }

  lemma PartedIsReady()
    ensures DestinationReady(PARTED_WORLD) && Funded(PARTED_WORLD, SevenDecimals()) && UniqueKeys(PARTED.lines)
  {
    PartedProgram();
    LocksAtMost(PARTED.offers, Native);
    forall a ensures Held(PARTED.lines, a) == if a == DOLLAR then 5 else 0 {
      assert Held(PARTED.lines[1..], a) == 0;
    }
  }

  /** What the first transaction leaves. */
  lemma PartedReachesEmptied(hash: Tx -> string) returns (after: World)
    ensures var steps := Split(Ahead(PARTED_WORLD, SevenDecimals()), PARTED.sequence, hash);
      |steps| == 2 && Reaches(PARTED_WORLD, steps, 1, after)
    ensures after.src == EMPTIED
  {
    var w, show := PARTED_WORLD, SevenDecimals();
    PartedProgram();
    PartedIsReady();
    SplitIsExact(Ahead(w, show), w.src.sequence, hash);
    after := CleanupTxsRun(w, show, hash, 1);
    OffsetIs(Ahead(w, show), 0, 1);
    assert after.src.lines == [Line(DOLLAR, 0)] && after.src.offers == [];
    assert Ahead(after, show) == [RemoveTrustline(DOLLAR)];
    assert CloseAll(after.src.lines[1..], after.destId, show) == [];
    assert CloseAll(after.src.lines, after.destId, show) == [RemoveTrustline(DOLLAR)];
    assert after.src.data == [];
  }

  lemma PartedObjection()
    ensures Objection(Ahead(PARTED_WORLD, SevenDecimals()), 100, SevenDecimals()) == Some(BalanceChanged("USD:G2"))
  {
    PartedProgram();
    assert SevenDecimals()(0) == "0.0000000";
    assert KeyText(DOLLAR) == "USD" + ":" + "G2" == "USD:G2";
  }

  /**
   * Its first transaction is applied and confirmed and nothing else changes;
   * resuming asks for a fresh plan, because of the line that the payout emptied.
   */
  lemma AnEmptiedLineCanLookChanged(hash: Tx -> string, later: Tx -> string, now: string)
    ensures forall i, j :: 0 <= i < j < |PARTED.offers| ==> PARTED.offers[i].id != PARTED.offers[j].id
    ensures Reports(PartedAccount(), PARTED, SevenDecimals()) && Reports(EmptiedAccount(), EMPTIED, SevenDecimals())
    ensures Build(PartedAccount(), "G3", hash).Success?
    ensures var steps := Build(PartedAccount(), "G3", hash).value;
      && |steps| == 2
      && (exists after :: Reaches(PARTED_WORLD, steps, 1, after) && after.src == EMPTIED)
      && Resume(EmptiedAccount(), "G3", later,
                RecordAll(CreatePlanTracking(PartedAccount(), "G3", steps), [ByIndex(0)], now))
         == Success(FreshPlanRequired(BalanceChanged("USD:G2")))
  {
    PartedOffersDiffer();
    PartedIsReported();
    EmptiedIsReported();
    PartedIsReady();
    BuildsWhatIsAhead(PartedAccount(), PARTED_WORLD, hash, SevenDecimals());
    var steps := Build(PartedAccount(), "G3", hash).value;
    var after := PartedReachesEmptied(hash);
    var tracking := RecordAll(CreatePlanTracking(PartedAccount(), "G3", steps), [ByIndex(0)], now);
    FirstConfirmed(PartedAccount(), "G3", steps, now);
    ResumeEqualsContinue(PartedAccount(), PARTED_WORLD, hash, later, SevenDecimals(), steps, 1, tracking, after,
                         EmptiedAccount());
    PartedObjection();
  }

  lemma FirstConfirmed(account: Account, destination: string, steps: seq<CleanupStep>, now: string)
    requires steps != []
    ensures var tracking := RecordAll(CreatePlanTracking(account, destination, steps), [ByIndex(0)], now);
      TracksPrefix(tracking, account, destination, steps, 1) && Stamped(tracking)
  {
    var names := [ByIndex(0)];
    ConfirmationsAreExact(account, destination, steps, names, now);
    assert names[0] == ByIndex(0);
  }

  // ---- An account whose cleanup takes two transactions ----

  /** One hundred and one data entries and nothing else. */
  const STORED: Source := Source("G1", 7, 1_000_000_000, [], [], seq(101, (i: nat) => Digits(i)), 0)

  const STORED_WORLD: World := World(STORED, "G3", map[])

  /** The account after its first transaction, and after both. */
  const HALF_STORED: Source := Source("G1", 8, 999_990_000, [], [], [Digits(100)], 0)
  const NOTHING_STORED: Source := Source("G1", 9, 999_989_900, [], [], [], 0)

  /** The report of an account without offers and trustlines. */
  function PlainReport(s: Source): Account {
    Account(s.id, s.sequence, Some(Subentries(s)), [Balance(NATIVE_REF, Decimal("", s.native))], s.data, [], 0, false)
  }

  lemma PlainIsReported(s: Source, show: nat -> string)
    requires s.lines == [] && s.offers == []
    ensures Reports(PlainReport(s), s, show)
  {
    var balances := PlainReport(s).balances;
    assert balances[0] in balances;
    assert balances[1..] == [] && NonNative(balances) == [];
  }

  lemma StoredProgram(show: nat -> string)
    ensures Ahead(STORED_WORLD, show) == DataOps(STORED.data)
    ensures DestinationReady(STORED_WORLD) && Funded(STORED_WORLD, show) && UniqueKeys(STORED.lines)
  {
    DataAhead(STORED, "G3", show);
  }

  lemma DataAhead(s: Source, destination: string, show: nat -> string)
    requires s.lines == [] && s.offers == []
    ensures Program(s, destination, show) == DataOps(s.data)
  {
  }

  lemma LastStored(data: seq<string>)
    requires DataOps(data) == DataOps(STORED.data)[100..]
    ensures data == [Digits(100)]
  {
    assert |data| == |DataOps(data)| == 1;
    assert DataOps(data)[0] == DeleteData(data[0]);
  }

  lemma StoredSteps(hash: Tx -> string, show: nat -> string) returns (steps: seq<CleanupStep>)
    ensures Build(PlainReport(STORED), "G3", hash) == Success(steps)
    ensures steps == Split(Ahead(STORED_WORLD, show), STORED.sequence, hash) && |steps| == 2
  {
    PlainIsReported(STORED, show);
    StoredProgram(show);
    BuildsWhatIsAhead(PlainReport(STORED), STORED_WORLD, hash, show);
    steps := Build(PlainReport(STORED), "G3", hash).value;
    SplitIsExact(Ahead(STORED_WORLD, show), STORED.sequence, hash);
  }

  /** What is stored after the first transaction. */
  lemma StoredReachesHalf(hash: Tx -> string, show: nat -> string, steps: seq<CleanupStep>) returns (after: World)
    requires steps == Split(Ahead(STORED_WORLD, show), STORED.sequence, hash) && |steps| == 2
    ensures Reaches(STORED_WORLD, steps, 1, after) && after.src == HALF_STORED
  {
    var w := STORED_WORLD;
    StoredProgram(show);
    after := CleanupTxsRun(w, show, hash, 1);
    OffsetIs(Ahead(w, show), 0, 1);
    assert after.src.offers == [] && after.src.lines == [];
    DataAhead(after.src, "G3", show);
    LastStored(after.src.data);
  }

  lemma StoredReachesNothing(hash: Tx -> string, show: nat -> string, steps: seq<CleanupStep>) returns (after: World)
    requires steps == Split(Ahead(STORED_WORLD, show), STORED.sequence, hash) && |steps| == 2
    ensures Reaches(STORED_WORLD, steps, 2, after) && after.src == NOTHING_STORED
  {
    StoredProgram(show);
    after := WholeProgramRuns(STORED_WORLD, show, hash);
    assert steps[..2] == steps;
  }

  /**
   * Its first transaction is applied and confirmed, and resuming builds the
   * second one again, with a new hash. Confirming it by that hash changes
   * nothing, and when it has been applied resuming goes on: no step remains and
   * the plan is not completed.
   */
  lemma RebuiltHashIsLost(hash: Tx -> string, later: Tx -> string, now: string)
    requires forall tx, other :: later(tx) != hash(other)
    ensures Build(PlainReport(STORED), "G3", hash).Success?
    ensures var steps := Build(PlainReport(STORED), "G3", hash).value;
      var tracking := RecordAll(CreatePlanTracking(PlainReport(STORED), "G3", steps), [ByIndex(0)], now);
      && |steps| == 2
      && (exists after :: Reaches(STORED_WORLD, steps, 1, after) && after.src == HALF_STORED)
      && Resume(PlainReport(HALF_STORED), "G3", later, tracking)
         == Success(Resumed(1, Rehashed(steps[1..], later), 2))
      && RecordStepConfirmation(tracking, ByHash(Rehashed(steps, later)[1].hash), now) == tracking
      && (exists after :: Reaches(STORED_WORLD, steps, 2, after) && after.src == NOTHING_STORED)
      && Resume(PlainReport(NOTHING_STORED), "G3", later, tracking) == Success(Resumed(1, [], 2))
  {
    var show := (n: nat) => "0";
    var account := PlainReport(STORED);
    var steps := StoredSteps(hash, show);
    var tracking := RecordAll(CreatePlanTracking(account, "G3", steps), [ByIndex(0)], now);
    FirstConfirmed(account, "G3", steps, now);
    SplitIsExact(Ahead(STORED_WORLD, show), STORED.sequence, hash);
    RebuiltHashIsLostIff(tracking, account, "G3", steps, 1, later, 1, now);
    StoredResumes(hash, later, show, steps, tracking);
  }

  lemma StoredResumes(hash: Tx -> string, later: Tx -> string, show: nat -> string, steps: seq<CleanupStep>,
                      tracking: Tracking)
    requires show(0) == "0" && Build(PlainReport(STORED), "G3", hash) == Success(steps)
    requires steps == Split(Ahead(STORED_WORLD, show), STORED.sequence, hash) && |steps| == 2
    requires TracksPrefix(tracking, PlainReport(STORED), "G3", steps, 1)
    ensures exists after :: Reaches(STORED_WORLD, steps, 1, after) && after.src == HALF_STORED
    ensures exists after :: Reaches(STORED_WORLD, steps, 2, after) && after.src == NOTHING_STORED
    ensures Resume(PlainReport(HALF_STORED), "G3", later, tracking)
         == Success(Resumed(1, Rehashed(steps[1..], later), 2))
    ensures Resume(PlainReport(NOTHING_STORED), "G3", later, tracking) == Success(Resumed(1, [], 2))
  {
    var account, w := PlainReport(STORED), STORED_WORLD;
    StoredProgram(show);
    PlainIsReported(STORED, show);
    PlainIsReported(HALF_STORED, show);
    PlainIsReported(NOTHING_STORED, show);
    var half := StoredReachesHalf(hash, show, steps);
    var nothing := StoredReachesNothing(hash, show, steps);
    ResumeWithZeroText(account, w, hash, later, show, steps, 1, tracking, half, PlainReport(HALF_STORED));
    LostConfirmationsNeverComplete(account, w, hash, later, show, steps, 1, tracking, nothing,
                                   PlainReport(NOTHING_STORED));
  }
}
