/**
 * The generated cleanup program on the ledger: it always runs, it empties the
 * account, and it conserves every asset.
 */
module CleanupRuns {
  import opened Wrappers
  import opened Sequences
  import opened Horizon
  import opened CleanupBuilder
  import opened Ledger
  import opened CleanupProgress

  // ---- The builder emits the program ----

  lemma {:induction false} ProgramIsBalanceOps(bs: seq<Balance>, lines: seq<Line>, destination: string, show: nat -> string)
    requires ReportsLines(NonNative(bs), lines, show)
    requires forall i :: 0 <= i < |bs| ==> Resolvable(bs[i].asset)
    requires forall i :: 0 <= i < |lines| ==> lines[i].asset.Credit?
    ensures BalanceOps(bs, destination) == CloseAll(lines, destination, show)
  {
    if bs == [] {
    } else if IsNative(bs[0].asset) {
      ProgramIsBalanceOps(bs[1..], lines, destination, show);
    } else {
      var tail := NonNative(bs)[1..];
      assert NonNative(bs[1..]) == tail;
      assert forall i :: 0 <= i < |tail| ==> tail[i] == NonNative(bs)[i + 1] && lines[1..][i] == lines[i + 1];
      ProgramIsBalanceOps(bs[1..], lines[1..], destination, show);
      assert NonNative(bs)[0] == bs[0];
      assert CloseLineOps(bs[0], destination) == CloseLine(lines[0], destination, show);
    }
  }

  lemma {:induction false} NonNativeResolvable(bs: seq<Balance>)
    requires forall i :: 0 <= i < |NonNative(bs)| ==> Resolvable(NonNative(bs)[i].asset)
    ensures forall i :: 0 <= i < |bs| ==> Resolvable(bs[i].asset)
  {
    if bs != [] {
      var head := bs[0];
      if !IsNative(head.asset) {
        assert NonNative(bs)[0] == head;
        assert forall i :: 0 <= i < |NonNative(bs[1..])| ==> NonNative(bs[1..])[i] == NonNative(bs)[i + 1];
      }
      NonNativeResolvable(bs[1..]);
      forall i | 0 <= i < |bs| ensures Resolvable(bs[i].asset) {
        if i > 0 { assert bs[i] == bs[1..][i - 1]; }
      }
    }
  }

  /** From a faithful report the builder always gets the program of the ledger account. */
  lemma BuilderEmitsProgram(account: Account, s: Source, destination: string, show: nat -> string)
    requires Reports(account, s, show)
    requires forall i :: 0 <= i < |s.lines| ==> s.lines[i].asset.Credit?
    ensures Buildable(account)
    ensures CleanupOps(account, destination) == Program(s, destination, show)
  {
    NonNativeResolvable(account.balances);
    ProgramIsBalanceOps(account.balances, s.lines, destination, show);
    assert OfferOps(account.offers) == CancelAll(s.offers);
  }

  /** Hence what it builds is the split of what is ahead. */
  lemma BuildsWhatIsAhead(account: Account, w: World, hash: Tx -> string, show: nat -> string)
    requires Reports(account, w.src, show)
    requires forall i :: 0 <= i < |w.src.lines| ==> w.src.lines[i].asset.Credit?
    ensures Buildable(account) && CleanupOps(account, w.destId) == Ahead(w, show)
    ensures Build(account, w.destId, hash) == Success(Split(Ahead(w, show), w.src.sequence, hash))
  {
    BuilderEmitsProgram(account, w.src, w.destId, show);
  }

  // ---- One operation ----

  lemma CancelRuns(w: World, show: nat -> string, orig: seq<Line>, paid: bool) returns (next: World)
    requires w.src.offers != []
    requires DestinationReady(w) && Midway(orig, w.src, paid)
    ensures OneOpRan(w, next, show, orig)
  {
    next := w.(src := w.src.(offers := w.src.offers[1..]));
    assert CancelAll(w.src.offers)[1..] == CancelAll(w.src.offers[1..]);
    assert Without(w.src.offers, 0) == w.src.offers[1..];
  }

  /** Paying a line out empties it. */
  function Emptied(lines: seq<Line>): seq<Line>
    requires lines != []
  {
    [lines[0].(balance := 0)] + lines[1..]
  }

  /** The world once the first line has been paid out. */
  function PaidOut(w: World): World
    requires w.src.lines != [] && w.src.lines[0].asset in w.dest
    requires w.src.lines[0].balance <= w.dest[w.src.lines[0].asset].room
  {
    var line := w.src.lines[0];
    var there := w.dest[line.asset];
    w.(src := w.src.(lines := Emptied(w.src.lines)),
       dest := w.dest[line.asset := DestLine(there.balance + line.balance, there.room - line.balance)])
  }

  /** A payable state: the offers are gone and the first line has something the destination takes. */
  ghost predicate Payable(w: World) {
    && w.src.offers == [] && w.src.lines != [] && w.src.lines[0].balance > 0
    && w.src.lines[0].asset in w.dest && Held(w.src.lines, w.src.lines[0].asset) <= w.dest[w.src.lines[0].asset].room
  }

  lemma PayableHolds(w: World)
    requires w.src.offers == [] && w.src.lines != [] && w.src.lines[0].balance > 0 && DestinationReady(w)
    ensures Payable(w)
  {
    assert Held(w.src.lines, w.src.lines[0].asset) > 0;
  }

  lemma PayApplies(w: World, show: nat -> string)
    requires Payable(w)
    ensures var line := w.src.lines[0];
      ApplyOp(w, Payment(w.destId, line.asset, Decimal(show(line.balance), line.balance))) == Some(PaidOut(w))
  {
    var line := w.src.lines[0];
    assert w.src.lines[0 := line.(balance := 0)] == Emptied(w.src.lines);
  }

  lemma PayAhead(w: World, show: nat -> string)
    requires Payable(w)
    ensures var line := w.src.lines[0];
      Ahead(w, show)
      == [Payment(w.destId, line.asset, Decimal(show(line.balance), line.balance))] + Ahead(PaidOut(w), show)
  {
    var line := w.src.lines[0];
    var emptied := Emptied(w.src.lines);
    assert emptied[1..] == w.src.lines[1..];
    assert CloseLine(line, w.destId, show)
        == [Payment(w.destId, line.asset, Decimal(show(line.balance), line.balance))] + CloseLine(emptied[0], w.destId, show);
  }

  lemma HeldOnceEmptied(lines: seq<Line>, a: Asset)
    requires lines != []
    ensures Held(Emptied(lines), a) == Held(lines, a) - (if a == lines[0].asset then lines[0].balance else 0)
  {
    assert Emptied(lines)[1..] == lines[1..];
  }

  lemma PayConserves(w: World)
    requires Payable(w)
    ensures Conserves(w, PaidOut(w))
    ensures DestinationReady(w) ==> DestinationReady(PaidOut(w))
  {
    forall a ensures Held(PaidOut(w).src.lines, a)
                  == Held(w.src.lines, a) - (if a == w.src.lines[0].asset then w.src.lines[0].balance else 0)
    {
      HeldOnceEmptied(w.src.lines, a);
    }
  }

  lemma PayStaysMidway(orig: seq<Line>, s: Source, paid: bool)
    requires s.offers == [] && s.lines != [] && s.lines[0].balance > 0 && Midway(orig, s, paid)
    ensures Midway(orig, s.(lines := Emptied(s.lines)), true)
  {
    assert s.lines[1..] == orig[|orig| - |s.lines| + 1..];
  }

  lemma PayRuns(w: World, show: nat -> string, orig: seq<Line>, paid: bool) returns (next: World)
    requires w.src.offers == [] && w.src.lines != [] && w.src.lines[0].balance > 0
    requires DestinationReady(w) && Midway(orig, w.src, paid)
    ensures OneOpRan(w, next, show, orig)
  {
    PayableHolds(w);
    next := PaidOut(w);
    PayApplies(w, show);
    PayAhead(w, show);
    PayConserves(w);
    PayStaysMidway(orig, w.src, paid);
  }

  /** Dropping an empty line changes no holding. */
  lemma DropKeepsHeld(lines: seq<Line>, a: Asset)
    requires lines != [] && lines[0].balance == 0
    ensures Held(lines[1..], a) == Held(lines, a)
  {
  }

  lemma DropConserves(w: World)
    requires w.src.lines != [] && w.src.lines[0].balance == 0
    ensures Conserves(w, w.(src := w.src.(lines := w.src.lines[1..])))
    ensures DestinationReady(w) ==> DestinationReady(w.(src := w.src.(lines := w.src.lines[1..])))
  {
    forall a ensures Held(w.src.lines[1..], a) == Held(w.src.lines, a) {
      DropKeepsHeld(w.src.lines, a);
    }
  }

  lemma DropStaysMidway(orig: seq<Line>, s: Source, paid: bool)
    requires s.offers == [] && s.lines != [] && Midway(orig, s, paid)
    ensures Midway(orig, s.(lines := s.lines[1..]), false)
  {
    assert s.lines[1..] == orig[|orig| - |s.lines| + 1..];
  }

  lemma DropShrinks(s: Source)
    requires s.lines != []
    ensures Shrinks(s, s.(lines := s.lines[1..]))
  {
  }

  lemma RemoveAhead(w: World, show: nat -> string)
    requires w.src.offers == [] && w.src.lines != [] && w.src.lines[0].balance == 0
    ensures Ahead(w, show)
         == [RemoveTrustline(w.src.lines[0].asset)] + Ahead(w.(src := w.src.(lines := w.src.lines[1..])), show)
  {
    assert CloseLine(w.src.lines[0], w.destId, show) == [RemoveTrustline(w.src.lines[0].asset)];
  }

  lemma RemoveApplies(w: World)
    requires w.src.offers == [] && w.src.lines != [] && w.src.lines[0].balance == 0
    ensures ApplyOp(w, RemoveTrustline(w.src.lines[0].asset)) == Some(w.(src := w.src.(lines := w.src.lines[1..])))
  {
    assert Without(w.src.lines, 0) == w.src.lines[1..];
  }

  lemma RemoveRuns(w: World, show: nat -> string, orig: seq<Line>, paid: bool) returns (next: World)
    requires w.src.offers == [] && w.src.lines != [] && w.src.lines[0].balance == 0
    requires DestinationReady(w) && Midway(orig, w.src, paid)
    ensures OneOpRan(w, next, show, orig)
  {
    next := w.(src := w.src.(lines := w.src.lines[1..]));
    RemoveApplies(w);
    RemoveAhead(w, show);
    DropConserves(w);
    DropStaysMidway(orig, w.src, paid);
    DropShrinks(w.src);
  }

  lemma DeleteRuns(w: World, show: nat -> string, orig: seq<Line>, paid: bool) returns (next: World)
    requires w.src.offers == [] && w.src.lines == [] && w.src.data != []
    requires DestinationReady(w) && Midway(orig, w.src, paid)
    ensures OneOpRan(w, next, show, orig)
  {
    next := w.(src := w.src.(data := w.src.data[1..]));
    assert DataOps(w.src.data)[1..] == DataOps(w.src.data[1..]);
    assert Without(w.src.data, 0) == w.src.data[1..];
  }

  /** The first operation of the program succeeds and leaves exactly the rest of the program. */
  lemma FirstOpRuns(w: World, show: nat -> string, orig: seq<Line>, paid: bool) returns (next: World)
    requires Ahead(w, show) != []
    requires DestinationReady(w) && Midway(orig, w.src, paid)
    ensures OneOpRan(w, next, show, orig)
  {
    if w.src.offers != [] {
      next := CancelRuns(w, show, orig, paid);
    } else if w.src.lines != [] && w.src.lines[0].balance > 0 {
      next := PayRuns(w, show, orig, paid);
    } else if w.src.lines != [] {
      next := RemoveRuns(w, show, orig, paid);
    } else {
      next := DeleteRuns(w, show, orig, paid);
    }
  }

  lemma ProgressTransitive(a: World, b: World, c: World)
    requires Conserves(a, b) && Conserves(b, c) && Shrinks(a.src, b.src) && Shrinks(b.src, c.src)
    ensures Conserves(a, c) && Shrinks(a.src, c.src)
  {
    forall x ensures Total(c, x) == Total(a, x) {
      assert Total(b, x) == Total(a, x);
    }
  }

  lemma OpsRanCons(w: World, next: World, after: World, show: nat -> string, orig: seq<Line>, paid: bool,
                   program: seq<Op>, n: nat)
    requires 0 < n <= |program| && ApplyOp(w, program[0]) == Some(next)
    requires Subentries(next.src) + Frees(program[0]) == Subentries(w.src)
    requires Conserves(w, next) && Shrinks(w.src, next.src)
    requires OpsRan(next, after, show, orig, program[0].Payment?, program[1..], n - 1)
    ensures OpsRan(w, after, show, orig, paid, program, n)
  {
    ApplyPrefix(w, next, program, n);
    FreedPrefix(program, n);
    ProgressTransitive(w, next, after);
    assert program[1..][n - 1..] == program[n..];
  }

  /** The first `n` operations run from any state, and the rest of the program is what remains. */
  lemma {:induction false} PrefixRuns(w: World, show: nat -> string, orig: seq<Line>, paid: bool, n: nat)
      returns (after: World)
    requires n <= |Ahead(w, show)|
    requires DestinationReady(w) && Midway(orig, w.src, paid)
    ensures OpsRan(w, after, show, orig, paid, Ahead(w, show), n)
    decreases n
  {
    if n == 0 {
      return w;
    }
    var next := FirstOpRuns(w, show, orig, paid);
    after := PrefixRuns(next, show, orig, Ahead(w, show)[0].Payment?, n - 1);
    OpsRanCons(w, next, after, show, orig, paid, Ahead(w, show), n);
  }

  lemma FreedPrefix(program: seq<Op>, n: nat)
    requires 0 < n <= |program|
    ensures Freed(program[..n]) == Frees(program[0]) + Freed(program[1..][..n - 1])
  {
    assert program[..n][1..] == program[1..][..n - 1];
  }

  lemma ApplyPrefix(w: World, next: World, program: seq<Op>, n: nat)
    requires 0 < n <= |program| && ApplyOp(w, program[0]) == Some(next)
    ensures ApplyOps(w, program[..n]) == ApplyOps(next, program[1..][..n - 1])
  {
    assert program[..n][0] == program[0];
    assert program[..n][1..] == program[1..][..n - 1];
  }

  // ---- Whole transactions ----

  /** Cancelling offers from the front frees what they lock. */
  lemma {:induction false} LessLocked(offers: seq<OpenOffer>, i: nat, a: Asset)
    requires i <= |offers|
    ensures SellingLiabilities(offers[i..], a) <= SellingLiabilities(offers, a)
  {
    if i > 0 {
      LessLocked(offers[1..], i - 1, a);
      assert offers[1..][i - 1..] == offers[i..];
    }
  }

  /** No payment is the last operation, nor followed by another payment. */
  predicate Alternates(program: seq<Op>) {
    program == []
    || (Alternates(program[1..]) && (program[0].Payment? ==> |program| > 1 && !program[1].Payment?))
  }

  lemma {:induction false} AlternatesAfter(ops: seq<Op>, program: seq<Op>)
    requires (forall i :: 0 <= i < |ops| ==> !ops[i].Payment?) && Alternates(program)
    ensures Alternates(ops + program)
  {
    if ops == [] {
      assert ops + program == program;
    } else {
      AlternatesAfter(ops[1..], program);
      assert (ops + program)[1..] == ops[1..] + program;
    }
  }

  lemma AlternatesAfterLine(line: Line, program: seq<Op>, destination: string, show: nat -> string)
    requires Alternates(program)
    ensures Alternates(CloseLine(line, destination, show) + program)
  {
    var removal := [RemoveTrustline(line.asset)];
    AlternatesAfter(removal, program);
    if line.balance > 0 {
      var all := CloseLine(line, destination, show) + program;
      assert all[1..] == removal + program;
    } else {
      assert CloseLine(line, destination, show) == removal;
    }
  }

  lemma {:induction false} LinesAlternate(lines: seq<Line>, last: seq<Op>, destination: string, show: nat -> string)
    requires Alternates(last)
    ensures Alternates(CloseAll(lines, destination, show) + last)
  {
    if lines == [] {
      assert [] + last == last;
    } else {
      LinesAlternate(lines[1..], last, destination, show);
      AlternatesAfterLine(lines[0], CloseAll(lines[1..], destination, show) + last, destination, show);
      Associates(CloseLine(lines[0], destination, show), CloseAll(lines[1..], destination, show), last);
    }
  }

  lemma ProgramAlternates(s: Source, destination: string, show: nat -> string)
    ensures Alternates(Program(s, destination, show))
  {
    AlternatesAfter(DataOps(s.data), []);
    assert DataOps(s.data) + [] == DataOps(s.data);
    LinesAlternate(s.lines, DataOps(s.data), destination, show);
    AlternatesAfter(CancelAll(s.offers), CloseAll(s.lines, destination, show) + DataOps(s.data));
    Associates(CancelAll(s.offers), CloseAll(s.lines, destination, show), DataOps(s.data));
  }

  /** So nearly half of any first part of a program frees a subentry each. */
  lemma {:induction false} NearlyHalfFree(program: seq<Op>, n: nat)
    requires Alternates(program) && n <= |program|
    ensures 2 * Freed(program[..n]) + 1 >= n
    decreases n
  {
    if n > 0 {
      FreedPrefix(program, n);
      if !program[0].Payment? {
        NearlyHalfFree(program[1..], n - 1);
      } else if n > 1 {
        FreedPrefix(program[1..], n - 1);
        NearlyHalfFree(program[1..][1..], n - 2);
      }
    }
  }

  /** Ready to run the cleanup of a ledger account whose lines were `orig`. */
  ghost function CleanupReady(show: nat -> string, orig: seq<Line>, program: seq<Op>): Readiness {
    (w: World, i: nat) => Runnable(w, show, orig, program, i)
  }

  /** The transaction at `i` is the first of what is left there. */
  lemma TxAt(program: seq<Op>, i: nat)
    requires i < |program|
    ensures Take(program[i..]) == TxEnd(program, i) - i
    ensures program[i..][..Take(program[i..])] == program[i..TxEnd(program, i)]
    ensures program[i..][Take(program[i..])..] == program[TxEnd(program, i)..]
    ensures JustPaid(program[i..], Take(program[i..]), PaidAt(program, i)) == PaidAt(program, TxEnd(program, i))
  {
  }

  lemma FirstTxRuns(w: World, show: nat -> string, orig: seq<Line>, program: seq<Op>, i: nat) returns (after: World)
    requires i < |program| && Runnable(w, show, orig, program, i)
    ensures OneTxRan(CleanupReady(show, orig, program), w, after, program, i)
  {
    var rest := program[i..];
    after := PrefixRuns(Charged(w, BASE_FEE * Take(rest)), show, orig, PaidAt(program, i), Take(rest));
    ProgramAlternates(w.src, w.destId, show);
    TxAdvances(w, after, rest);
    TxAt(program, i);
    StartsTx(w, after, rest);
  }

  /** The transaction is accepted when its fee is covered and its operations run. */
  lemma StartsTx(w: World, after: World, rest: seq<Op>)
    requires rest != [] && Covers(w.src, rest)
    requires ApplyOps(Charged(w, BASE_FEE * Take(rest)), rest[..Take(rest)]) == Some(after)
    ensures ApplyTx(w, Tx(w.src.sequence + 1, rest[..Take(rest)])) == Some(after)
  {
  }

  lemma CleanupReadyRuns(show: nat -> string, orig: seq<Line>, program: seq<Op>)
    ensures Runs(CleanupReady(show, orig, program), program)
  {
    var ready := CleanupReady(show, orig, program);
    forall w, i: nat {:trigger Here(w, i)} | Here(w, i) && i < |program| && ready(w, i)
      ensures exists after :: OneTxRan(ready, w, after, program, i)
    {
      var after := FirstTxRuns(w, show, orig, program, i);
    }
  }

  /** The account once a transaction's fee and sequence number are taken. */
  function Charged(w: World, fee: nat): World {
    w.(src := w.src.(sequence := w.src.sequence + 1, native := w.src.native - fee))
  }

  lemma TxAdvances(w: World, after: World, program: seq<Op>)
    requires program != [] && Alternates(program) && Covers(w.src, program)
    requires var charged := Charged(w, BASE_FEE * Take(program));
      Conserves(charged, after) && Shrinks(charged.src, after.src)
    requires Subentries(after.src) + Freed(program[..Take(program)]) == Subentries(w.src)
    ensures Advanced(w, after, 1, Take(program))
    ensures Covers(after.src, program[Take(program)..])
  {
    var n := Take(program);
    var charged := Charged(w, BASE_FEE * n);
    forall a ensures Total(after, a) == Total(w, a) {
      assert Total(charged, a) == Total(w, a);
    }
    StillCovers(w.src, after.src, program);
  }

  /** The reserve a full transaction frees is more than the fee of the next. */
  lemma StillCovers(before: Source, after: Source, program: seq<Op>)
    requires program != [] && Alternates(program) && Covers(before, program)
    requires after.native == before.native - BASE_FEE * Take(program)
    requires Subentries(after) + Freed(program[..Take(program)]) == Subentries(before)
    requires |after.offers| <= |before.offers| && after.offers == before.offers[|before.offers| - |after.offers|..]
    ensures Covers(after, program[Take(program)..])
  {
    NearlyHalfFree(program, Take(program));
    LessLocked(before.offers, |before.offers| - |after.offers|, Native);
  }

  lemma AdvancedTransitive(a: World, b: World, c: World, n: nat, txs: nat, m: nat)
    requires Advanced(a, b, 1, n) && Advanced(b, c, txs, m)
    ensures Advanced(a, c, txs + 1, n + m)
  {
    forall x ensures Total(c, x) == Total(a, x) {
      assert Total(b, x) == Total(a, x);
    }
  }

  lemma ApplyFirst(w: World, first: CleanupStep, rest: seq<CleanupStep>, next: World)
    requires ApplyTx(w, first.tx) == Some(next)
    ensures ApplyTxs(w, [first] + rest) == ApplyTxs(next, rest)
  {
    assert ([first] + rest)[1..] == rest;
  }

  lemma AppliesMore(w: World, next: World, program: seq<Op>, i: nat, hash: Tx -> string, k: nat)
    requires k > 0 && i < |program| && next.src.sequence == w.src.sequence + 1
    requires ApplyTx(w, Tx(w.src.sequence + 1, program[i..TxEnd(program, i)])) == Some(next)
    ensures ApplyTxs(w, FirstSteps(program, i, w.src.sequence, hash, k))
         == ApplyTxs(next, FirstSteps(program, TxEnd(program, i), next.src.sequence, hash, k - 1))
  {
    var tx := Tx(w.src.sequence + 1, program[i..TxEnd(program, i)]);
    ApplyFirst(w, CleanupStep(tx, hash(tx)), FirstSteps(program, TxEnd(program, i), next.src.sequence, hash, k - 1), next);
  }

  lemma OneMoreStep(program: seq<Op>, i: nat, sequence: int, hash: Tx -> string, k: nat)
    requires k > 0 && i < |program|
    ensures |FirstSteps(program, i, sequence, hash, k)|
         == 1 + |FirstSteps(program, TxEnd(program, i), sequence + 1, hash, k - 1)|
    ensures OffsetAfter(program, i, k) == OffsetAfter(program, TxEnd(program, i), k - 1)
  {
  }

  lemma TxsRanCons(ready: Readiness, w: World, next: World, after: World, program: seq<Op>, i: nat, hash: Tx -> string,
                   k: nat)
    requires k > 0 && OneTxRan(ready, w, next, program, i)
    requires TxsRan(next, after, program, TxEnd(program, i), hash, k - 1)
    ensures TxsRan(w, after, program, i, hash, k)
  {
    var end := TxEnd(program, i);
    AppliesMore(w, next, program, i, hash, k);
    OneMoreStep(program, i, w.src.sequence, hash, k);
    AdvancedTransitive(w, next, after, end - i, |FirstSteps(program, end, next.src.sequence, hash, k - 1)|,
                       OffsetAfter(program, end, k - 1) - end);
  }

  /** Any number of the built transactions run, in order, each one's fee covered. */
  lemma {:induction false} FirstTxsRun(ready: Readiness, w: World, program: seq<Op>, i: nat, hash: Tx -> string, k: nat)
      returns (after: World)
    requires Runs(ready, program) && i <= |program| && ready(w, i)
    ensures TxsRan(w, after, program, i, hash, k)
    ensures ready(after, OffsetAfter(program, i, k))
    decreases k
  {
    if k == 0 || i == |program| {
      return w;
    }
    assert Here(w, i);
    var next :| OneTxRan(ready, w, next, program, i);
    after := FirstTxsRun(ready, next, program, TxEnd(program, i), hash, k - 1);
    TxsRanCons(ready, w, next, after, program, i, hash, k);
  }

  lemma SplitHead(program: seq<Op>, sequence: int, hash: Tx -> string) returns (first: CleanupStep)
    requires program != []
    ensures first.tx == Tx(sequence + 1, program[..Take(program)])
    ensures Split(program, sequence, hash) == [first] + Split(program[Take(program)..], sequence + 1, hash)
  {
    var tx := Tx(sequence + 1, program[..Take(program)]);
    first := CleanupStep(tx, hash(tx));
  }

  lemma TakeMore<T>(x: T, rest: seq<T>, k: nat)
    requires k <= |rest|
    ensures ([x] + rest)[..k + 1] == [x] + rest[..k]
  {
  }

  /** They are the first of the built transactions. */
  lemma {:induction false} FirstStepsAreBuilt(program: seq<Op>, i: nat, sequence: int, hash: Tx -> string, k: nat)
    requires i <= |program| && k <= |Split(program[i..], sequence, hash)|
    ensures FirstSteps(program, i, sequence, hash, k) == Split(program[i..], sequence, hash)[..k]
    decreases k
  {
    if k > 0 {
      var end := TxEnd(program, i);
      var first := SplitHead(program[i..], sequence, hash);
      TxAt(program, i);
      FirstStepsAreBuilt(program, end, sequence + 1, hash, k - 1);
      TakeMore(first, Split(program[end..], sequence + 1, hash), k - 1);
      SameFirst(program, i, sequence, hash, first);
    }
  }

  lemma SameFirst(program: seq<Op>, i: nat, sequence: int, hash: Tx -> string, first: CleanupStep)
    requires i < |program| && Split(program[i..], sequence, hash) != [] && first == Split(program[i..], sequence, hash)[0]
    ensures var tx := Tx(sequence + 1, program[i..TxEnd(program, i)]); first == CleanupStep(tx, hash(tx))
  {
    TxAt(program, i);
  }

  /** The operations done by the first `k` transactions of a program. */
  lemma {:induction false} OffsetIs(program: seq<Op>, i: nat, k: nat)
    requires i <= |program|
    ensures OffsetAfter(program, i, k) == if i + OPS_PER_TX * k < |program| then i + OPS_PER_TX * k else |program|
    decreases k
  {
    if k > 0 && i < |program| { OffsetIs(program, TxEnd(program, i), k - 1); }
  }

  /** So they do for a cleanup. */
  lemma CleanupTxsRun(w: World, show: nat -> string, hash: Tx -> string, k: nat) returns (after: World)
    requires DestinationReady(w) && Funded(w, show)
    requires k <= |Split(Ahead(w, show), w.src.sequence, hash)|
    ensures ApplyTxs(w, Split(Ahead(w, show), w.src.sequence, hash)[..k]) == Some(after)
    ensures Advanced(w, after, k, OffsetAfter(Ahead(w, show), 0, k))
    ensures Runnable(after, show, w.src.lines, Ahead(w, show), OffsetAfter(Ahead(w, show), 0, k))
  {
    var program := Ahead(w, show);
    assert program[0..] == program && w.src.lines[0..] == w.src.lines;
    CleanupReadyRuns(show, w.src.lines, program);
    FirstStepsAreBuilt(program, 0, w.src.sequence, hash, k);
    after := FirstTxsRun(CleanupReady(show, w.src.lines, program), w, program, 0, hash, k);
  }

  /**
   * `after` is `w` cleaned up, by that many transactions and operations: the
   * account is empty but for its other subentries and what is left of its
   * native balance, and each asset's loss is the destination's gain.
   */
  ghost predicate CleanedUp(w: World, after: World, txs: nat, ops: nat) {
    && after.src.offers == [] && after.src.lines == [] && after.src.data == []
    && after.src.id == w.src.id && after.src.otherSubentries == w.src.otherSubentries
    && after.src.sequence == w.src.sequence + txs
    && after.src.native == w.src.native - BASE_FEE * ops
    && after.dest.Keys == w.dest.Keys
    && (forall a :: a in w.dest ==> after.dest[a].balance == w.dest[a].balance + Held(w.src.lines, a))
    && (forall a :: a !in w.dest ==> Held(w.src.lines, a) == 0)
  }

  lemma WholeProgramRuns(w: World, show: nat -> string, hash: Tx -> string) returns (after: World)
    requires DestinationReady(w) && Funded(w, show)
    ensures ApplyTxs(w, Split(Ahead(w, show), w.src.sequence, hash)) == Some(after)
    ensures CleanedUp(w, after, CeilDiv(|Ahead(w, show)|, OPS_PER_TX), |Ahead(w, show)|)
  {
    var steps := Split(Ahead(w, show), w.src.sequence, hash);
    SplitIsExact(Ahead(w, show), w.src.sequence, hash);
    after := CleanupTxsRun(w, show, hash, |steps|);
    OffsetIs(Ahead(w, show), 0, |steps|);
    assert steps[..|steps|] == steps;
    EmptyProgram(after.src, w.destId, show);
    AllPaidOut(w, after);
  }

  /**
   * The whole cleanup of any reported account, whatever chunk boundaries fall
   * where: every transaction succeeds and the account is cleaned up.
   */
  lemma CleanupAlwaysRuns(account: Account, w: World, hash: Tx -> string, show: nat -> string)
    requires Reports(account, w.src, show)
    requires forall i :: 0 <= i < |w.src.lines| ==> w.src.lines[i].asset.Credit?
    requires DestinationReady(w) && Funded(w, show)
    ensures Buildable(account) && Build(account, w.destId, hash).Success?
    ensures var run := ApplyTxs(w, Build(account, w.destId, hash).value);
      var ops := CleanupOps(account, w.destId);
      run.Some? && CleanedUp(w, run.value, CeilDiv(|ops|, OPS_PER_TX), |ops|)
  {
    BuildsWhatIsAhead(account, w, hash, show);
    var after := WholeProgramRuns(w, show, hash);
  }

  // ---- What a run needs of the destination ----

  /** What these operations pay out of an asset. */
  function Paid(ops: seq<Op>, a: Asset): int {
    if ops == [] then 0
    else (if ops[0].Payment? && ops[0].asset == a then ops[0].amount.stroops else 0) + Paid(ops[1..], a)
  }

  lemma {:induction false} PaidAdds(x: seq<Op>, y: seq<Op>, a: Asset)
    ensures Paid(x + y, a) == Paid(x, a) + Paid(y, a)
  {
    if x == [] {
      assert x + y == y;
    } else {
      assert (x + y)[1..] == x[1..] + y;
      PaidAdds(x[1..], y, a);
    }
  }

  lemma {:induction false} NothingPaid(ops: seq<Op>, a: Asset)
    requires forall op :: op in ops ==> !op.Payment?
    ensures Paid(ops, a) == 0
  {
    if ops != [] { NothingPaid(ops[1..], a); }
  }

  /** Closing the lines pays out all that they hold. */
  lemma {:induction false} PaidIsHeld(lines: seq<Line>, destination: string, show: nat -> string, a: Asset)
    ensures Paid(CloseAll(lines, destination, show), a) == Held(lines, a)
  {
    if lines != [] {
      var rest := CloseAll(lines[1..], destination, show);
      PaidAdds(CloseLine(lines[0], destination, show), rest, a);
      PaidIsHeld(lines[1..], destination, show, a);
      assert Paid([RemoveTrustline(lines[0].asset)], a) == 0;
      if lines[0].balance > 0 {
        assert CloseLine(lines[0], destination, show)[1..] == [RemoveTrustline(lines[0].asset)];
      }
    }
  }

  lemma ProgramPaysAll(w: World, show: nat -> string, a: Asset)
    ensures Paid(Ahead(w, show), a) == Held(w.src.lines, a)
  {
    var cancels, closes, deletes := CancelAll(w.src.offers), CloseAll(w.src.lines, w.destId, show), DataOps(w.src.data);
    PaidAdds(cancels + closes, deletes, a);
    PaidAdds(cancels, closes, a);
    NothingPaid(cancels, a);
    NothingPaid(deletes, a);
    PaidIsHeld(w.src.lines, w.destId, show, a);
  }

  /** The destination took `paid` of an asset: it trusts it, if that is anything, and had the room. */
  ghost predicate Took(w: World, after: World, a: Asset, paid: int) {
    && paid >= 0
    && (a in after.dest <==> a in w.dest)
    && (if a in w.dest then after.dest[a].room == w.dest[a].room - paid else paid == 0)
  }

  lemma OpTakes(w: World, op: Op, a: Asset)
    requires ApplyOp(w, op).Some?
    ensures Took(w, ApplyOp(w, op).value, a, if op.Payment? && op.asset == a then op.amount.stroops else 0)
  {
  }

  lemma {:induction false} OpsTake(w: World, ops: seq<Op>, a: Asset)
    requires ApplyOps(w, ops).Some?
    ensures Took(w, ApplyOps(w, ops).value, a, Paid(ops, a))
    decreases |ops|
  {
    if ops != [] {
      OpTakes(w, ops[0], a);
      OpsTake(ApplyOp(w, ops[0]).value, ops[1..], a);
    }
  }

  lemma {:induction false} TxsTake(w: World, steps: seq<CleanupStep>, a: Asset)
    requires ApplyTxs(w, steps).Some?
    ensures Took(w, ApplyTxs(w, steps).value, a, Paid(Concat(steps), a))
    decreases |steps|
  {
    if steps != [] {
      var tx := steps[0].tx;
      OpsTake(Charged(w, BASE_FEE * |tx.ops|), tx.ops, a);
      TxsTake(ApplyTx(w, tx).value, steps[1..], a);
      PaidAdds(tx.ops, Concat(steps[1..]), a);
    }
  }

  /** If the cleanup ran, the destination was ready for it. */
  lemma RanMeansReady(w: World, hash: Tx -> string, show: nat -> string)
    requires w.destId != w.src.id && ApplyTxs(w, Split(Ahead(w, show), w.src.sequence, hash)).Some?
    ensures DestinationReady(w)
  {
    var steps := Split(Ahead(w, show), w.src.sequence, hash);
    SplitIsExact(Ahead(w, show), w.src.sequence, hash);
    forall a | Held(w.src.lines, a) > 0 ensures a in w.dest && Held(w.src.lines, a) <= w.dest[a].room {
      TxsTake(w, steps, a);
      ProgramPaysAll(w, show, a);
    }
  }

  /**
   * For a destination that is another account, it runs exactly when the account
   * can pay for its first transaction, with its reserve and what its offers lock
   * set aside, and the destination trusts every held asset with room for it.
   */
  lemma CleanupRunsIffFunded(account: Account, w: World, hash: Tx -> string, show: nat -> string)
    requires Reports(account, w.src, show) && w.destId != w.src.id
    requires forall i :: 0 <= i < |w.src.lines| ==> w.src.lines[i].asset.Credit?
    ensures Build(account, w.destId, hash).Success?
    ensures ApplyTxs(w, Build(account, w.destId, hash).value).Some? <==> Funded(w, show) && DestinationReady(w)
  {
    BuildsWhatIsAhead(account, w, hash, show);
    if Funded(w, show) && DestinationReady(w) {
      CleanupAlwaysRuns(account, w, hash, show);
    } else if ApplyTxs(w, Build(account, w.destId, hash).value).Some? {
      RanMeansReady(w, hash, show);
      var first := SplitHead(Ahead(w, show), w.src.sequence, hash);
    }
  }

  lemma AllPaidOut(w: World, after: World)
    requires Conserves(w, after) && after.src.lines == []
    ensures forall a :: a in w.dest ==> after.dest[a].balance == w.dest[a].balance + Held(w.src.lines, a)
    ensures forall a :: a !in w.dest ==> Held(w.src.lines, a) == 0
  {
    forall a ensures a in w.dest ==> after.dest[a].balance == w.dest[a].balance + Held(w.src.lines, a)
             ensures a !in w.dest ==> Held(w.src.lines, a) == 0
    {
      assert Total(after, a) == Total(w, a);
    }
  }

  lemma EmptyProgram(s: Source, destination: string, show: nat -> string)
    ensures Program(s, destination, show) == [] <==> s.offers == [] && s.lines == [] && s.data == []
  {
    if s.lines != [] {
      assert |CloseAll(s.lines, destination, show)| > 0;
    }
  }
}
