/** Where a cleanup stands: the program still ahead, and what holds in the middle of a run. */
module CleanupProgress {
  import opened Wrappers
  import opened Horizon
  import opened CleanupBuilder
  import opened Ledger

  // ---- The program still ahead of a ledger account ----

  function CancelAll(offers: seq<OpenOffer>): seq<Op> {
    seq(|offers|, i requires 0 <= i < |offers| =>
      CancelOffer(offers[i].selling, offers[i].buying, offers[i].price, offers[i].id))
  }

  function CloseLine(line: Line, destination: string, show: nat -> string): seq<Op> {
    (if line.balance > 0
     then [Payment(destination, line.asset, Decimal(show(line.balance), line.balance))]
     else [])
    + [RemoveTrustline(line.asset)]
  }

  function CloseAll(lines: seq<Line>, destination: string, show: nat -> string): seq<Op> {
    if lines == [] then [] else CloseLine(lines[0], destination, show) + CloseAll(lines[1..], destination, show)
  }

  function Program(s: Source, destination: string, show: nat -> string): seq<Op> {
    CancelAll(s.offers) + CloseAll(s.lines, destination, show) + DataOps(s.data)
  }

  /** The program still ahead of the source account. */
  function Ahead(w: World, show: nat -> string): seq<Op> {
    Program(w.src, w.destId, show)
  }

  /** The destination is another account that trusts every asset still to be paid out, with room for all of it. */
  ghost predicate DestinationReady(w: World) {
    && w.destId != w.src.id
    && forall a :: Held(w.src.lines, a) > 0 ==> a in w.dest && Held(w.src.lines, a) <= w.dest[a].room
  }

  /** What the source and the destination hold of an asset between them. */
  function Total(w: World, a: Asset): nat {
    Held(w.src.lines, a) + if a in w.dest then w.dest[a].balance else 0
  }

  /** Same accounts and trusted assets; what one side lost of an asset the other side gained. */
  ghost predicate Conserves(before: World, after: World) {
    && after.destId == before.destId
    && after.dest.Keys == before.dest.Keys
    && after.src.id == before.src.id
    && after.src.otherSubentries == before.src.otherSubentries
    && (forall a :: Total(after, a) == Total(before, a))
  }

  /**
   * `s` is part-way through closing the trustlines `orig` from the front:
   * `paid` says that the first of them has been emptied but not yet removed.
   */
  ghost predicate Midway(orig: seq<Line>, s: Source, paid: bool) {
    && |s.lines| <= |orig|
    && var j := |orig| - |s.lines|;
       if paid
       then && s.offers == []
            && j < |orig|
            && orig[j].balance > 0
            && s.lines == [orig[j].(balance := 0)] + orig[j + 1..]
       else s.lines == orig[j..]
  }

  /** Offers are cancelled from the front, entries only disappear, and the native balance stays. */
  ghost predicate Shrinks(before: Source, after: Source) {
    && after.native == before.native
    && after.sequence == before.sequence
    && Subentries(after) <= Subentries(before)
    && |after.offers| <= |before.offers|
    && after.offers == before.offers[|before.offers| - |after.offers|..]
  }

  /** What a run keeps to: it stands part-way through the lines, and took nothing it should not. */
  ghost predicate KeepsTo(w: World, after: World, orig: seq<Line>, paid: bool) {
    && DestinationReady(after)
    && Conserves(w, after)
    && Shrinks(w.src, after.src)
    && Midway(orig, after.src, paid)
  }

  /** Every operation but a payment takes a subentry away. */
  function Frees(op: Op): nat {
    if op.Payment? then 0 else 1
  }

  function Freed(ops: seq<Op>): nat {
    if ops == [] then 0 else Frees(ops[0]) + Freed(ops[1..])
  }

  /** `next` is `w` after the first operation of its program, which was accepted. */
  ghost predicate OneOpRan(w: World, next: World, show: nat -> string, orig: seq<Line>) {
    && Ahead(w, show) != []
    && ApplyOp(w, Ahead(w, show)[0]) == Some(next)
    && Ahead(next, show) == Ahead(w, show)[1..]
    && Subentries(next.src) + Frees(Ahead(w, show)[0]) == Subentries(w.src)
    && KeepsTo(w, next, orig, Ahead(w, show)[0].Payment?)
  }

  /** The first `n` operations of `program`, that of `w`, took it to `after`, which has the rest ahead. */
  ghost predicate OpsRan(w: World, after: World, show: nat -> string, orig: seq<Line>, paid: bool,
                         program: seq<Op>, n: nat) {
    && n <= |program|
    && ApplyOps(w, program[..n]) == Some(after)
    && Ahead(after, show) == program[n..]
    && Subentries(after.src) + Freed(program[..n]) == Subentries(w.src)
    && KeepsTo(w, after, orig, JustPaid(program, n, paid))
  }

  /** Whether a run that has done the first `n` operations has just paid out a line. */
  predicate JustPaid(program: seq<Op>, n: nat, paid: bool)
    requires n <= |program|
  {
    if n == 0 then paid else program[n - 1].Payment?
  }

  /** The account can pay for the next transaction of `program`, its reserve and what its offers lock set aside. */
  ghost predicate Covers(s: Source, program: seq<Op>) {
    program != [] ==> Spendable(s) >= BASE_FEE * Take(program)
  }

  /** The account can pay for the first transaction of its cleanup. */
  ghost predicate Funded(w: World, show: nat -> string) {
    Covers(w.src, Ahead(w, show))
  }

  /** `after` is `w` once `txs` transactions of `ops` operations in all have run. */
  ghost predicate Advanced(w: World, after: World, txs: nat, ops: nat) {
    && Conserves(w, after)
    && after.src.native == w.src.native - BASE_FEE * ops
    && after.src.sequence == w.src.sequence + txs
    && |after.src.offers| <= |w.src.offers|
    && Subentries(after.src) <= Subentries(w.src)
  }

  // ---- Transactions, by where in the program they start ----

  /** Where the transaction ends that starts at operation `i`. */
  function TxEnd(program: seq<Op>, i: nat): (end: nat)
    requires i <= |program|
    ensures i <= end <= |program| && (i < |program| ==> i < end)
  {
    if i + OPS_PER_TX < |program| then i + OPS_PER_TX else |program|
  }

  /** Whether a run that stands at operation `i` has just paid out a line. */
  predicate PaidAt(program: seq<Op>, i: nat) {
    0 < i <= |program| && program[i - 1].Payment?
  }

  /** At most `k` transactions, from operation `i` on. */
  function FirstSteps(program: seq<Op>, i: nat, sequence: int, hash: Tx -> string, k: nat): (steps: seq<CleanupStep>)
    requires i <= |program|
    ensures |steps| <= k
    decreases k
  {
    if k == 0 || i == |program| then []
    else
      var tx := Tx(sequence + 1, program[i..TxEnd(program, i)]);
      [CleanupStep(tx, hash(tx))] + FirstSteps(program, TxEnd(program, i), sequence + 1, hash, k - 1)
  }

  /** Where they end. */
  function OffsetAfter(program: seq<Op>, i: nat, k: nat): (end: nat)
    requires i <= |program|
    ensures i <= end <= |program|
    decreases k
  {
    if k == 0 || i == |program| then i else OffsetAfter(program, TxEnd(program, i), k - 1)
  }

  /** Everything the transaction that starts at operation `i` needs. */
  ghost predicate Runnable(w: World, show: nat -> string, orig: seq<Line>, program: seq<Op>, i: nat) {
    && i <= |program| && Ahead(w, show) == program[i..]
    && DestinationReady(w) && Midway(orig, w.src, PaidAt(program, i)) && Covers(w.src, program[i..])
  }

  /** What makes a world ready to run a program from an operation on. */
  type Readiness = (World, nat) -> bool

  /** The transaction that starts at operation `i` was accepted and took `w` to `after`, which is ready for the next. */
  ghost predicate OneTxRan(ready: Readiness, w: World, after: World, program: seq<Op>, i: nat) {
    && i < |program|
    && ApplyTx(w, Tx(w.src.sequence + 1, program[i..TxEnd(program, i)])) == Some(after)
    && Advanced(w, after, 1, TxEnd(program, i) - i)
    && ready(after, TxEnd(program, i))
  }

  /** Marks where a run uses that being ready is enough. */
  ghost predicate Here(w: World, i: nat) { true }

  /** Being ready is enough for one transaction. */
  ghost predicate Runs(ready: Readiness, program: seq<Op>) {
    forall w, i: nat {:trigger Here(w, i)} | Here(w, i) && i < |program| && ready(w, i) ::
      exists after :: OneTxRan(ready, w, after, program, i)
  }

  /** At most `k` transactions from operation `i` on were accepted and took `w` to `after`. */
  ghost predicate TxsRan(w: World, after: World, program: seq<Op>, i: nat, hash: Tx -> string, k: nat) {
    && i <= |program|
    && ApplyTxs(w, FirstSteps(program, i, w.src.sequence, hash, k)) == Some(after)
    && Advanced(w, after, |FirstSteps(program, i, w.src.sequence, hash, k)|, OffsetAfter(program, i, k) - i)
  }
}
