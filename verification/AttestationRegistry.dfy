/**
 * The attestation registry (contracts/attestation-registry/src/lib.rs): one
 * attestor, one time-bounded record per contract, and the storage lifetime of
 * each record.
 */
module AttestationRegistry {
  import opened Wrappers
  import opened ThresholdAttestor

  const MAX_ATTESTATION_LEDGERS: nat := 60 * 60 * 24 * 365 / 5
  const TTL_BUFFER: nat := 60 * 60 * 24 / 5 * 7

  datatype Attestation = Attestation(
    wasmHash: Hash, attestedLedger: nat, expiresLedger: nat, publisher: Option<Hash>)

  /** A persistent storage entry: readable up to and including ledger `liveUntil`. */
  datatype Entry = Entry(attestation: Attestation, liveUntil: nat)

  datatype Registry = Registry(attestor: Address, entries: map<Address, Entry>)

  /** How many ledgers past the current one the network keeps a new entry, and any entry at most. */
  datatype Lifetimes = Lifetimes(minimum: nat, maximum: nat)

  datatype RegistryError = NotAuthorized | InvalidExpiry

  // ---- What one call does ----

  predicate ExpiryOk(now: nat, expires: nat) {
    now < expires <= now + MAX_ATTESTATION_LEDGERS
  }

  function Least(a: int, b: int): int {
    if a <= b then a else b
  }

  /** Extending a TTL to `liveFor` ledgers, or as many as the network allows, when less than that is left. */
  function ExtendTtl(now: nat, liveUntil: nat, liveFor: nat, maximum: nat): nat {
    if liveUntil < now + Least(liveFor, maximum) then now + Least(liveFor, maximum) else liveUntil
  }

  /** The lifetime of the entry a write finds or creates; a new one lives for the network's minimum. */
  function LiveUntilBefore(r: Registry, contract: Address, now: nat, minimum: nat): nat {
    if contract in r.entries && now <= r.entries[contract].liveUntil
    then r.entries[contract].liveUntil else now + minimum
  }

  function Written(r: Registry, now: nat, ttl: Lifetimes, contract: Address, wasmHash: Hash,
                   expires: nat, publisher: Option<Hash>): Registry
    requires ExpiryOk(now, expires)
  {
    var liveFor := expires - now + TTL_BUFFER;
    r.(entries := r.entries[contract :=
      Entry(Attestation(wasmHash, now, expires, publisher),
            ExtendTtl(now, LiveUntilBefore(r, contract, now, ttl.minimum), liveFor, ttl.maximum))])
  }

  /** The calls of the registry; any other call leaves it alone. */
  function Apply(r: Registry, now: nat, ttl: Lifetimes, authorized: bool, call: Call): Result<Registry, RegistryError> {
    match call
    case Upsert(contract, wasmHash, expires) => Write(r, now, ttl, authorized, contract, wasmHash, expires, None)
    case UpsertWithPublisher(contract, wasmHash, publisher, expires) =>
      Write(r, now, ttl, authorized, contract, wasmHash, expires, Some(publisher))
    case Revoke(contract) =>
      if authorized then Success(r.(entries := r.entries - {contract})) else Failure(NotAuthorized)
    case SetAttestor(newAttestor) =>
      if authorized then Success(r.(attestor := newAttestor)) else Failure(NotAuthorized)
    case SetSigners(_, _, _) => Success(r)
    case AnyCall(_, _) => Success(r)
  }

  function Write(r: Registry, now: nat, ttl: Lifetimes, authorized: bool, contract: Address, wasmHash: Hash,
                 expires: nat, publisher: Option<Hash>): Result<Registry, RegistryError>
  {
    if !authorized then Failure(NotAuthorized)
    else if !ExpiryOk(now, expires) then Failure(InvalidExpiry)
    else Success(Written(r, now, ttl, contract, wasmHash, expires, publisher))
  }

  function After(r: Registry, now: nat, ttl: Lifetimes, authorized: bool, call: Call): Registry {
    var next := Apply(r, now, ttl, authorized, call);
    if next.Success? then next.value else r
  }

  /** Reading an archived entry fails the invocation; that is `None`. */
  function IsVerified(r: Registry, now: nat, contract: Address): Option<bool> {
    if contract !in r.entries then Some(false)
    else if now > r.entries[contract].liveUntil then None
    else Some(now < r.entries[contract].attestation.expiresLedger)
  }

  function PublisherOf(r: Registry, now: nat, contract: Address): Option<Option<Hash>> {
    if contract !in r.entries then Some(None)
    else if now > r.entries[contract].liveUntil then None
    else if now < r.entries[contract].attestation.expiresLedger then Some(r.entries[contract].attestation.publisher)
    else Some(None)
  }

  /**
   * A write succeeds exactly when the attestor authorized it and it expires after
   * this ledger and within 6,307,200 ledgers; lack of authority is noticed first.
   * It sets one record, and never shortens the time an entry is kept.
   */
  lemma WriteIsExact(r: Registry, now: nat, ttl: Lifetimes, authorized: bool, contract: Address, wasmHash: Hash,
                     expires: nat, publisher: Option<Hash>)
    ensures var w := Write(r, now, ttl, authorized, contract, wasmHash, expires, publisher);
      && (w.Success? <==> authorized && now < expires && expires - now <= 6_307_200)
      && (!authorized ==> w == Failure(NotAuthorized))
      && (authorized && w.Failure? ==> w == Failure(InvalidExpiry))
      && (w.Success? ==>
            && w.value.attestor == r.attestor
            && w.value.entries.Keys == r.entries.Keys + {contract}
            && (forall c :: c in r.entries && c != contract ==> w.value.entries[c] == r.entries[c])
            && w.value.entries[contract].attestation == Attestation(wasmHash, now, expires, publisher)
            && (contract in r.entries && now <= r.entries[contract].liveUntil ==>
                  w.value.entries[contract].liveUntil >= r.entries[contract].liveUntil))
  {
  }

  // ---- The contract ----

  class Contract {
    var attestor: Address
    var entries: map<Address, Entry>

    function State(): Registry
      reads this
    {
      Registry(attestor, entries)
    }

    constructor (attestor: Address)
      ensures State() == Registry(attestor, map[])
    {
      this.attestor := attestor;
      entries := map[];
    }

    method WriteAttestation(now: nat, ttl: Lifetimes, authorizers: set<Address>, contract: Address, wasmHash: Hash,
                            expires: nat, publisher: Option<Hash>) returns (r: Result<(), RegistryError>)
      modifies this
      ensures var outcome :=
          Write(old(State()), now, ttl, old(attestor) in authorizers, contract, wasmHash, expires, publisher);
        && (r.Success? <==> outcome.Success?)
        && (r.Failure? ==> r.error == outcome.error)
        && State() == if outcome.Success? then outcome.value else old(State())
    {
      if attestor !in authorizers {
        return Failure(NotAuthorized);
      }
      if expires <= now || expires - now > MAX_ATTESTATION_LEDGERS {
        return Failure(InvalidExpiry);
      }
      var liveUntil := LiveUntilBefore(State(), contract, now, ttl.minimum);
      entries := entries[contract := Entry(Attestation(wasmHash, now, expires, publisher), liveUntil)];
      var liveFor := expires - now + TTL_BUFFER;
      entries := entries[contract := entries[contract].(liveUntil := ExtendTtl(now, liveUntil, liveFor, ttl.maximum))];
      return Success(());
    }

    method RevokeAttestation(ghost now: nat, ghost ttl: Lifetimes, authorizers: set<Address>, contract: Address)
      returns (r: Result<(), RegistryError>)
      modifies this
      ensures State() == After(old(State()), now, ttl, old(attestor) in authorizers, Revoke(contract))
      ensures r.Success? <==> old(attestor) in authorizers
    {
      if attestor !in authorizers {
        return Failure(NotAuthorized);
      }
      entries := entries - {contract};
      return Success(());
    }

    method RotateAttestor(ghost now: nat, ghost ttl: Lifetimes, authorizers: set<Address>, newAttestor: Address)
      returns (r: Result<(), RegistryError>)
      modifies this
      ensures State() == After(old(State()), now, ttl, old(attestor) in authorizers, SetAttestor(newAttestor))
      ensures r.Success? <==> old(attestor) in authorizers
    {
      if attestor !in authorizers {
        return Failure(NotAuthorized);
      }
      attestor := newAttestor;
      return Success(());
    }
  }

  // ---- Runs and their log ----

  /** One invocation: the ledger it runs in, the addresses that authorized it, the call. */
  datatype Event = Event(now: nat, authorizers: set<Address>, call: Call)

  function Run(r: Registry, ttl: Lifetimes, events: seq<Event>): Registry {
    if events == [] then r
    else
      var before := Run(r, ttl, events[..|events| - 1]);
      var e := events[|events| - 1];
      After(before, e.now, ttl, before.attestor in e.authorizers, e.call)
  }

  /** Who may write after these events, read off the rotations alone. */
  function AttestorAfter(first: Address, events: seq<Event>): Address {
    if events == [] then first
    else
      var current := AttestorAfter(first, events[..|events| - 1]);
      var e := events[|events| - 1];
      if e.call.SetAttestor? && current in e.authorizers then e.call.newAttestor else current
  }

  /** What a successful write says, if `call` writes `contract`. */
  function WriteOf(e: Event, contract: Address): Option<Attestation> {
    match e.call
    case Upsert(c, hash, expires) =>
      if c == contract && ExpiryOk(e.now, expires) then Some(Attestation(hash, e.now, expires, None)) else None
    case UpsertWithPublisher(c, hash, publisher, expires) =>
      if c == contract && ExpiryOk(e.now, expires) then Some(Attestation(hash, e.now, expires, Some(publisher))) else None
    case _ => None
  }

  /** The log: what the last authorized write or revocation for a contract left, found backwards. */
  function LastWrite(first: Address, events: seq<Event>, contract: Address): Option<Attestation> {
    if events == [] then None
    else
      var earlier := events[..|events| - 1];
      var e := events[|events| - 1];
      if AttestorAfter(first, earlier) !in e.authorizers then LastWrite(first, earlier, contract)
      else if e.call == Revoke(contract) then None
      else if WriteOf(e, contract).Some? then WriteOf(e, contract)
      else LastWrite(first, earlier, contract)
  }

  /** How long past its own ledger a record has to be kept: to its expiry and the buffer. */
  function Needed(a: Attestation): int {
    a.expiresLedger - a.attestedLedger + TTL_BUFFER
  }

  /** Every entry is kept as long as its record needs, or as long as the network allows. */
  ghost predicate Covered(r: Registry, ttl: Lifetimes) {
    forall c :: c in r.entries ==>
      var a := r.entries[c].attestation;
      r.entries[c].liveUntil >= a.attestedLedger + Least(Needed(a), ttl.maximum)
  }

  lemma {:induction false} AttestorEqualsLog(first: Address, ttl: Lifetimes, events: seq<Event>)
    ensures Run(Registry(first, map[]), ttl, events).attestor == AttestorAfter(first, events)
  {
    if events != [] { AttestorEqualsLog(first, ttl, events[..|events| - 1]); }
  }

  function RecordOf(r: Registry, c: Address): Option<Attestation> {
    if c in r.entries then Some(r.entries[c].attestation) else None
  }

  lemma {:induction false} RecordEqualsLog(first: Address, ttl: Lifetimes, events: seq<Event>, c: Address)
    ensures RecordOf(Run(Registry(first, map[]), ttl, events), c) == LastWrite(first, events, c)
  {
    if events != [] {
      var earlier := events[..|events| - 1];
      AttestorEqualsLog(first, ttl, earlier);
      RecordEqualsLog(first, ttl, earlier, c);
    }
  }

  lemma EventKeepsCovered(r: Registry, ttl: Lifetimes, e: Event)
    requires Covered(r, ttl)
    ensures Covered(After(r, e.now, ttl, r.attestor in e.authorizers, e.call), ttl)
  {
  }

  lemma {:induction false} EverythingCovered(first: Address, ttl: Lifetimes, events: seq<Event>)
    ensures Covered(Run(Registry(first, map[]), ttl, events), ttl)
  {
    if events != [] {
      var n := |events| - 1;
      EverythingCovered(first, ttl, events[..n]);
      EventKeepsCovered(Run(Registry(first, map[]), ttl, events[..n]), ttl, events[n]);
    }
  }

  /** The registry equals its log, whatever the order and the ledgers of the calls. */
  lemma RegistryEqualsLog(first: Address, ttl: Lifetimes, events: seq<Event>)
    ensures var r := Run(Registry(first, map[]), ttl, events);
      && r.attestor == AttestorAfter(first, events)
      && Covered(r, ttl)
      && (forall c :: LastWrite(first, events, c) == RecordOf(r, c))
  {
    AttestorEqualsLog(first, ttl, events);
    EverythingCovered(first, ttl, events);
    forall c ensures LastWrite(first, events, c) == RecordOf(Run(Registry(first, map[]), ttl, events), c) {
      RecordEqualsLog(first, ttl, events, c);
    }
  }

  /** A record in the log was written at its own ledger, for at most the maximum lifetime. */
  lemma {:induction false} LoggedExpiry(first: Address, events: seq<Event>, c: Address)
    requires LastWrite(first, events, c).Some?
    ensures var a := LastWrite(first, events, c).value;
      && ExpiryOk(a.attestedLedger, a.expiresLedger)
      && exists i :: 0 <= i < |events| && events[i].now == a.attestedLedger && WriteOf(events[i], c) == Some(a)
  {
    var last := |events| - 1;
    var e := events[last];
    var earlier := events[..last];
    if AttestorAfter(first, earlier) in e.authorizers && WriteOf(e, c).Some? {
      assert WriteOf(events[last], c) == LastWrite(first, events, c);
    } else {
      LoggedExpiry(first, earlier, c);
      var a := LastWrite(first, events, c).value;
      var i :| 0 <= i < |earlier| && earlier[i].now == a.attestedLedger && WriteOf(earlier[i], c) == Some(a);
      assert events[i] == earlier[i];
    }
  }

  /**
   * The views agree with the last authorized write for the contract and its
   * expiry. A view fails only for an archived record, and a record is archived
   * only when it is past its expiry by more than the buffer, or older than the
   * network keeps any entry.
   */
  lemma ViewsAgreeWithLog(first: Address, ttl: Lifetimes, events: seq<Event>, now: nat, c: Address)
    ensures var r := Run(Registry(first, map[]), ttl, events);
      var last := LastWrite(first, events, c);
      var live := last.Some? && now < last.value.expiresLedger;
      && (live && now <= last.value.attestedLedger + ttl.maximum ==>
            IsVerified(r, now, c) == Some(true) && PublisherOf(r, now, c) == Some(last.value.publisher))
      && (!live ==> IsVerified(r, now, c) != Some(true) && (PublisherOf(r, now, c).Some? ==> PublisherOf(r, now, c).value.None?))
      && (IsVerified(r, now, c).None? <==> PublisherOf(r, now, c).None?)
      && (IsVerified(r, now, c).None? ==>
            last.Some? && now > last.value.attestedLedger + Least(Needed(last.value), ttl.maximum))
  {
    RegistryEqualsLog(first, ttl, events);
  }

  /** The ledgers of the invocations, none after `now`. */
  ghost predicate InOrder(events: seq<Event>, now: nat) {
    && (forall i :: 0 <= i < |events| ==> events[i].now <= now)
    && (forall i, j :: 0 <= i <= j < |events| ==> events[i].now <= events[j].now)
  }

  ghost predicate NoLongerThan(r: Registry, ttl: Lifetimes, now: nat) {
    forall c :: c in r.entries ==>
      r.entries[c].attestation.attestedLedger <= now
      && r.entries[c].liveUntil <= r.entries[c].attestation.attestedLedger + ttl.maximum
  }

  lemma EventKeepsNoLonger(r: Registry, ttl: Lifetimes, e: Event, before: nat)
    requires ttl.minimum <= ttl.maximum && NoLongerThan(r, ttl, before) && before <= e.now
    ensures NoLongerThan(After(r, e.now, ttl, r.attestor in e.authorizers, e.call), ttl, e.now)
  {
  }

  lemma {:induction false} NothingKeptLonger(first: Address, ttl: Lifetimes, events: seq<Event>, now: nat)
    requires ttl.minimum <= ttl.maximum && InOrder(events, now)
    ensures NoLongerThan(Run(Registry(first, map[]), ttl, events), ttl, now)
  {
    if events != [] {
      var n := |events| - 1;
      NothingKeptLonger(first, ttl, events[..n], events[n].now);
      EventKeepsNoLonger(Run(Registry(first, map[]), ttl, events[..n]), ttl, events[n], events[n].now);
    }
  }

  /**
   * With ledgers in order, a record is kept to its expiry and the buffer exactly
   * when the network keeps entries that long, and it can be read as long as it
   * is live exactly when the network keeps entries until it expires.
   */
  lemma KeptPastExpiryIff(first: Address, ttl: Lifetimes, events: seq<Event>, c: Address, latest: nat)
    requires ttl.minimum <= ttl.maximum && InOrder(events, latest)
    requires LastWrite(first, events, c).Some?
    ensures var r := Run(Registry(first, map[]), ttl, events);
      var last := LastWrite(first, events, c).value;
      && c in r.entries
      && (r.entries[c].liveUntil >= last.expiresLedger + 120_960
          <==> last.expiresLedger - last.attestedLedger + 120_960 <= ttl.maximum)
      && ((forall now: nat :: now < last.expiresLedger ==> IsVerified(r, now, c) == Some(true))
          <==> last.expiresLedger - last.attestedLedger <= ttl.maximum + 1)
  {
    var r := Run(Registry(first, map[]), ttl, events);
    var last := LastWrite(first, events, c).value;
    RegistryEqualsLog(first, ttl, events);
    NothingKeptLonger(first, ttl, events, latest);
    LoggedExpiry(first, events, c);
    assert last.attestedLedger + Least(Needed(last), ttl.maximum) <= r.entries[c].liveUntil
        <= last.attestedLedger + ttl.maximum;
    if last.expiresLedger - last.attestedLedger > ttl.maximum + 1 {
      assert IsVerified(r, last.expiresLedger - 1, c).None?;
    }
  }

  /** Where entries are kept for 6,312,000 ledgers, a record for the longest time loses most of its buffer. */
  lemma LongestRecordLosesBuffer(attestor: Address, ttl: Lifetimes, now: nat, c: Address, hash: Hash)
    requires ttl == Lifetimes(4_095, 6_311_999)
    ensures var expires := now + MAX_ATTESTATION_LEDGERS;
      var r := Run(Registry(attestor, map[]), ttl, [Event(now, {attestor}, Upsert(c, hash, expires))]);
      c in r.entries && r.entries[c].attestation.expiresLedger == expires
      && r.entries[c].liveUntil == expires + 4_799 < expires + TTL_BUFFER
  {
    var e := Event(now, {attestor}, Upsert(c, hash, now + MAX_ATTESTATION_LEDGERS));
    var r := RunAppend(Registry(attestor, map[]), ttl, [], e);
    assert [] + [e] == [e];
  }

  /** Silence decays: this long after its last write a contract is not verified, with nobody revoking it. */
  lemma {:induction false} SilenceDecays(first: Address, ttl: Lifetimes, events: seq<Event>, now: nat, c: Address)
    requires LastWrite(first, events, c).Some? ==>
      LastWrite(first, events, c).value.attestedLedger + 6_307_200 <= now
    ensures IsVerified(Run(Registry(first, map[]), ttl, events), now, c) != Some(true)
  {
    ViewsAgreeWithLog(first, ttl, events, now, c);
    if LastWrite(first, events, c).Some? {
      LoggedExpiry(first, events, c);
    }
  }

  /**
   * Same-ledger conflict: after a rotation the old attestor's write fails and
   * the new attestor's conflicting write is the one that stands, although all
   * of them share a ledger.
   */
  lemma LastWriterWins(r: Registry, ttl: Lifetimes, now: nat, a: Address, b: Address, contract: Address,
                       hashA: Hash, hashB: Hash, expires: nat, before: seq<Event>)
    requires Run(r, ttl, before).attestor == a && a != b && ExpiryOk(now, expires)
    ensures var events := before + [
        Event(now, {a}, Upsert(contract, hashA, expires)),
        Event(now, {a}, SetAttestor(b)),
        Event(now, {b}, Upsert(contract, hashB, expires)),
        Event(now, {a}, Upsert(contract, hashA, expires))];
      var after := Run(r, ttl, events);
      after.attestor == b && contract in after.entries && after.entries[contract].attestation.wasmHash == hashB
  {
    var e0 := Event(now, {a}, Upsert(contract, hashA, expires));
    var e1 := Event(now, {a}, SetAttestor(b));
    var e2 := Event(now, {b}, Upsert(contract, hashB, expires));
    var r1 := RunAppend(r, ttl, before, e0);
    var r2 := RunAppend(r, ttl, before + [e0], e1);
    var r3 := RunAppend(r, ttl, before + [e0] + [e1], e2);
    var r4 := RunAppend(r, ttl, before + [e0] + [e1] + [e2], e0);
    assert before + [e0, e1, e2, e0] == before + [e0] + [e1] + [e2] + [e0];
  }

  lemma RunAppend(r: Registry, ttl: Lifetimes, events: seq<Event>, e: Event) returns (after: Registry)
    ensures after == Run(r, ttl, events + [e])
    ensures var before := Run(r, ttl, events);
      after == After(before, e.now, ttl, before.attestor in e.authorizers, e.call)
  {
    assert (events + [e])[..|events + [e]| - 1] == events;
    after := Run(r, ttl, events + [e]);
  }
}
