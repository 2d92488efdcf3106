/**
 * The M-of-N attestor account (contracts/threshold-attestor/src/lib.rs).
 * Ed25519 is abstract: `verify(key, payload, signature)`.
 */
module ThresholdAttestor {
  import opened Wrappers

  type Address = string
  type Key = seq<int>
  type Hash = seq<int>

  const MAX_SIGNERS := 32

  datatype ThresholdError = InvalidThreshold | InvalidSigners | InsufficientSignatures | InvalidSignerIndex | DuplicateSigner

  /** The calls that ask for authorization, and any other call by its name. */
  datatype Call =
    | Upsert(contract: Address, wasmHash: Hash, expiresLedger: nat)
    | UpsertWithPublisher(contract: Address, wasmHash: Hash, publisher: Hash, expiresLedger: nat)
    | Revoke(contract: Address)
    | SetAttestor(newAttestor: Address)
    | SetSigners(newThreshold: nat, newSigners: seq<Key>, newRevokeThreshold: Option<nat>)
    | AnyCall(name: string, arguments: seq<int>)

  function FnName(call: Call): string {
    match call
    case Upsert(_, _, _) => "upsert"
    case UpsertWithPublisher(_, _, _, _) => "upsert_with_publisher"
    case Revoke(_) => "revoke"
    case SetAttestor(_) => "set_attestor"
    case SetSigners(_, _, _) => "set_signers"
    case AnyCall(name, _) => name
  }

  datatype Context = ContractCall(target: Address, call: Call) | CreateContract

  /** What a signature covers: everything the authorization entry authorizes. */
  datatype Payload = Payload(nonce: nat, contexts: seq<Context>)

  datatype SignerSignature<S> = SignerSignature(index: nat, signature: S)

  datatype Config = Config(threshold: nat, revokeThreshold: nat, signers: seq<Key>)

  datatype AuthOutcome = Authorized | Rejected(error: ThresholdError) | Panicked

  // ---- Configurations ----

  ghost predicate Distinct(keys: seq<Key>) {
    forall i, j :: 0 <= i < j < |keys| ==> keys[i] != keys[j]
  }

  ghost predicate ValidConfig(c: Config) {
    && 1 <= |c.signers| <= 32
    && 1 <= c.threshold <= |c.signers|
    && 1 <= c.revokeThreshold <= |c.signers|
    && Distinct(c.signers)
  }

  ghost function Validated(threshold: nat, signers: seq<Key>, revokeThreshold: Option<nat>): Result<Config, ThresholdError> {
    var n := |signers|;
    if n == 0 || n > MAX_SIGNERS then Failure(InvalidSigners)
    else if threshold == 0 || threshold > n then Failure(InvalidThreshold)
    else if !Distinct(signers) then Failure(DuplicateSigner)
    else if revokeThreshold.Some? && (revokeThreshold.value == 0 || revokeThreshold.value > n) then Failure(InvalidThreshold)
    else Success(Config(threshold, if revokeThreshold.Some? then revokeThreshold.value else threshold, signers))
  }

  /** Validation accepts exactly the valid configurations. */
  lemma ValidatedIsExact(threshold: nat, signers: seq<Key>, revokeThreshold: Option<nat>)
    ensures var asked := Config(threshold, if revokeThreshold.Some? then revokeThreshold.value else threshold, signers);
      Validated(threshold, signers, revokeThreshold) == Success(asked) <==> ValidConfig(asked)
    ensures var r := Validated(threshold, signers, revokeThreshold);
      r.Success? ==> ValidConfig(r.value)
  {
  }

  method ValidateConfig(threshold: nat, signers: seq<Key>, revokeThreshold: Option<nat>)
    returns (r: Result<Config, ThresholdError>)
    ensures r == Validated(threshold, signers, revokeThreshold)
  {
    var n := |signers|;
    if n == 0 || n > MAX_SIGNERS {
      return Failure(InvalidSigners);
    }
    if threshold == 0 || threshold > n {
      return Failure(InvalidThreshold);
    }
    for i := 0 to n
      invariant forall a, b :: 0 <= a < i && a < b < n ==> signers[a] != signers[b]
    {
      for j := i + 1 to n
        invariant forall b :: i < b < j ==> signers[i] != signers[b]
      {
        if signers[i] == signers[j] {
          return Failure(DuplicateSigner);
        }
      }
    }
    var revoke := threshold;
    if revokeThreshold.Some? {
      revoke := revokeThreshold.value;
      if revoke == 0 || revoke > n {
        return Failure(InvalidThreshold);
      }
    }
    return Success(Config(threshold, revoke, signers));
  }

  // ---- Authorization ----

  predicate IsRevoke(c: Context) {
    c.ContractCall? && FnName(c.call) == "revoke"
  }

  ghost predicate AllRevoke(contexts: seq<Context>) {
    contexts != [] && forall i :: 0 <= i < |contexts| ==> IsRevoke(contexts[i])
  }

  method IsAllRevoke(contexts: seq<Context>) returns (r: bool)
    ensures r <==> AllRevoke(contexts)
  {
    if |contexts| == 0 {
      return false;
    }
    for i := 0 to |contexts|
      invariant forall k :: 0 <= k < i ==> IsRevoke(contexts[k])
    {
      if !IsRevoke(contexts[i]) {
        return false;
      }
    }
    return true;
  }

  ghost function Required(c: Config, contexts: seq<Context>): nat {
    if AllRevoke(contexts) then c.revokeThreshold else c.threshold
  }

  /** The index of signature `i` names a signer beyond the previous one's. */
  predicate IndexOk<S>(c: Config, sigs: seq<SignerSignature<S>>, i: nat)
    requires i < |sigs|
  {
    (i > 0 ==> sigs[i - 1].index < sigs[i].index) && sigs[i].index < |c.signers|
  }

  predicate SignatureOk<S>(c: Config, p: Payload, sigs: seq<SignerSignature<S>>, verify: (Key, Payload, S) -> bool, i: nat)
    requires i < |sigs|
  {
    IndexOk(c, sigs, i) && verify(c.signers[sigs[i].index], p, sigs[i].signature)
  }

  /** The list is long enough and every signature in it is in order and valid. */
  ghost predicate Accepts<S>(
      c: Config, p: Payload, sigs: seq<SignerSignature<S>>, verify: (Key, Payload, S) -> bool)
  {
    |sigs| >= Required(c, p.contexts) && forall i :: 0 <= i < |sigs| ==> SignatureOk(c, p, sigs, verify, i)
  }

  /** The smart account: instance storage and `__check_auth`. */
  class Account {
    var threshold: nat
    var revokeThreshold: nat
    var signers: seq<Key>

    ghost function State(): Config
      reads this
    {
      Config(threshold, revokeThreshold, signers)
    }

    /** A deployment succeeds only with a valid configuration. */
    constructor (config: Config)
      requires ValidConfig(config)
      ensures State() == config
    {
      threshold, revokeThreshold, signers := config.threshold, config.revokeThreshold, config.signers;
    }

    method CheckAuth<S(==)>(p: Payload, sigs: seq<SignerSignature<S>>, verify: (Key, Payload, S) -> bool)
      returns (r: AuthOutcome)
      ensures r == Authorized <==> Accepts(State(), p, sigs, verify)
      ensures |sigs| < Required(State(), p.contexts) ==> r == Rejected(InsufficientSignatures)
      ensures |sigs| >= Required(State(), p.contexts) && r != Authorized ==>
        exists i :: 0 <= i < |sigs|
          && (forall k :: 0 <= k < i ==> SignatureOk(State(), p, sigs, verify, k))
          && !SignatureOk(State(), p, sigs, verify, i)
          && r == if IndexOk(State(), sigs, i) then Panicked else Rejected(InvalidSignerIndex)
    {
      var isRevoke := IsAllRevoke(p.contexts);
      var required := if isRevoke then revokeThreshold else threshold;
      if |sigs| < required {
        return Rejected(InsufficientSignatures);
      }
      var lastIndex: Option<nat> := None;
      var validCount := 0;
      for i := 0 to |sigs|
        invariant forall k :: 0 <= k < i ==> SignatureOk(State(), p, sigs, verify, k)
        invariant lastIndex == if i == 0 then None else Some(sigs[i - 1].index)
        invariant validCount == i
      {
        var sig := sigs[i];
        if lastIndex.Some? && sig.index <= lastIndex.value {
          assert !SignatureOk(State(), p, sigs, verify, i);
          return Rejected(InvalidSignerIndex);
        }
        if sig.index >= |signers| {
          assert !SignatureOk(State(), p, sigs, verify, i);
          return Rejected(InvalidSignerIndex);
        }
        lastIndex := Some(sig.index);
        if !verify(signers[sig.index], p, sig.signature) {
          assert !SignatureOk(State(), p, sigs, verify, i);
          return Panicked;
        }
        validCount := validCount + 1;
      }
      if validCount < required {
        return Rejected(InsufficientSignatures);
      }
      return Authorized;
    }

    /** `authorized` is what this account's own `__check_auth` said of the call. */
    method SetSigners(authorized: bool, newThreshold: nat, newSigners: seq<Key>, newRevokeThreshold: Option<nat>)
      returns (ok: bool)
      requires ValidConfig(State())
      modifies this
      ensures ValidConfig(State())
      ensures State() == AfterSetSigners(old(State()), authorized, newThreshold, newSigners, newRevokeThreshold)
      ensures ok <==> authorized && Validated(newThreshold, newSigners, newRevokeThreshold).Success?
    {
      if !authorized {
        return false;
      }
      var config := ValidateConfig(newThreshold, newSigners, newRevokeThreshold);
      if config.Failure? {
        return false;
      }
      ValidatedIsExact(newThreshold, newSigners, newRevokeThreshold);
      threshold, revokeThreshold, signers := config.value.threshold, config.value.revokeThreshold, config.value.signers;
      return true;
    }
  }

  ghost function AfterSetSigners(
      c: Config, authorized: bool, threshold: nat, signers: seq<Key>, revokeThreshold: Option<nat>): Config
  {
    var asked := Validated(threshold, signers, revokeThreshold);
    if authorized && asked.Success? then asked.value else c
  }

  // ---- People, not signatures ----

  /** The configured keys that signed `p`. */
  ghost function SignersOf(c: Config, p: Payload, signed: iset<(Key, Payload)>): (r: set<Key>)
    ensures forall k :: k in r <==> k in c.signers && (k, p) in signed
  {
    set k | k in c.signers && (k, p) in signed
  }

  /** A signature verifies only for a key that signed. */
  ghost predicate Unforgeable<S(!new)>(verify: (Key, Payload, S) -> bool, signed: iset<(Key, Payload)>) {
    forall k, p, s :: verify(k, p, s) ==> (k, p) in signed
  }

  /** Whoever signed can present a signature that verifies. */
  ghost predicate Presentable<S(!new)>(verify: (Key, Payload, S) -> bool, signed: iset<(Key, Payload)>) {
    forall k, p :: (k, p) in signed ==> exists s :: verify(k, p, s)
  }

  function KeyAt<S>(c: Config, sigs: seq<SignerSignature<S>>, i: nat): Option<Key>
    requires i < |sigs|
  {
    if sigs[i].index < |c.signers| then Some(c.signers[sigs[i].index]) else None
  }

  /** The keys behind the first `n` signatures are distinct. */
  lemma {:induction false} PrefixCountsKeys<S(!new)>(
      c: Config, p: Payload, sigs: seq<SignerSignature<S>>, verify: (Key, Payload, S) -> bool, n: nat) returns (keys: set<Key>)
    requires Distinct(c.signers) && n <= |sigs|
    requires forall i :: 0 <= i < |sigs| ==> SignatureOk(c, p, sigs, verify, i)
    ensures |keys| == n
    ensures forall k :: k in keys ==> exists i :: 0 <= i < n && KeyAt(c, sigs, i) == Some(k)
  {
    if n == 0 {
      keys := {};
    } else {
      var before := PrefixCountsKeys(c, p, sigs, verify, n - 1);
      assert SignatureOk(c, p, sigs, verify, n - 1);
      var key := c.signers[sigs[n - 1].index];
      forall i | 0 <= i < n - 1 ensures KeyAt(c, sigs, i) != Some(key) {
        IndicesAscend(c, p, sigs, verify, i, n - 1);
      }
      keys := before + {key};
      forall k | k in keys ensures exists i :: 0 <= i < n && KeyAt(c, sigs, i) == Some(k) {
        if k == key {
          assert KeyAt(c, sigs, n - 1) == Some(key);
        } else {
          var i :| 0 <= i < n - 1 && KeyAt(c, sigs, i) == Some(k);
        }
      }
    }
  }

  lemma {:induction false} IndicesAscend<S(!new)>(
      c: Config, p: Payload, sigs: seq<SignerSignature<S>>, verify: (Key, Payload, S) -> bool, i: nat, j: nat)
    requires i < j < |sigs|
    requires forall k :: 0 <= k < |sigs| ==> SignatureOk(c, p, sigs, verify, k)
    ensures sigs[i].index < sigs[j].index < |c.signers|
    decreases j
  {
    assert SignatureOk(c, p, sigs, verify, j);
    if i < j - 1 {
      IndicesAscend(c, p, sigs, verify, i, j - 1);
    }
  }

  /** An accepted list means that at least the required number of distinct configured keys signed. */
  lemma AcceptedMeansEnoughSigners<S(!new)>(
      c: Config, p: Payload, sigs: seq<SignerSignature<S>>, verify: (Key, Payload, S) -> bool, signed: iset<(Key, Payload)>)
    requires Distinct(c.signers) && Unforgeable(verify, signed)
    requires Accepts(c, p, sigs, verify)
    ensures |SignersOf(c, p, signed)| >= Required(c, p.contexts)
  {
    var keys := PrefixCountsKeys(c, p, sigs, verify, |sigs|);
    forall k | k in keys ensures k in SignersOf(c, p, signed) {
      var i :| 0 <= i < |sigs| && KeyAt(c, sigs, i) == Some(k);
      assert SignatureOk(c, p, sigs, verify, i);
    }
    SubsetCard(keys, SignersOf(c, p, signed));
  }

  lemma {:induction false} SubsetCard<T>(a: set<T>, b: set<T>)
    requires a <= b
    ensures |a| <= |b|
    decreases |a|
  {
    if a != {} {
      var x :| x in a;
      SubsetCard(a - {x}, b - {x});
    }
  }

  lemma OneMoreAmong(c: Config, p: Payload, signed: iset<(Key, Payload)>, n: nat)
    requires 0 < n <= |c.signers|
    ensures |set k | k in c.signers[..n] && (k, p) in signed|
         <= |set k | k in c.signers[..n - 1] && (k, p) in signed| + if (c.signers[n - 1], p) in signed then 1 else 0
  {
    var key := c.signers[n - 1];
    var among := set k | k in c.signers[..n] && (k, p) in signed;
    var earlier := set k | k in c.signers[..n - 1] && (k, p) in signed;
    assert c.signers[..n] == c.signers[..n - 1] + [key];
    if (key, p) in signed {
      SubsetCard(among, earlier + {key});
    } else {
      assert among == earlier;
    }
  }

  /** The signatures of everyone among the first `n` signers who signed, in index order. */
  lemma {:induction false} ListInOrder<S(!new)>(
      c: Config, p: Payload, verify: (Key, Payload, S) -> bool, signed: iset<(Key, Payload)>, n: nat)
      returns (sigs: seq<SignerSignature<S>>)
    requires n <= |c.signers| && Presentable(verify, signed)
    ensures forall i :: 0 <= i < |sigs| ==> SignatureOk(c, p, sigs, verify, i) && sigs[i].index < n
    ensures |sigs| >= |set k | k in c.signers[..n] && (k, p) in signed|
  {
    if n == 0 {
      sigs := [];
    } else {
      var earlier := ListInOrder(c, p, verify, signed, n - 1);
      var key := c.signers[n - 1];
      OneMoreAmong(c, p, signed, n);
      if (key, p) in signed {
        var s :| verify(key, p, s);
        sigs := earlier + [SignerSignature(n - 1, s)];
        forall i | 0 <= i < |sigs| ensures SignatureOk(c, p, sigs, verify, i) && sigs[i].index < n {
          if i < |earlier| { assert SignatureOk(c, p, earlier, verify, i); }
        }
      } else {
        sigs := earlier;
      }
    }
  }

  /**
   * `__check_auth` counts people: with distinct keys, a payload can be
   * authorized if and only if at least the required number of configured keys
   * signed it.
   */
  lemma AuthorizationCountsPeople<S(!new)>(
      c: Config, p: Payload, verify: (Key, Payload, S) -> bool, signed: iset<(Key, Payload)>)
    requires ValidConfig(c) && Unforgeable(verify, signed) && Presentable(verify, signed)
    ensures (exists sigs :: Accepts(c, p, sigs, verify)) <==> |SignersOf(c, p, signed)| >= Required(c, p.contexts)
  {
    if sigs :| Accepts(c, p, sigs, verify) {
      AcceptedMeansEnoughSigners(c, p, sigs, verify, signed);
    }
    if |SignersOf(c, p, signed)| >= Required(c, p.contexts) {
      var sigs := ListInOrder(c, p, verify, signed, |c.signers|);
      assert c.signers[..|c.signers|] == c.signers;
      assert (set k | k in c.signers && (k, p) in signed) == SignersOf(c, p, signed);
      assert Accepts(c, p, sigs, verify);
    }
  }

  // ---- The numbers, written out ----

  /**
   * Revocations need the revoke threshold and nothing more: contexts that are
   * all calls named "revoke", and at least one, can be authorized if and only if
   * that many configured keys signed.
   */
  lemma RevocationQuorum<S(!new)>(
      c: Config, p: Payload, verify: (Key, Payload, S) -> bool, signed: iset<(Key, Payload)>)
    requires ValidConfig(c) && Unforgeable(verify, signed) && Presentable(verify, signed)
    requires p.contexts != []
    requires forall i :: 0 <= i < |p.contexts| ==> p.contexts[i].ContractCall? && FnName(p.contexts[i].call) == "revoke"
    ensures (exists sigs :: Accepts(c, p, sigs, verify)) <==> |SignersOf(c, p, signed)| >= c.revokeThreshold
  {
    AuthorizationCountsPeople(c, p, verify, signed);
  }

  /** Anything else, and no contexts at all, needs the threshold: one other context is enough. */
  lemma FullQuorum<S(!new)>(
      c: Config, p: Payload, verify: (Key, Payload, S) -> bool, signed: iset<(Key, Payload)>)
    requires ValidConfig(c) && Unforgeable(verify, signed) && Presentable(verify, signed)
    requires p.contexts == [] || exists x :: x in p.contexts && (x.CreateContract? || FnName(x.call) != "revoke")
    ensures (exists sigs :: Accepts(c, p, sigs, verify)) <==> |SignersOf(c, p, signed)| >= c.threshold
  {
    AuthorizationCountsPeople(c, p, verify, signed);
  }

  /**
   * A list is accepted exactly when it has enough signatures, in strictly
   * ascending index order, each by the configured key of its index.
   */
  lemma AcceptedLists<S(!new)>(
      c: Config, p: Payload, sigs: seq<SignerSignature<S>>, verify: (Key, Payload, S) -> bool)
    ensures Accepts(c, p, sigs, verify) <==>
      && |sigs| >= (if p.contexts != [] && (forall x :: x in p.contexts ==> x.ContractCall? && FnName(x.call) == "revoke")
                    then c.revokeThreshold else c.threshold)
      && (forall i :: 0 < i < |sigs| ==> sigs[i - 1].index < sigs[i].index)
      && (forall i :: 0 <= i < |sigs| ==>
            sigs[i].index < |c.signers| && verify(c.signers[sigs[i].index], p, sigs[i].signature))
  {
    if Accepts(c, p, sigs, verify) {
      forall i | 0 <= i < |sigs|
        ensures (i > 0 ==> sigs[i - 1].index < sigs[i].index)
        ensures sigs[i].index < |c.signers| && verify(c.signers[sigs[i].index], p, sigs[i].signature)
      {
        assert SignatureOk(c, p, sigs, verify, i);
      }
    }
  }
}
