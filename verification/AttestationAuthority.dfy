/**
 * The two contracts together: a registry whose attestor is the threshold
 * account, so that `require_auth` on it runs the account's `__check_auth`.
 */
module AttestationAuthority {
  import opened Wrappers
  import opened ThresholdAttestor
  import opened AttestationRegistry

  /** An authorization entry: what was signed, and the signatures on it. */
  datatype AuthEntry<S> = AuthEntry(payload: Payload, signatures: seq<SignerSignature<S>>)

  /** An invocation of the registry or of the account, with the entry presented for the account. */
  datatype Invocation<S> = Invocation(now: nat, call: Call, entry: Option<AuthEntry<S>>, otherAuthorizers: set<Address>)

  datatype World = World(config: Config, registry: Registry)

  /** Where the two contracts live, the network's lifetimes of entries, and signature verification. */
  datatype Setting<!S> = Setting(account: Address, registryId: Address, lifetimes: Lifetimes, verify: (Key, Payload, S) -> bool)

  function ContextOf<S>(net: Setting<S>, call: Call): Context {
    ContractCall(if call.SetSigners? then net.account else net.registryId, call)
  }

  /** The account authorizes a call when a presented entry covers it and passes `__check_auth`. */
  ghost predicate AccountAuthorizes<S>(net: Setting<S>, c: Config, inv: Invocation<S>) {
    && inv.entry.Some?
    && ContextOf(net, inv.call) in inv.entry.value.payload.contexts
    && Accepts(c, inv.entry.value.payload, inv.entry.value.signatures, net.verify)
  }

  ghost predicate Authorizes<S>(net: Setting<S>, w: World, inv: Invocation<S>) {
    if w.registry.attestor == net.account then AccountAuthorizes(net, w.config, inv)
    else w.registry.attestor in inv.otherAuthorizers
  }

  ghost function Step<S>(net: Setting<S>, w: World, inv: Invocation<S>): World {
    match inv.call
    case SetSigners(threshold, signers, revokeThreshold) =>
      w.(config := AfterSetSigners(w.config, AccountAuthorizes(net, w.config, inv), threshold, signers, revokeThreshold))
    case _ =>
      w.(registry := After(w.registry, inv.now, net.lifetimes, Authorizes(net, w, inv), inv.call))
  }

  ghost function RunAll<S>(net: Setting<S>, w: World, invs: seq<Invocation<S>>): World {
    if invs == [] then w else Step(net, RunAll(net, w, invs[..|invs| - 1]), invs[|invs| - 1])
  }

  /** Every reachable configuration is valid. */
  lemma {:induction false} ConfigStaysValid<S>(net: Setting<S>, w: World, invs: seq<Invocation<S>>)
    requires ValidConfig(w.config)
    ensures ValidConfig(RunAll(net, w, invs).config)
  {
    if invs != [] {
      var last := invs[|invs| - 1];
      ConfigStaysValid(net, w, invs[..|invs| - 1]);
      if last.call.SetSigners? {
        ValidatedIsExact(last.call.newThreshold, last.call.newSigners, last.call.newRevokeThreshold);
      }
    }
  }

  // ---- Collusion below the threshold ----

  /** The configured keys for which any signature at all is available. */
  ghost function Colluders(c: Config, signed: iset<(Key, Payload)>): (r: set<Key>)
    ensures forall k :: k in r <==> k in c.signers && exists p :: (k, p) in signed
  {
    set k | k in c.signers && exists p :: (k, p) in signed
  }

  /** With too few colluders only an authorization made of nothing but revocations passes. */
  lemma FewSignersOnlyRevoke<S(!new)>(net: Setting<S>, w: World, inv: Invocation<S>, signed: iset<(Key, Payload)>)
    requires ValidConfig(w.config) && Unforgeable(net.verify, signed)
    requires |Colluders(w.config, signed)| < w.config.threshold
    requires AccountAuthorizes(net, w.config, inv)
    ensures AllRevoke(inv.entry.value.payload.contexts)
    ensures |SignersOf(w.config, inv.entry.value.payload, signed)| >= w.config.revokeThreshold
    ensures FnName(inv.call) == "revoke"
  {
    var p := inv.entry.value.payload;
    AcceptedMeansEnoughSigners(w.config, p, inv.entry.value.signatures, net.verify, signed);
    SubsetCard(SignersOf(w.config, p, signed), Colluders(w.config, signed));
    var i :| 0 <= i < |p.contexts| && p.contexts[i] == ContextOf(net, inv.call);
    assert IsRevoke(p.contexts[i]);
  }

  /** A revocation that enough distinct keys signed, in an authorization of revocations only. */
  ghost predicate IsQuorumRevocation<S>(net: Setting<S>, c: Config, inv: Invocation<S>, contract: Address, signed: iset<(Key, Payload)>) {
    && inv.call == Revoke(contract)
    && inv.entry.Some?
    && AllRevoke(inv.entry.value.payload.contexts)
    && ContextOf(net, inv.call) in inv.entry.value.payload.contexts
    && |SignersOf(c, inv.entry.value.payload, signed)| >= c.revokeThreshold
  }

  lemma StepUnderCollusion<S(!new)>(net: Setting<S>, w: World, inv: Invocation<S>, signed: iset<(Key, Payload)>)
    requires ValidConfig(w.config) && Unforgeable(net.verify, signed)
    requires w.registry.attestor == net.account
    requires |Colluders(w.config, signed)| < w.config.threshold
    ensures Step(net, w, inv) == w
         || exists c :: IsQuorumRevocation(net, w.config, inv, c, signed)
              && Step(net, w, inv) == w.(registry := w.registry.(entries := w.registry.entries - {c}))
  {
    if AccountAuthorizes(net, w.config, inv) {
      FewSignersOnlyRevoke(net, w, inv, signed);
      if inv.call.Revoke? {
        assert IsQuorumRevocation(net, w.config, inv, inv.call.contract, signed);
      }
    }
  }

  /**
   * Collusion below the threshold is harmless over whole runs: whatever is
   * invoked, in any order, with any entries, the signer set and the attestor
   * stay, no record is added or altered, and every record that is gone was
   * deleted by a revocation that a revocation quorum signed.
   */
  lemma {:induction false} CollusionIsHarmless<S(!new)>(
      net: Setting<S>, w: World, invs: seq<Invocation<S>>, signed: iset<(Key, Payload)>)
    requires ValidConfig(w.config) && Unforgeable(net.verify, signed)
    requires w.registry.attestor == net.account
    requires |Colluders(w.config, signed)| < w.config.threshold
    ensures var after := RunAll(net, w, invs);
      && after.config == w.config
      && after.registry.attestor == net.account
      && (forall c :: c in after.registry.entries ==>
            c in w.registry.entries && after.registry.entries[c] == w.registry.entries[c])
      && (forall c :: c in w.registry.entries && c !in after.registry.entries ==>
            exists i :: 0 <= i < |invs| && IsQuorumRevocation(net, w.config, invs[i], c, signed))
  {
    if invs != [] {
      var earlier, last := invs[..|invs| - 1], invs[|invs| - 1];
      CollusionIsHarmless(net, w, earlier, signed);
      var before := RunAll(net, w, earlier);
      StepUnderCollusion(net, before, last, signed);
      forall c | c in w.registry.entries && c !in Step(net, before, last).registry.entries
        ensures exists i :: 0 <= i < |invs| && IsQuorumRevocation(net, w.config, invs[i], c, signed)
      {
        if c in before.registry.entries {
          assert IsQuorumRevocation(net, w.config, invs[|invs| - 1], c, signed);
        } else {
          var i :| 0 <= i < |earlier| && IsQuorumRevocation(net, w.config, earlier[i], c, signed);
          assert invs[i] == earlier[i];
        }
      }
    }
  }

  /** Below both thresholds nothing happens at all. */
  lemma {:induction false} TooFewForAnything<S(!new)>(
      net: Setting<S>, w: World, invs: seq<Invocation<S>>, signed: iset<(Key, Payload)>)
    requires ValidConfig(w.config) && Unforgeable(net.verify, signed)
    requires w.registry.attestor == net.account
    requires |Colluders(w.config, signed)| < w.config.threshold
    requires |Colluders(w.config, signed)| < w.config.revokeThreshold
    ensures RunAll(net, w, invs) == w
  {
    if invs != [] {
      var last := invs[|invs| - 1];
      TooFewForAnything(net, w, invs[..|invs| - 1], signed);
      StepUnderCollusion(net, w, last, signed);
      if Step(net, w, last) != w {
        var c :| IsQuorumRevocation(net, w.config, last, c, signed);
        SubsetCard(SignersOf(w.config, last.entry.value.payload, signed), Colluders(w.config, signed));
      }
    }
  }

  /** The bound is sharp: with `threshold` signers of one payload, any write it covers goes through. */
  lemma EnoughSignersCanWrite<S(!new)>(
      net: Setting<S>, w: World, payload: Payload, signed: iset<(Key, Payload)>, now: nat, call: Call)
      returns (inv: Invocation<S>)
    requires ValidConfig(w.config) && Presentable(net.verify, signed) && Unforgeable(net.verify, signed)
    requires w.registry.attestor == net.account
    requires call.Upsert? && ExpiryOk(now, call.expiresLedger)
    requires ContextOf(net, call) in payload.contexts
    requires |SignersOf(w.config, payload, signed)| >= w.config.threshold
    ensures inv.now == now && inv.call == call
    ensures var after := Step(net, w, inv);
      && call.contract in after.registry.entries
      && after.registry.entries[call.contract].attestation == Attestation(call.wasmHash, now, call.expiresLedger, None)
  {
    assert !AllRevoke(payload.contexts) by {
      var i :| 0 <= i < |payload.contexts| && payload.contexts[i] == ContextOf(net, call);
      assert !IsRevoke(payload.contexts[i]);
    }
    AuthorizationCountsPeople(w.config, payload, net.verify, signed);
    var sigs :| Accepts(w.config, payload, sigs, net.verify);
    inv := Invocation(now, call, Some(AuthEntry(payload, sigs)), {});
  }

  /** And so is the other bound: a revocation quorum of one payload of revocations can delete any record it covers. */
  lemma RevocationQuorumCanDelete<S(!new)>(
      net: Setting<S>, w: World, payload: Payload, signed: iset<(Key, Payload)>, now: nat, contract: Address)
      returns (inv: Invocation<S>)
    requires ValidConfig(w.config) && Presentable(net.verify, signed) && Unforgeable(net.verify, signed)
    requires w.registry.attestor == net.account
    requires forall i :: 0 <= i < |payload.contexts| ==>
      payload.contexts[i].ContractCall? && FnName(payload.contexts[i].call) == "revoke"
    requires ContractCall(net.registryId, Revoke(contract)) in payload.contexts
    requires |SignersOf(w.config, payload, signed)| >= w.config.revokeThreshold
    ensures inv.now == now && inv.call == Revoke(contract)
    ensures Step(net, w, inv) == w.(registry := w.registry.(entries := w.registry.entries - {contract}))
  {
    RevocationQuorum(w.config, payload, net.verify, signed);
    var sigs :| Accepts(w.config, payload, sigs, net.verify);
    inv := Invocation(now, Revoke(contract), Some(AuthEntry(payload, sigs)), {});
    assert ContextOf(net, inv.call) == ContractCall(net.registryId, Revoke(contract));
  }
}
