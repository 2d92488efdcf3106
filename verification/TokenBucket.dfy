/** The token-bucket rate limiter (services/api-gateway/src/token-bucket.ts), over the reals. */
module TokenBucket {
  import opened Wrappers

  datatype Config = Config(capacity: real, refillRatePerSecond: real)

  /** `lastRefillTime` is in milliseconds. */
  datatype Bucket = Bucket(tokens: real, lastRefillTime: int)

  datatype Wait = Seconds(count: int) | Forever

  datatype Decision = Allowed(remainingTokens: int) | Refused(retryAfter: Wait)

  type Buckets = map<string, Bucket>

  function Min(a: real, b: real): real {
    if a <= b then a else b
  }

  function Ceil(x: real): int {
    -(-x).Floor
  }

  /** What `ms` milliseconds bring in. */
  function Income(cfg: Config, ms: int): real {
    ms as real / 1000.0 * cfg.refillRatePerSecond
  }

  /** The bucket of a key when a call looks at it: a new one is full. */
  function Refilled(cfg: Config, buckets: Buckets, key: string, now: int): Bucket {
    if key !in buckets then Bucket(cfg.capacity, now)
    else
      var b := buckets[key];
      Bucket(Min(cfg.capacity, b.tokens + Income(cfg, now - b.lastRefillTime)), now)
  }

  function WaitFor(cfg: Config, deficit: real): Wait {
    if cfg.refillRatePerSecond == 0.0 then Forever
    else
      var seconds := Ceil(deficit / cfg.refillRatePerSecond);
      Seconds(if seconds < 1 then 1 else seconds)
  }

  function Decide(cfg: Config, buckets: Buckets, key: string, n: real, now: int): Decision {
    var b := Refilled(cfg, buckets, key, now);
    if b.tokens >= n then Allowed((b.tokens - n).Floor) else Refused(WaitFor(cfg, n - b.tokens))
  }

  function After(cfg: Config, buckets: Buckets, key: string, n: real, now: int): Buckets {
    var b := Refilled(cfg, buckets, key, now);
    buckets[key := if b.tokens >= n then b.(tokens := b.tokens - n) else b]
  }

  class TokenBucketLimiter {
    var buckets: Buckets
    const cfg: Config

    constructor (cfg: Config)
      ensures this.cfg == cfg && buckets == map[]
    {
      this.cfg := cfg;
      buckets := map[];
    }

    method TryConsume(key: string, n: real, now: int) returns (r: Decision)
      modifies this
      ensures r == Decide(cfg, old(buckets), key, n, now)
      ensures buckets == After(cfg, old(buckets), key, n, now)
      ensures forall other :: other != key ==> (other in buckets <==> other in old(buckets))
      ensures forall other :: other != key && other in buckets ==> buckets[other] == old(buckets[other])
    {
      var state: Bucket;
      if key !in buckets {
        state := Bucket(cfg.capacity, now);
      } else {
        state := buckets[key];
        var refilledTokens := Income(cfg, now - state.lastRefillTime);
        state := Bucket(Min(cfg.capacity, state.tokens + refilledTokens), now);
      }
      if state.tokens >= n {
        state := state.(tokens := state.tokens - n);
        buckets := buckets[key := state];
        return Allowed(state.tokens.Floor);
      }
      buckets := buckets[key := state];
      r := Refused(WaitFor(cfg, n - state.tokens));
    }

    /** An empty key counts as none. */
    method Reset(key: Option<string>)
      modifies this
      ensures buckets == if key.Some? && key.value != "" then old(buckets) - {key.value} else map[]
    {
      if key.Some? && key.value != "" { buckets := buckets - {key.value}; } else { buckets := map[]; }
    }
  }

  // ---- How much a run grants ----

  datatype Call = Call(key: string, n: real, now: int)

  function Run(cfg: Config, buckets: Buckets, calls: seq<Call>): Buckets
    decreases |calls|
  {
    if calls == [] then buckets
    else Run(cfg, After(cfg, buckets, calls[0].key, calls[0].n, calls[0].now), calls[1..])
  }

  /** The tokens granted to a key. */
  function Granted(cfg: Config, buckets: Buckets, calls: seq<Call>, key: string): real
    decreases |calls|
  {
    if calls == [] then 0.0
    else
      var c := calls[0];
      (if c.key == key && Decide(cfg, buckets, key, c.n, c.now).Allowed? then c.n else 0.0)
      + Granted(cfg, After(cfg, buckets, c.key, c.n, c.now), calls[1..], key)
  }

  ghost predicate Ordered(calls: seq<Call>) {
    forall i, j :: 0 <= i < j < |calls| ==> calls[i].now <= calls[j].now
  }

  ghost predicate Sane(cfg: Config, calls: seq<Call>) {
    cfg.capacity >= 0.0 && cfg.refillRatePerSecond >= 0.0 && forall c :: c in calls ==> c.n >= 0.0
  }

  /** Every bucket is between empty and full, and no older than the time given. */
  ghost predicate Level(cfg: Config, buckets: Buckets, now: int) {
    forall key :: key in buckets ==>
      0.0 <= buckets[key].tokens <= cfg.capacity && buckets[key].lastRefillTime <= now
  }

  lemma IncomeAdds(cfg: Config, a: int, b: int)
    ensures Income(cfg, a + b) == Income(cfg, a) + Income(cfg, b)
    ensures a >= 0 && cfg.refillRatePerSecond >= 0.0 ==> Income(cfg, a) >= 0.0
  {
  }

  lemma CallKeepsLevel(cfg: Config, buckets: Buckets, c: Call)
    requires Sane(cfg, [c]) && Level(cfg, buckets, c.now)
    ensures Level(cfg, After(cfg, buckets, c.key, c.n, c.now), c.now)
  {
    assert c in [c];
    if c.key in buckets { IncomeAdds(cfg, c.now - buckets[c.key].lastRefillTime, 0); }
  }

  /** What a key can be granted by time `t`, standing where it does: its tokens and the income until then. */
  function Credit(cfg: Config, buckets: Buckets, key: string, t: int): real {
    if key in buckets then buckets[key].tokens + Income(cfg, t - buckets[key].lastRefillTime) else cfg.capacity
  }

  function Cost(cfg: Config, buckets: Buckets, c: Call, key: string): real {
    if c.key == key && Decide(cfg, buckets, key, c.n, c.now).Allowed? then c.n else 0.0
  }

  /** A call that is granted takes its tokens out of the credit. */
  lemma CallSpendsCredit(cfg: Config, buckets: Buckets, c: Call, key: string, t: int)
    requires Sane(cfg, [c]) && Level(cfg, buckets, c.now) && c.now <= t && key in buckets
    ensures Cost(cfg, buckets, c, key) + Credit(cfg, After(cfg, buckets, c.key, c.n, c.now), key, t)
         <= Credit(cfg, buckets, key, t)
  {
    IncomeAdds(cfg, c.now - buckets[key].lastRefillTime, t - c.now);
  }

  lemma {:induction false} GrantedWithinCredit(cfg: Config, buckets: Buckets, calls: seq<Call>, key: string, t: int)
    requires Sane(cfg, calls) && Ordered(calls) && key in buckets
    requires calls != [] ==> Level(cfg, buckets, calls[0].now) && calls[|calls| - 1].now <= t
    requires calls == [] ==> Level(cfg, buckets, t)
    ensures Granted(cfg, buckets, calls, key) <= Credit(cfg, buckets, key, t)
    decreases |calls|
  {
    if calls == [] {
      IncomeAdds(cfg, t - buckets[key].lastRefillTime, 0);
    } else {
      var c := calls[0];
      assert c in calls;
      CallKeepsLevel(cfg, buckets, c);
      CallSpendsCredit(cfg, buckets, c, key, t);
      var next := After(cfg, buckets, c.key, c.n, c.now);
      LevelLater(cfg, next, c.now, if |calls| > 1 then calls[1].now else t);
      GrantedWithinCredit(cfg, next, calls[1..], key, t);
    }
  }

  lemma LevelLater(cfg: Config, buckets: Buckets, now: int, later: int)
    requires Level(cfg, buckets, now) && now <= later
    ensures Level(cfg, buckets, later)
  {
  }

  lemma {:induction false} RunKeepsLevel(cfg: Config, buckets: Buckets, calls: seq<Call>, t: int)
    requires Sane(cfg, calls) && Ordered(calls)
    requires calls != [] ==> Level(cfg, buckets, calls[0].now) && calls[|calls| - 1].now <= t
    requires calls == [] ==> Level(cfg, buckets, t)
    ensures Level(cfg, Run(cfg, buckets, calls), t)
    decreases |calls|
  {
    if calls != [] {
      var c := calls[0];
      assert c in calls;
      CallKeepsLevel(cfg, buckets, c);
      var next := After(cfg, buckets, c.key, c.n, c.now);
      LevelLater(cfg, next, c.now, if |calls| > 1 then calls[1].now else t);
      RunKeepsLevel(cfg, next, calls[1..], t);
    }
  }

  lemma IncomeGrows(cfg: Config, a: int, b: int)
    requires a <= b && cfg.refillRatePerSecond >= 0.0
    ensures Income(cfg, a) <= Income(cfg, b)
  {
    IncomeAdds(cfg, a, b - a);
    IncomeAdds(cfg, b - a, 0);
  }

  /** A call for a key leaves it at most a full bucket's worth of credit. */
  lemma CallLeavesCredit(cfg: Config, buckets: Buckets, c: Call, t: int)
    requires Sane(cfg, [c]) && Level(cfg, buckets, c.now) && c.now <= t
    ensures Cost(cfg, buckets, c, c.key) + Credit(cfg, After(cfg, buckets, c.key, c.n, c.now), c.key, t)
         <= cfg.capacity + Income(cfg, t - c.now)
  {
  }

  /** From any level start, a key gets at most its capacity and the income of the time the calls take. */
  lemma {:induction false} GrantedWithinCapacity(cfg: Config, buckets: Buckets, calls: seq<Call>, key: string)
    requires Sane(cfg, calls) && Ordered(calls) && calls != [] && Level(cfg, buckets, calls[0].now)
    ensures Granted(cfg, buckets, calls, key) <= cfg.capacity + Income(cfg, calls[|calls| - 1].now - calls[0].now)
    decreases |calls|
  {
    var c, to := calls[0], calls[|calls| - 1].now;
    assert c in calls;
    CallKeepsLevel(cfg, buckets, c);
    var next := After(cfg, buckets, c.key, c.n, c.now);
    LevelLater(cfg, next, c.now, if |calls| > 1 then calls[1].now else to);
    if c.key == key {
      CallLeavesCredit(cfg, buckets, c, to);
      GrantedWithinCredit(cfg, next, calls[1..], key, to);
    } else if |calls| > 1 {
      GrantedWithinCapacity(cfg, next, calls[1..], key);
      IncomeGrows(cfg, to - calls[1].now, to - c.now);
    } else {
      IncomeGrows(cfg, 0, to - c.now);
    }
  }

  /**
   * In any run, with calls for any keys, the tokens granted to a key by calls
   * i to j are at most the capacity and the income of the time between them.
   */
  lemma EveryWindowIsBounded(cfg: Config, calls: seq<Call>, key: string, i: nat, j: nat)
    requires Sane(cfg, calls) && Ordered(calls) && i <= j < |calls|
    ensures Granted(cfg, Run(cfg, map[], calls[..i]), calls[i..j + 1], key)
         <= cfg.capacity + Income(cfg, calls[j].now - calls[i].now)
  {
    RunKeepsLevel(cfg, map[], calls[..i], calls[i].now);
    GrantedWithinCapacity(cfg, Run(cfg, map[], calls[..i]), calls[i..j + 1], key);
  }

  // ---- What a refusal promises ----

  lemma QuotientTimes(deficit: real, rate: real, k: int)
    requires rate > 0.0
    ensures k as real >= deficit / rate <==> k as real * rate >= deficit
  {
    var q := deficit / rate;
    assert q * rate == deficit;
    if k as real >= q {
      assert (k as real - q) * rate >= 0.0;
    } else {
      assert (q - k as real) * rate > 0.0;
    }
  }

  lemma CeilIsLeast(x: real, k: int)
    ensures k >= Ceil(x) <==> k as real >= x
  {
  }

  /** Calls for other keys do not touch a bucket. */
  lemma {:induction false} OthersLeaveAlone(cfg: Config, buckets: Buckets, key: string, others: seq<Call>)
    requires key in buckets && forall c :: c in others ==> c.key != key
    ensures key in Run(cfg, buckets, others) && Run(cfg, buckets, others)[key] == buckets[key]
    decreases |others|
  {
    if others != [] {
      var c := others[0];
      assert c in others;
      OthersLeaveAlone(cfg, After(cfg, buckets, c.key, c.n, c.now), key, others[1..]);
    }
  }

  /** A full wait brings in the deficit, and a second less does not. */
  lemma WaitBringsDeficit(cfg: Config, deficit: real, ms: int)
    requires cfg.refillRatePerSecond > 0.0 && deficit > 0.0
    ensures var wait := WaitFor(cfg, deficit);
      && wait.Seconds?
      && (ms >= 1000 * wait.count ==> Income(cfg, ms) >= deficit)
      && (ms <= 1000 * (wait.count - 1) ==> Income(cfg, ms) < deficit)
  {
    var rate := cfg.refillRatePerSecond;
    QuotientTimes(deficit, rate, 0);
    CeilIsLeast(deficit / rate, 0);
    var k := WaitFor(cfg, deficit).count;
    SecondsBringDeficit(cfg, deficit, k);
    SecondsBringDeficit(cfg, deficit, k - 1);
    if ms >= 1000 * k { IncomeGrows(cfg, 1000 * k, ms); }
    if ms <= 1000 * (k - 1) { IncomeGrows(cfg, ms, 1000 * (k - 1)); }
  }

  lemma SecondsBringDeficit(cfg: Config, deficit: real, k: int)
    requires cfg.refillRatePerSecond > 0.0
    ensures Income(cfg, 1000 * k) >= deficit <==> k >= Ceil(deficit / cfg.refillRatePerSecond)
  {
    QuotientTimes(deficit, cfg.refillRatePerSecond, k);
    CeilIsLeast(deficit / cfg.refillRatePerSecond, k);
    assert Income(cfg, 1000 * k) == k as real * cfg.refillRatePerSecond;
  }

  /**
   * After a refusal of no more than the capacity, with no other call for the
   * key meanwhile, waiting at least the seconds that were returned is enough,
   * and waiting a second less than that is not.
   */
  lemma RetryAfterIsExact(cfg: Config, buckets: Buckets, key: string, n: real, now: int, others: seq<Call>, ms: int)
    requires cfg.refillRatePerSecond > 0.0 && n <= cfg.capacity && ms >= 0
    requires Decide(cfg, buckets, key, n, now).Refused?
    requires forall c :: c in others ==> c.key != key
    ensures var wait := Decide(cfg, buckets, key, n, now).retryAfter;
      var later := Decide(cfg, Run(cfg, After(cfg, buckets, key, n, now), others), key, n, now + ms);
      && wait.Seconds?
      && (ms >= 1000 * wait.count ==> later.Allowed?)
      && (ms <= 1000 * (wait.count - 1) ==> later.Refused?)
  {
    var b := Refilled(cfg, buckets, key, now);
    var after := After(cfg, buckets, key, n, now);
    assert after[key] == b;
    OthersLeaveAlone(cfg, after, key, others);
    WaitBringsDeficit(cfg, n - b.tokens, ms);
  }

  // ---- What a new key gets ----

  /**
   * A new key starts with a full bucket: its first call is granted exactly when
   * it asks for no more than the capacity, and is told the whole tokens left.
   */
  lemma NewKeyIsFull(cfg: Config, buckets: Buckets, key: string, n: real, now: int)
    requires key !in buckets
    ensures Decide(cfg, buckets, key, n, now).Allowed? <==> n <= cfg.capacity
    ensures n <= cfg.capacity ==>
      var left := Decide(cfg, buckets, key, n, now).remainingTokens;
      left as real <= cfg.capacity - n < left as real + 1.0
  {
  }

  /**
   * What is left comes back with time and never beyond the capacity: after a
   * granted first call, and with no other call for the key, a second one is
   * granted exactly when it asks for no more than what was left and has come in,
   * and no more than the capacity.
   */
  lemma SecondCallIff(cfg: Config, buckets: Buckets, key: string, n: real, now: int, others: seq<Call>, m: real, ms: nat)
    requires key !in buckets && n <= cfg.capacity
    requires forall c :: c in others ==> c.key != key
    ensures Decide(cfg, Run(cfg, After(cfg, buckets, key, n, now), others), key, m, now + ms).Allowed?
       <==> m <= cfg.capacity && m <= cfg.capacity - n + ms as real / 1000.0 * cfg.refillRatePerSecond
  {
    OthersLeaveAlone(cfg, After(cfg, buckets, key, n, now), key, others);
  }
}
