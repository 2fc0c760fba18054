/** Deadlines and retry delays, in exact arithmetic. */
module LimiterDeadlines {
  import opened TokenBucket
  import opened LimiterSpec
  import opened LimiterRuns
  import opened RateConfig

  /** A bucket is full when its deadline passes. */
  ghost predicate OnTime(e: Entry) {
    Sane(e.policy.rate, e.policy.burst) && TokensAt(e.bucket, e.expiresAt) >= e.policy.burst as real
  }

  ghost predicate AllOnTime(s: Table) {
    forall k <- s :: OnTime(s[k])
  }

  ghost predicate SanePolicies(es: seq<Event>) {
    forall i :: 0 <= i < |es| && es[i].Call? ==> Sane(es[i].policy.rate, es[i].policy.burst)
  }

  lemma ScheduleIsOnTime(e: Entry, ttl: nat, now: Time)
    requires Coherent(e) && e.bucket.last <= now && Sane(e.policy.rate, e.policy.burst)
    ensures OnTime(Schedule(e, ttl, now))
  {
    var missing, d := Missing(e, now), RefillDelay(Missing(e, now), e.policy.rate);
    GainNonNegative(e.policy.rate, now - e.bucket.last);
    DelayIsMonotone(missing, e.policy.burst as real, e.policy.rate);
    RefillDelayIsLeast(missing, e.policy.rate, d);
    GainAdds(e.policy.rate, now - e.bucket.last, d);
    var at := Schedule(e, ttl, now).expiresAt;
    TokensGrow(e.bucket, now + d, at);
  }

  lemma TouchIsOnTime(e: Entry, policy: Policy, consume: bool, ttl: nat, now: Time)
    requires Coherent(e) && e.lastSeen <= now
    requires Sane(e.policy.rate, e.policy.burst) && Sane(policy.rate, policy.burst)
    ensures OnTime(Touch(e, policy, consume, ttl, now).0)
  {
    hide Schedule;
    hide RefillDelay;
    var a := Adopt(e.(lastSeen := now), policy, now);
    AdoptBalance(e, policy, now);
    DecideBalance(a, consume, now);
    ScheduleIsOnTime(Decide(a, consume, now).0, ttl, now);
  }

  lemma StepIsOnTime(cfg: Config, s: Table, e: Event, t: Table)
    requires Step(cfg, s, e, t) && Good(s, e.now) && AllOnTime(s)
    requires e.Call? ==> Sane(e.policy.rate, e.policy.burst)
    ensures AllOnTime(t)
  {
    hide Touch;
    hide RefillDelay;
    if e.Cleanup? {
      CleanupIsExact(s, cfg.cleanupBatch, cfg.ttl, e.now, t);
    } else {
      hide Step;
      forall k | k in t ensures OnTime(t[k]) {
        if k == e.key {
          StepFate(cfg, s, e, t, k);
          if k in s { TouchIsOnTime(s[k], e.policy, e.consume, cfg.ttl, e.now); }
          else { TouchIsOnTime(NewEntry(e.policy), e.policy, true, cfg.ttl, e.now); }
        } else {
          OtherKeysKept(cfg, s, e, t, k);
        }
      }
    }
  }

  lemma OtherKeysKept(cfg: Config, s: Table, e: Event, t: Table, k: string)
    requires Step(cfg, s, e, t) && e.Call? && k != e.key && k in t
    ensures k in s && t[k] == s[k]
  {}

  lemma {:induction false} RunIsOnTime(cfg: Config, ss: seq<Table>, es: seq<Event>, n: nat)
    requires Run(cfg, ss, es) && SanePolicies(es) && n < |ss|
    ensures AllOnTime(ss[n])
  {
    hide Step;
    if n > 0 {
      RunIsOnTime(cfg, ss, es, n - 1);
      RunIsGood(cfg, ss, es, n - 1);
      StepIsOnTime(cfg, ss[n - 1], es[n - 1], ss[n]);
    }
  }

  ghost function Expired(s: Table, now: Time): set<string> {
    set k | k in s && s[k].expiresAt <= now
  }

  /** One batch removes as many expired buckets as its size allows, those with the earliest
      deadlines, and touches no other: the branch that reschedules is never taken. */
  lemma CleanupIsExact(s: Table, turns: nat, ttl: nat, now: Time, t: Table)
    requires CleanupStep(s, turns, ttl, now, t) && AllOnTime(s)
    ensures t.Keys <= s.Keys && forall k <- t :: t[k] == s[k]
    ensures |s| - |t| == if turns < |Expired(s, now)| then turns else |Expired(s, now)|
    ensures forall k <- s :: k !in t ==> s[k].expiresAt <= now
    ensures forall k <- s, j <- t :: k !in t ==> s[k].expiresAt <= s[j].expiresAt
  {
    CleanupTakesEarliest(s, turns, ttl, now, t);
    CleanupCounts(s, turns, ttl, now, t);
  }

  /** One turn on buckets that are on time either stops or removes the head. */
  lemma FirstTurn(s: Table, turns: nat, ttl: nat, now: Time, t: Table) returns (k: string)
    requires CleanupStep(s, turns, ttl, now, t) && AllOnTime(s) && turns > 0 && s != map[]
    ensures IsHead(s, k)
    ensures if now < s[k].expiresAt then t == s else CleanupStep(s - {k}, turns - 1, ttl, now, t) && AllOnTime(s - {k})
  {
    hide OnTime;
    hide CleanOne;
    k :| IsHead(s, k) && CleanupTurn(s, k, turns, ttl, now, t);
    if now >= s[k].expiresAt { HeadIsRemoved(s, k, ttl, now); }
  }

  lemma {:induction false} CleanupTakesEarliest(s: Table, turns: nat, ttl: nat, now: Time, t: Table)
    requires CleanupStep(s, turns, ttl, now, t) && AllOnTime(s)
    ensures t.Keys <= s.Keys && forall k <- t :: t[k] == s[k]
    ensures forall k <- s :: k !in t ==> s[k].expiresAt <= now
    ensures forall k <- s, j <- t :: k !in t ==> s[k].expiresAt <= s[j].expiresAt
    decreases turns
  {
    if turns > 0 && s != map[] {
      hide CleanupStep;
      var k := FirstTurn(s, turns, ttl, now, t);
      if now >= s[k].expiresAt { CleanupTakesEarliest(s - {k}, turns - 1, ttl, now, t); }
    }
  }

  lemma OneFewerExpired(s: Table, k: string, now: Time)
    requires k in s && s[k].expiresAt <= now
    ensures |Expired(s, now)| == |Expired(s - {k}, now)| + 1 && |s| == |s - {k}| + 1
  {
    assert Expired(s, now) == Expired(s - {k}, now) + {k};
    assert (s - {k}).Keys == s.Keys - {k};
  }

  lemma NoneExpired(s: Table, now: Time)
    requires s == map[] || exists k :: IsHead(s, k) && now < s[k].expiresAt
    ensures Expired(s, now) == {}
  {}

  lemma {:induction false} CleanupCounts(s: Table, turns: nat, ttl: nat, now: Time, t: Table)
    requires CleanupStep(s, turns, ttl, now, t) && AllOnTime(s)
    ensures |s| - |t| == if turns < |Expired(s, now)| then turns else |Expired(s, now)|
    decreases turns
  {
    hide Expired;
    hide CleanupStep;
    hide AllOnTime;
    if s == map[] {
      NoTurn(s, turns, ttl, now, t);
      NoneExpired(s, now);
    } else if turns == 0 {
      NoTurn(s, turns, ttl, now, t);
    } else {
      var k := FirstTurn(s, turns, ttl, now, t);
      if now < s[k].expiresAt {
        NoneExpired(s, now);
      } else {
        OneFewerExpired(s, k, now);
        CleanupCounts(s - {k}, turns - 1, ttl, now, t);
      }
    }
  }

  lemma NoTurn(s: Table, turns: nat, ttl: nat, now: Time, t: Table)
    requires CleanupStep(s, turns, ttl, now, t) && (turns == 0 || s == map[])
    ensures t == s
  {}

  lemma HeadIsRemoved(s: Table, k: string, ttl: nat, now: Time)
    requires k in s && OnTime(s[k]) && s[k].expiresAt <= now
    ensures CleanOne(s, k, ttl, now) == s - {k}
  {}

  lemma FullAfterDeadline(e: Entry, now: Time)
    requires OnTime(e) && e.expiresAt <= now
    ensures TokensAt(e.bucket, now) >= e.policy.burst as real
  {}

  /** Cleanup within a run: the same, for every tick of every run under sane policies. */
  lemma RunCleanupIsExact(cfg: Config, ss: seq<Table>, es: seq<Event>, n: nat)
    requires Run(cfg, ss, es) && SanePolicies(es) && n < |es| && es[n].Cleanup?
    ensures forall k <- ss[n + 1] :: k in ss[n] && ss[n + 1][k] == ss[n][k]
    ensures var expired := |Expired(ss[n], es[n].now)|;
            |ss[n]| - |ss[n + 1]| == if cfg.cleanupBatch < expired then cfg.cleanupBatch else expired
    ensures forall k <- ss[n] :: k !in ss[n + 1] ==> ss[n][k].expiresAt <= es[n].now
    ensures forall k <- ss[n], j <- ss[n + 1] :: k !in ss[n + 1] ==> ss[n][k].expiresAt <= ss[n][j].expiresAt
  {
    RunIsOnTime(cfg, ss, es, n);
    CleanupIsExact(ss[n], cfg.cleanupBatch, cfg.ttl, es[n].now, ss[n + 1]);
    hide CleanupStep;
    hide AllOnTime;
  }

  // ---------- Retry-After ----------

  /** A denied call, or a peek, names the least wait after which the same call is admitted
      if nothing else consumes meanwhile. */
  lemma RetryAfterIsLeast(e: Entry, policy: Policy, consume: bool, ttl: nat, now: Time, wait: nat)
    requires Coherent(e) && e.lastSeen <= now
    requires Sane(e.policy.rate, e.policy.burst) && Sane(policy.rate, policy.burst)
    requires !Touch(e, policy, consume, ttl, now).1.allowed
    ensures var (denied, d) := Touch(e, policy, consume, ttl, now);
            && d.retryAfter > 0
            && (Touch(denied, policy, true, ttl, now + wait).1.allowed <==> wait >= d.retryAfter)
  {
    hide RefillDelay;
    var (denied, d) := Touch(e, policy, consume, ttl, now);
    TouchBalance(e, policy, consume, ttl, now);
    DenialDelay(e, policy, consume, ttl, now);
    var p := denied.policy;
    var need := 1.0 - TokensAt(denied.bucket, now);
    assert d.retryAfter == RefillDelay(need, p.rate);
    GainNonNegative(denied.bucket.limit, Elapsed(denied.bucket, now));
    DelayIsMonotone(need, p.burst as real, p.rate);
    RefillDelayIsLeast(need, p.rate, wait);
    RefillDelayIsLeast(need, p.rate, 0);
    LaterBalance(denied, now, wait);
    AllowedIffToken(denied, policy, ttl, now + wait);
  }

  /** The delay in a denial is computed from the balance the call leaves. */
  lemma DenialDelay(e: Entry, policy: Policy, consume: bool, ttl: nat, now: Time)
    requires Coherent(e) && e.lastSeen <= now && policy.burst >= 1
    ensures var (e', d) := Touch(e, policy, consume, ttl, now);
            !d.allowed ==> e'.policy.enabled && TokensAt(e'.bucket, now) < 1.0
                           && d.retryAfter == RefillDelay(1.0 - TokensAt(e'.bucket, now), e'.policy.rate)
  {}

  /** With less than a token now, the balance after `wait` reaches one token when the wait earns the rest. */
  lemma LaterBalance(e: Entry, now: Time, wait: nat)
    requires Coherent(e) && e.lastSeen <= now && TokensAt(e.bucket, now) < 1.0
    ensures TokensAt(e.bucket, now + wait) >= 1.0 <==> Gain(e.bucket.limit, wait) >= 1.0 - TokensAt(e.bucket, now)
  {}

  lemma AllowedIffToken(e: Entry, policy: Policy, ttl: nat, now: Time)
    requires Coherent(e) && e.lastSeen <= now && e.policy.enabled && policy.revision <= e.policy.revision
    ensures Touch(e, policy, true, ttl, now).1.allowed <==> TokensAt(e.bucket, now) >= 1.0
  {}

  /** A full table's refusal names the least wait after which its head can make room. */
  lemma CapacityRetryIsLeast(head: Entry, now: Time, wait: nat)
    requires Coherent(head) && head.lastSeen <= now && Sane(head.policy.rate, head.policy.burst)
    requires Missing(head, now) > 0.0
    ensures Missing(head, now + wait) <= 0.0 <==> wait >= RefillDelay(Missing(head, now), head.policy.rate)
  {
    hide RefillDelay;
    GainNonNegative(head.bucket.limit, Elapsed(head.bucket, now));
    DelayIsMonotone(Missing(head, now), head.policy.burst as real, head.policy.rate);
    RefillDelayIsLeast(Missing(head, now), head.policy.rate, wait);
    GainAdds(head.bucket.limit, now - head.bucket.last, wait);
  }

  /** The Retry-After header: whole seconds, at least one. */
  function HeaderSeconds(retryAfter: nat): nat {
    var seconds := Ceil(retryAfter as real / SECOND as real);
    if seconds < 1 then 1 else seconds
  }

  /** The header is the least whole number of seconds, from one up, that is long enough. */
  lemma HeaderIsLeastEnough(retryAfter: nat, s: nat)
    requires s >= 1
    ensures s * SECOND >= retryAfter <==> s >= HeaderSeconds(retryAfter)
  {}
}
