/** Whole runs of the limiter: what calls and cleanup ticks do to one key. */
module LimiterRuns {
  import opened TokenBucket
  import opened LimiterSpec

  datatype Event =
    | Call(key: string, policy: Policy, consume: bool, now: Time, decision: Decision)
    | Cleanup(now: Time)

  ghost predicate Step(cfg: Config, s: Table, e: Event, t: Table) {
    match e
    case Call(key, policy, consume, now, d) => CheckStep(cfg, s, key, policy, consume, now, t, d)
    case Cleanup(now) => CleanupStep(s, cfg.cleanupBatch, cfg.ttl, now, t)
  }

  /** A run from the empty limiter, under a clock that never goes back and policies with a burst. */
  ghost predicate Run(cfg: Config, ss: seq<Table>, es: seq<Event>) {
    && |ss| == |es| + 1
    && ss[0] == map[]
    && (forall i {:trigger es[i]} :: 0 <= i < |es| ==> Step(cfg, ss[i], es[i], ss[i + 1]))
    && (forall i, j :: 0 <= i <= j < |es| ==> es[i].now <= es[j].now)
    && (forall i :: 0 <= i < |es| && es[i].Call? ==> es[i].policy.burst >= 1)
  }

  /** What every bucket satisfies between calls. */
  ghost predicate Coherent(e: Entry) {
    && e.bucket.limit == e.policy.rate
    && e.bucket.burst == e.policy.burst >= 1
    && e.bucket.last <= e.lastSeen
    && e.bucket.tokens >= 0.0
  }

  ghost predicate Good(s: Table, now: Time) {
    forall k <- s :: Coherent(s[k]) && s[k].lastSeen <= now
  }

  function Charge(policy: Policy, consume: bool, d: Decision): real {
    if policy.enabled && consume && d.allowed then 1.0 else 0.0
  }

  /** A call leaves the old balance, cut down to the burst in force, minus the token it takes. */
  lemma TouchBalance(e: Entry, policy: Policy, consume: bool, ttl: nat, now: Time)
    requires Coherent(e) && policy.burst >= 1 && e.lastSeen <= now
    ensures var (e', d) := Touch(e, policy, consume, ttl, now);
            && Coherent(e') && e'.lastSeen == now
            && e'.policy == (if policy.revision > e.policy.revision then policy else e.policy)
            && TokensAt(e'.bucket, now) ==
               Min(TokensAt(e.bucket, now), e'.policy.burst as real) - Charge(e'.policy, consume, d)
  {
    hide Schedule;
    hide RefillDelay;
    var a := Adopt(e.(lastSeen := now), policy, now);
    AdoptBalance(e, policy, now);
    DecideBalance(a, consume, now);
    var (e', d) := Decide(a, consume, now);
    ScheduleKeeps(e', ttl, now);
  }

  lemma AdoptBalance(e: Entry, policy: Policy, now: Time)
    requires Coherent(e) && policy.burst >= 1 && e.lastSeen <= now
    ensures var a := Adopt(e.(lastSeen := now), policy, now);
            && Coherent(a) && a.lastSeen == now
            && a.policy == (if policy.revision > e.policy.revision then policy else e.policy)
            && TokensAt(a.bucket, now) == Min(TokensAt(e.bucket, now), a.policy.burst as real)
  {}

  lemma DecideBalance(a: Entry, consume: bool, now: Time)
    requires Coherent(a) && a.lastSeen == now
    ensures var (e, d) := Decide(a, consume, now);
            && Coherent(e) && e.lastSeen == now && e.policy == a.policy
            && TokensAt(e.bucket, now) == TokensAt(a.bucket, now) - Charge(a.policy, consume, d)
  {}

  lemma ScheduleKeeps(e: Entry, ttl: nat, now: Time)
    ensures var e' := Schedule(e, ttl, now);
            e'.bucket == e.bucket && e'.policy == e.policy && e'.lastSeen == e.lastSeen
  {}

  /** Cleanup removes buckets that are full and changes nothing but deadlines in the others. */
  lemma {:induction false} CleanupKeeps(s: Table, turns: nat, ttl: nat, now: Time, t: Table)
    requires CleanupStep(s, turns, ttl, now, t)
    ensures t.Keys <= s.Keys
    ensures forall k <- t :: t[k] == s[k].(expiresAt := t[k].expiresAt)
    ensures forall k <- s :: k !in t ==> TokensAt(s[k].bucket, now) >= s[k].policy.burst as real
    decreases turns
  {
    hide Schedule;
    hide TokensAt;
    if turns > 0 && s != map[] {
      var k :| IsHead(s, k) && CleanupTurn(s, k, turns, ttl, now, t);
      if now >= s[k].expiresAt {
        ScheduleKeeps(s[k], ttl, now);
        CleanupKeeps(CleanOne(s, k, ttl, now), turns - 1, ttl, now, t);
      }
    }
  }

  /** One step, seen from one key: the five things that can happen to it. */
  datatype Fate = Absent | Created | Touched | Kept | Evicted

  ghost function FateOf(s: Table, e: Event, t: Table, k: string): Fate {
    if k in s && k in t then (if e.Call? && e.key == k then Touched else Kept)
    else if k in s then Evicted
    else if k in t then Created
    else Absent
  }

  lemma StepFate(cfg: Config, s: Table, e: Event, t: Table, k: string)
    requires Step(cfg, s, e, t)
    ensures match FateOf(s, e, t, k)
      case Absent => e.Call? && e.key == k ==> !e.policy.enabled || !e.consume || !e.decision.allowed
      case Created => e.Call? && e.key == k && e.policy.enabled && e.consume
                      && (t[k], e.decision) == Create(e.policy, cfg.ttl, e.now)
      case Touched => (t[k], e.decision) == Touch(s[k], e.policy, e.consume, cfg.ttl, e.now)
      case Kept => t[k] == s[k].(expiresAt := t[k].expiresAt)
      case Evicted => (e.Call? ==> e.key != k) && TokensAt(s[k].bucket, e.now) >= s[k].policy.burst as real
  {
    hide Touch;
    hide TokensAt;
    if e.Cleanup? {
      CleanupKeeps(s, cfg.cleanupBatch, cfg.ttl, e.now, t);
    }
  }

  lemma StepKeepsGood(cfg: Config, s: Table, e: Event, t: Table)
    requires Step(cfg, s, e, t) && Good(s, e.now)
    requires e.Call? ==> e.policy.burst >= 1
    ensures Good(t, e.now)
  {
    hide Touch;
    forall k | k in t ensures Coherent(t[k]) && t[k].lastSeen <= e.now {
      StepFate(cfg, s, e, t, k);
      match FateOf(s, e, t, k)
      case Created => TouchBalance(NewEntry(e.policy), e.policy, true, cfg.ttl, e.now);
      case Touched => TouchBalance(s[k], e.policy, e.consume, cfg.ttl, e.now);
      case _ =>
    }
  }

  lemma {:induction false} RunIsGood(cfg: Config, ss: seq<Table>, es: seq<Event>, n: nat)
    requires Run(cfg, ss, es) && n < |es|
    ensures Good(ss[n], es[n].now)
    ensures Good(ss[n + 1], es[n].now)
  {
    hide Step;
    if n > 0 {
      RunIsGood(cfg, ss, es, n - 1);
    }
    StepKeepsGood(cfg, ss[n], es[n], ss[n + 1]);
  }
}
