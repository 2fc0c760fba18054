/** The bounded limiter against the simple one: a table of buckets that are never evicted. */
module LimiterRefinement {
  import opened TokenBucket
  import opened LimiterSpec
  import opened LimiterRuns

  /** The simple limiter: no capacity, no cleanup, every bucket kept for ever. */
  function Ideal(u: Table, ttl: nat, key: string, policy: Policy, consume: bool, now: Time): (Table, Decision) {
    if key in u then
      var (e, d) := Touch(u[key], policy, consume, ttl, now);
      (u[key := e], d)
    else if !policy.enabled || !consume then (u, ALLOW)
    else
      var (e, d) := Create(policy, ttl, now);
      (u[key := e], d)
  }

  /** A new key that found no room: the call made no bucket. */
  ghost predicate CapacityRefusal(s: Table, e: Event, t: Table) {
    e.Call? && e.key !in s && e.policy.enabled && e.consume && e.key !in t
  }

  /** What the simple limiter holds after the first `n` events; capacity refusals never reach it. */
  ghost function Replay(cfg: Config, ss: seq<Table>, es: seq<Event>, n: nat): Table
    requires |ss| == |es| + 1 && n <= |es|
  {
    if n == 0 then map[]
    else
      var u, e := Replay(cfg, ss, es, n - 1), es[n - 1];
      if e.Cleanup? || CapacityRefusal(ss[n - 1], e, ss[n]) then u
      else Ideal(u, cfg.ttl, e.key, e.policy, e.consume, e.now).0
  }

  datatype Rule = Rule(enabled: bool, rate: real, burst: int)

  function RuleOf(p: Policy): Rule { Rule(p.enabled, p.rate, p.burst) }

  /** A caller with a newer policy does not raise the burst, and one with an older or the same
      revision brings the same rule. */
  predicate Succeeds(p: Policy, q: Policy) {
    if q.revision > p.revision then q.burst <= p.burst else RuleOf(q) == RuleOf(p)
  }

  /** For each key, every call's policy may follow those of the calls before it. Fixed rules are the
      simplest case. */
  ghost predicate BurstsNeverGrow(es: seq<Event>) {
    forall i, j :: 0 <= i < j < |es| && es[i].Call? && es[j].Call? && es[i].key == es[j].key ==>
                     Succeeds(es[i].policy, es[j].policy)
  }

  /** All calls on a key come with the same rule, at whatever revisions. */
  ghost predicate FixedRules(es: seq<Event>, rules: string -> Rule) {
    forall i :: 0 <= i < |es| && es[i].Call? ==> RuleOf(es[i].policy) == rules(es[i].key)
  }

  lemma FixedRulesNeverGrow(es: seq<Event>, rules: string -> Rule)
    requires FixedRules(es, rules)
    ensures BurstsNeverGrow(es)
  {}

  /** The live bucket is the ideal one; an older revision of the same rule may be in force in it. */
  ghost predicate Same(e: Entry, f: Entry) {
    && e.bucket == f.bucket && e.lastSeen == f.lastSeen
    && RuleOf(e.policy) == RuleOf(f.policy) && e.policy.revision <= f.policy.revision
  }

  /** A bucket that has all the tokens it can hold. */
  ghost predicate Full(f: Entry, now: Time) { TokensAt(f.bucket, now) >= f.policy.burst as real }

  /** The simulation: a live bucket is the ideal one, and an absent bucket is a full one. */
  ghost predicate Simulates(s: Table, u: Table, now: Time) {
    && s.Keys <= u.Keys
    && (forall k <- s :: Same(s[k], u[k]))
    && (forall k <- u :: k !in s ==> Full(u[k], now))
    && Good(u, now)
  }

  /** What the call brings may follow what is in force. */
  predicate MayFollow(u: Table, e: Event) {
    e.Call? && e.key in u ==> Succeeds(u[e.key].policy, e.policy)
  }

  lemma SameTouch(e: Entry, f: Entry, p: Policy, consume: bool, ttl: nat, now: Time)
    requires Same(e, f) && Succeeds(f.policy, p)
    ensures var (e', d) := Touch(e, p, consume, ttl, now);
            var (f', d') := Touch(f, p, consume, ttl, now);
            Same(e', f') && d == d'
  {}

  /** A full bucket under `p`'s rule is left with one token less, as of now, whatever its past. */
  lemma FullIsCharged(a: Entry, p: Policy, now: Time)
    requires RuleOf(a.policy) == RuleOf(p) && p.enabled && p.burst >= 1
    requires a.bucket.limit == p.rate && a.bucket.burst == p.burst && TokensAt(a.bucket, now) == p.burst as real
    ensures Decide(a, true, now) == (a.(bucket := Bucket(p.rate, p.burst, p.burst as real - 1.0, now)), ALLOW)
  {
    hide RefillDelay;
  }

  /** Making a bucket anew is the same as having kept a full one. */
  lemma FullIsFresh(f: Entry, p: Policy, ttl: nat, now: Time)
    requires Coherent(f) && f.lastSeen <= now && Full(f, now) && Succeeds(f.policy, p) && p.enabled && p.burst >= 1
    ensures var (e, d) := Create(p, ttl, now);
            var (f', d') := Touch(f, p, true, ttl, now);
            Same(e, f') && d == d' == ALLOW
  {
    var made, kept := NewEntry(p).(lastSeen := now), Adopt(f.(lastSeen := now), p, now);
    AdoptBalance(f, p, now);
    GainNonNegative(p.rate, now);
    assert Adopt(NewEntry(p).(lastSeen := now), p, now) == made;
    assert kept.policy.revision >= p.revision && RuleOf(kept.policy) == RuleOf(p);
    assert TokensAt(made.bucket, now) == p.burst as real == TokensAt(kept.bucket, now);
    hide TokensAt;
    hide Adopt;
    FullIsCharged(made, p, now);
    FullIsCharged(kept, p, now);
    hide Decide;
    ScheduleKeeps(Decide(made, true, now).0, ttl, now);
    ScheduleKeeps(Decide(kept, true, now).0, ttl, now);
    hide Schedule;
  }

  /** A call that needs no bucket is allowed by a full one, and leaves it full. */
  lemma FullIsIdle(f: Entry, p: Policy, consume: bool, ttl: nat, now: Time)
    requires Coherent(f) && f.lastSeen <= now && Full(f, now) && Succeeds(f.policy, p) && p.burst >= 1
    requires !p.enabled || !consume
    ensures var (f', d) := Touch(f, p, consume, ttl, now);
            d == ALLOW && Full(f', now) && Coherent(f') && f'.lastSeen == now
  {}

  lemma StepRefines(cfg: Config, s: Table, e: Event, t: Table, u: Table)
    requires Step(cfg, s, e, t) && Simulates(s, u, e.now) && MayFollow(u, e)
    requires e.Call? ==> e.policy.burst >= 1
    ensures e.Cleanup? || CapacityRefusal(s, e, t) ==> Simulates(t, u, e.now)
    ensures CapacityRefusal(s, e, t) ==> t == s && !e.decision.allowed && |s| >= cfg.maxEntries
    ensures e.Call? && !CapacityRefusal(s, e, t) ==> CallAgrees(cfg, e, t, u)
  {
    hide Touch;
    hide TokensAt;
    if e.Cleanup? {
      CleanupKeeps(s, cfg.cleanupBatch, cfg.ttl, e.now, t);
    } else if e.key in s {
      HitRefines(cfg, s, e, t, u);
    } else if e.key in t {
      CreationRefines(cfg, s, e, t, u);
    } else if !CapacityRefusal(s, e, t) {
      PassRefines(cfg, s, e, t, u);
    }
  }

  ghost predicate CallAgrees(cfg: Config, e: Event, t: Table, u: Table)
    requires e.Call?
  {
    var (v, d) := Ideal(u, cfg.ttl, e.key, e.policy, e.consume, e.now);
    d == e.decision && Simulates(t, v, e.now)
  }

  lemma HitRefines(cfg: Config, s: Table, e: Event, t: Table, u: Table)
    requires e.Call? && Step(cfg, s, e, t) && Simulates(s, u, e.now) && e.key in s
    requires e.policy.burst >= 1 && MayFollow(u, e)
    ensures CallAgrees(cfg, e, t, u)
  {
    hide Touch;
    hide TokensAt;
    SameTouch(s[e.key], u[e.key], e.policy, e.consume, cfg.ttl, e.now);
    TouchBalance(u[e.key], e.policy, e.consume, cfg.ttl, e.now);
    hide Coherent;
    hide Same;
    hide Succeeds;
  }

  lemma CreationRefines(cfg: Config, s: Table, e: Event, t: Table, u: Table)
    requires e.Call? && Step(cfg, s, e, t) && Simulates(s, u, e.now) && e.key !in s && e.key in t
    requires e.policy.burst >= 1 && MayFollow(u, e)
    ensures CallAgrees(cfg, e, t, u)
  {
    StepRoom(cfg, s, e, t);
    CreationSimulates(cfg, s, e, t, u);
  }

  lemma CreationSimulates(cfg: Config, s: Table, e: Event, t: Table, u: Table)
    requires e.Call? && Simulates(s, u, e.now) && e.key !in s && Made(cfg, s, e, t)
    requires e.policy.burst >= 1 && MayFollow(u, e)
    ensures CallAgrees(cfg, e, t, u)
  {
    hide Create;
    hide TokensAt;
    hide Coherent;
    IdealCreation(cfg, e, u);
    var v := Ideal(u, cfg.ttl, e.key, e.policy, e.consume, e.now).0;
    hide Ideal;
    EvictedWereFull(s, u, e.now, t);
    InstallSimulates(s, t, u, v[e.key], e.key, e.now);
    hide Simulates;
    hide Same;
  }

  /** Putting matching entries under one key into both tables. */
  lemma InstallSimulates(s: Table, t: Table, u: Table, f: Entry, key: string, now: Time)
    requires Simulates(s, u, now) && key in t && Same(t[key], f) && Coherent(f) && f.lastSeen <= now
    requires forall k <- t :: k != key ==> k in s && t[k] == s[k]
    requires forall k <- u :: k !in t ==> Full(u[k], now)
    ensures Simulates(t, u[key := f], now)
  {
    hide Full;
    hide Coherent;
    hide Same;
  }

  /** What left the table to make room was full, and so it is in the simple limiter. */
  lemma EvictedWereFull(s: Table, u: Table, now: Time, t: Table)
    requires Simulates(s, u, now)
    requires forall k <- s :: k !in t ==> Full(s[k], now)
    ensures forall k <- u :: k !in t ==> Full(u[k], now)
  {
    hide TokensAt;
    hide Coherent;
  }

  lemma IdealCreation(cfg: Config, e: Event, u: Table)
    requires e.Call? && e.policy.enabled && e.consume && e.policy.burst >= 1 && MayFollow(u, e)
    requires e.key in u ==> Coherent(u[e.key]) && u[e.key].lastSeen <= e.now && Full(u[e.key], e.now)
    ensures var (v, d) := Ideal(u, cfg.ttl, e.key, e.policy, e.consume, e.now);
            var (f, d') := Create(e.policy, cfg.ttl, e.now);
            && e.key in v && v == u[e.key := v[e.key]] && d == d'
            && Same(f, v[e.key]) && Coherent(v[e.key]) && v[e.key].lastSeen <= e.now
  {
    hide Touch;
    hide TokensAt;
    TouchBalance(NewEntry(e.policy), e.policy, true, cfg.ttl, e.now);
    if e.key in u {
      FullIsFresh(u[e.key], e.policy, cfg.ttl, e.now);
      TouchBalance(u[e.key], e.policy, true, cfg.ttl, e.now);
    }
  }

  lemma PassRefines(cfg: Config, s: Table, e: Event, t: Table, u: Table)
    requires e.Call? && Step(cfg, s, e, t) && Simulates(s, u, e.now) && e.key !in s && e.key !in t
    requires (!e.policy.enabled || !e.consume) && e.policy.burst >= 1 && MayFollow(u, e)
    ensures CallAgrees(cfg, e, t, u)
  {
    hide Touch;
    hide TokensAt;
    if e.key in u { FullIsIdle(u[e.key], e.policy, e.consume, cfg.ttl, e.now); }
    hide Full;
    hide Coherent;
    hide Same;
    hide Succeeds;
  }

  /** A created bucket takes its place after at most one full bucket has left. */
  ghost predicate Made(cfg: Config, s: Table, e: Event, t: Table)
    requires e.Call?
  {
    && e.key in t && e.policy.enabled && e.consume
    && (t[e.key], e.decision) == Create(e.policy, cfg.ttl, e.now)
    && (forall k <- t :: k != e.key ==> k in s && t[k] == s[k])
    && (forall k <- s :: k !in t ==> Full(s[k], e.now))
  }

  lemma StepRoom(cfg: Config, s: Table, e: Event, t: Table)
    requires e.Call? && Step(cfg, s, e, t) && e.key !in s && e.key in t
    ensures Made(cfg, s, e, t)
  {}

  lemma FullStaysFull(s: Table, u: Table, now: Time, later: Time)
    requires Simulates(s, u, now) && now <= later
    ensures Simulates(s, u, later)
  {
    hide TokensAt;
    forall k | k in u && k !in s ensures Full(u[k], later) {
      TokensGrow(u[k].bucket, now, later);
    }
  }

  /** Every policy in force in the simple limiter was brought by a call. */
  ghost predicate Brought(u: Table, es: seq<Event>, n: nat)
    requires n <= |es|
  {
    forall k <- u :: exists i :: 0 <= i < n && es[i].Call? && es[i].key == k && es[i].policy == u[k].policy
  }

  lemma IdealBrings(u: Table, cfg: Config, es: seq<Event>, n: nat)
    requires 0 < n <= |es| && es[n - 1].Call? && Brought(u, es, n - 1)
    ensures var e := es[n - 1]; Brought(Ideal(u, cfg.ttl, e.key, e.policy, e.consume, e.now).0, es, n)
  {
    var e := es[n - 1];
    var v := Ideal(u, cfg.ttl, e.key, e.policy, e.consume, e.now).0;
    if e.key in v {
      assert v[e.key].policy == e.policy || (e.key in u && v[e.key].policy == u[e.key].policy);
    }
    forall k <- v ensures exists i :: 0 <= i < n && es[i].Call? && es[i].key == k && es[i].policy == v[k].policy {
      if k in u && v[k].policy == u[k].policy {
        var i :| 0 <= i < n - 1 && es[i].Call? && es[i].key == k && es[i].policy == u[k].policy;
      } else {
        assert k == e.key && es[n - 1].policy == v[k].policy;
      }
    }
    hide Touch;
  }

  lemma {:induction false} ReplayBrings(cfg: Config, ss: seq<Table>, es: seq<Event>, n: nat)
    requires |ss| == |es| + 1 && n <= |es|
    ensures Brought(Replay(cfg, ss, es, n), es, n)
  {
    if n > 0 {
      ReplayBrings(cfg, ss, es, n - 1);
      if es[n - 1].Call? { IdealBrings(Replay(cfg, ss, es, n - 1), cfg, es, n); }
      hide Ideal;
    }
  }

  lemma ReplayIsFollowed(cfg: Config, ss: seq<Table>, es: seq<Event>, n: nat)
    requires |ss| == |es| + 1 && n < |es| && BurstsNeverGrow(es)
    ensures MayFollow(Replay(cfg, ss, es, n), es[n])
  {
    ReplayBrings(cfg, ss, es, n);
    hide Succeeds;
    hide Replay;
  }

  lemma {:induction false} ReplaySimulated(cfg: Config, ss: seq<Table>, es: seq<Event>, n: nat)
    requires Run(cfg, ss, es) && BurstsNeverGrow(es) && n < |es|
    ensures Simulates(ss[n], Replay(cfg, ss, es, n), es[n].now)
  {
    hide Step;
    hide BurstsNeverGrow;
    if n > 0 {
      ReplaySimulated(cfg, ss, es, n - 1);
      ReplayIsFollowed(cfg, ss, es, n - 1);
      StepRefines(cfg, ss[n - 1], es[n - 1], ss[n], Replay(cfg, ss, es, n - 1));
      FullStaysFull(ss[n], Replay(cfg, ss, es, n), es[n - 1].now, es[n].now);
    }
    hide Simulates;
    hide MayFollow;
  }

  /** As long as no key's burst grows and older revisions bring no other rule, every decision, with
      its retry delay, is the one the simple limiter makes, except that a full table may refuse a new
      key, which then charges nothing. */
  lemma Refines(cfg: Config, ss: seq<Table>, es: seq<Event>, n: nat)
    requires Run(cfg, ss, es) && BurstsNeverGrow(es) && n < |es| && es[n].Call?
    ensures var e := es[n];
            if CapacityRefusal(ss[n], e, ss[n + 1])
            then !e.decision.allowed && ss[n + 1] == ss[n] && |ss[n]| >= cfg.maxEntries
            else e.decision == Ideal(Replay(cfg, ss, es, n), cfg.ttl, e.key, e.policy, e.consume, e.now).1
  {
    hide Step;
    hide Simulates;
    hide MayFollow;
    hide BurstsNeverGrow;
    ReplaySimulated(cfg, ss, es, n);
    ReplayIsFollowed(cfg, ss, es, n);
    StepRefines(cfg, ss[n], es[n], ss[n + 1], Replay(cfg, ss, es, n));
    hide Ideal;
    hide Replay;
  }

  /** A bucket made anew is the full one that could have been kept exactly when the caller's policy
      may follow the one in force: a larger burst tells them apart, and so does any other rule brought
      by a caller that is not newer. */
  lemma RecreationAgreesIff(f: Entry, p: Policy, ttl: nat, now: Time)
    requires Coherent(f) && f.lastSeen <= now && Full(f, now) && p.enabled && p.burst >= 1
    ensures Same(Create(p, ttl, now).0, Touch(f, p, true, ttl, now).0) <==> Succeeds(f.policy, p)
  {
    if Succeeds(f.policy, p) {
      FullIsFresh(f, p, ttl, now);
    } else {
      TouchBalance(f, p, true, ttl, now);
      TouchBalance(NewEntry(p), p, true, ttl, now);
      GainNonNegative(p.rate, now);
      hide Touch;
    }
  }
}
