/** How long buckets live, how many there are, and what odd clocks do to them. */
module LimiterLifetimes {
  import opened TokenBucket
  import opened LimiterSpec
  import opened LimiterRuns
  import opened LimiterRefinement
  import opened LimiterDeadlines
  import opened LimiterDivergence
  import opened LimiterRates
  import opened RateConfig

  // ---- Lifetimes -------------------------------------------------------------------------------------

  /** At `t` the deadline has passed exactly if the bucket was idle for its lifetime and is full. */
  ghost predicate DueAt(e: Entry, ttl: nat, t: Time) {
    t >= e.expiresAt <==> t >= e.lastSeen + ttl && TokensAt(e.bucket, t) >= e.policy.burst as real
  }

  ghost predicate DueExactly(e: Entry, ttl: nat) { forall t: Time :: t >= e.lastSeen ==> DueAt(e, ttl, t) }

  lemma ScheduleIsExact(e: Entry, ttl: nat, now: Time)
    requires Coherent(e) && e.lastSeen <= now && Sane(e.policy.rate, e.policy.burst)
    ensures forall t: Time :: t >= now ==> DueAt(Schedule(e, ttl, now), ttl, t)
  {
    var missing := Missing(e, now);
    GainNonNegative(e.policy.rate, now - e.bucket.last);
    DelayIsMonotone(missing, e.policy.burst as real, e.policy.rate);
    forall t: Time | t >= now
      ensures TokensAt(e.bucket, t) >= e.policy.burst as real <==> t >= now + RefillDelay(missing, e.policy.rate)
    {
      TokensLater(e.bucket, now, t - now);
      RefillDelayIsLeast(missing, e.policy.rate, t - now);
    }
    hide TokensAt;
    hide RefillDelay;
  }

  /** One turn of the cleanup removes a full bucket, and gives one that is not the deadline at which it will
      be; it touches nothing else. */
  lemma TurnRemovesOrPutsOff(s: Table, k: string, ttl: nat, now: Time)
    requires k in s && Coherent(s[k]) && s[k].lastSeen <= now && Sane(s[k].policy.rate, s[k].policy.burst)
    ensures var t := CleanOne(s, k, ttl, now);
            if TokensAt(s[k].bucket, now) >= s[k].policy.burst as real then t == s - {k}
            else
              && t.Keys == s.Keys && (forall j <- s :: j != k ==> t[j] == s[j])
              && t[k] == s[k].(expiresAt := t[k].expiresAt) && t[k].expiresAt > now
              && forall u: Time :: u >= now ==> DueAt(t[k], ttl, u)
  {
    ScheduleIsExact(s[k], ttl, now);
    ScheduleKeeps(s[k], ttl, now);
    assert DueAt(Schedule(s[k], ttl, now), ttl, now);
    hide Schedule;
    hide TokensAt;
  }

  lemma TouchIsExact(e: Entry, policy: Policy, consume: bool, ttl: nat, now: Time)
    requires Coherent(e) && e.lastSeen <= now
    requires Sane(e.policy.rate, e.policy.burst) && Sane(policy.rate, policy.burst)
    ensures DueExactly(Touch(e, policy, consume, ttl, now).0, ttl)
  {
    hide Schedule;
    hide RefillDelay;
    hide DueAt;
    var a := Adopt(e.(lastSeen := now), policy, now);
    AdoptBalance(e, policy, now);
    DecideBalance(a, consume, now);
    ScheduleIsExact(Decide(a, consume, now).0, ttl, now);
    ScheduleKeeps(Decide(a, consume, now).0, ttl, now);
    hide TokensAt;
  }

  lemma {:induction false} RunIsExact(cfg: Config, ss: seq<Table>, es: seq<Event>, n: nat)
    requires Run(cfg, ss, es) && SanePolicies(es) && n < |ss|
    ensures forall k <- ss[n] :: DueExactly(ss[n][k], cfg.ttl)
  {
    hide DueExactly;
    hide Step;
    hide Good;
    hide AllOnTime;
    hide Sane;
    if n > 0 {
      RunIsExact(cfg, ss, es, n - 1);
      RunIsGood(cfg, ss, es, n - 1);
      RunIsOnTime(cfg, ss, es, n - 1);
      assert Step(cfg, ss[n - 1], es[n - 1], ss[n]);
      StepIsExact(cfg, ss[n - 1], es[n - 1], ss[n]);
    }
  }

  lemma StepIsExact(cfg: Config, s: Table, e: Event, t: Table)
    requires Step(cfg, s, e, t) && Good(s, e.now) && AllOnTime(s)
    requires e.Call? ==> Sane(e.policy.rate, e.policy.burst)
    requires forall k <- s :: DueExactly(s[k], cfg.ttl)
    ensures forall k <- t :: DueExactly(t[k], cfg.ttl)
  {
    hide DueExactly;
    hide Good;
    hide AllOnTime;
    hide Sane;
    if e.Cleanup? {
      CleanupIsExact(s, cfg.cleanupBatch, cfg.ttl, e.now, t);
      hide CleanupStep;
    } else {
      hide Step;
      forall k <- t ensures DueExactly(t[k], cfg.ttl) { CallIsExact(cfg, s, e, t, k); }
    }
  }

  lemma CallIsExact(cfg: Config, s: Table, e: Event, t: Table, k: string)
    requires Step(cfg, s, e, t) && e.Call? && Good(s, e.now) && AllOnTime(s) && k in t
    requires Sane(e.policy.rate, e.policy.burst) && (k in s ==> DueExactly(s[k], cfg.ttl))
    ensures DueExactly(t[k], cfg.ttl)
  {
    hide Touch;
    hide DueExactly;
    if k != e.key {
      OtherKeysKept(cfg, s, e, t, k);
    } else {
      StepFate(cfg, s, e, t, k);
      hide Step;
      NewIsCoherent(e.policy);
      TouchIsExact(if k in s then s[k] else NewEntry(e.policy), e.policy, e.consume, cfg.ttl, e.now);
    }
  }

  /** In every reachable state, at any later time, a bucket's deadline has passed exactly if it has been
      left alone for the lifetime and is full. */
  lemma DeadlineIsExact(cfg: Config, ss: seq<Table>, es: seq<Event>, n: nat, k: string, t: Time)
    requires Run(cfg, ss, es) && SanePolicies(es) && n < |ss| && k in ss[n] && t >= ss[n][k].lastSeen
    ensures t >= ss[n][k].expiresAt <==>
            t >= ss[n][k].lastSeen + cfg.ttl && TokensAt(ss[n][k].bucket, t) >= ss[n][k].policy.burst as real
  {
    RunIsExact(cfg, ss, es, n);
    hide Run;
    assert DueAt(ss[n][k], cfg.ttl, t);
  }

  /** A bucket was last seen no earlier than any call on its key. */
  lemma {:induction false} SeenAtLastCall(cfg: Config, ss: seq<Table>, es: seq<Event>, n: nat, k: string, i: nat)
    requires Run(cfg, ss, es) && n < |ss| && k in ss[n] && i < n && es[i].Call? && es[i].key == k
    ensures es[i].now <= ss[n][k].lastSeen
  {
    hide Touch;
    var e := es[n - 1];
    RunIsGood(cfg, ss, es, n - 1);
    StepFate(cfg, ss[n - 1], e, ss[n], k);
    hide Step;
    if e.Call? && e.key == k {
      NewIsCoherent(e.policy);
      TouchBalance(if k in ss[n - 1] then ss[n - 1][k] else NewEntry(e.policy), e.policy, e.consume, cfg.ttl, e.now);
      assert es[i].now <= es[n - 1].now;
    } else {
      SeenAtLastCall(cfg, ss, es, n - 1, k, i);
    }
    hide TokensAt;
  }

  /** No cleanup removes a bucket that was called less than a lifetime ago. */
  lemma CleanupSparesRecentCallers(cfg: Config, ss: seq<Table>, es: seq<Event>, n: nat, k: string, i: nat)
    requires Run(cfg, ss, es) && SanePolicies(es) && n < |es| && es[n].Cleanup? && k in ss[n] && k !in ss[n + 1]
    requires i < n && es[i].Call? && es[i].key == k
    ensures es[i].now + cfg.ttl <= es[n].now
  {
    RunCleanupIsExact(cfg, ss, es, n);
    RunIsGood(cfg, ss, es, n);
    DeadlineIsExact(cfg, ss, es, n, k, es[n].now);
    SeenAtLastCall(cfg, ss, es, n, k, i);
    hide Step;
    hide TokensAt;
  }

  /** A batch that is large enough removes exactly the buckets that were left alone for the lifetime
      and are full. */
  lemma CleanupRemovesIff(cfg: Config, ss: seq<Table>, es: seq<Event>, n: nat, k: string)
    requires Run(cfg, ss, es) && SanePolicies(es) && n < |es| && es[n].Cleanup? && k in ss[n]
    requires |Expired(ss[n], es[n].now)| <= cfg.cleanupBatch
    ensures var e, now := ss[n][k], es[n].now;
            k !in ss[n + 1] <==> e.lastSeen + cfg.ttl <= now && TokensAt(e.bucket, now) >= e.policy.burst as real
  {
    hide Step;
    hide TokensAt;
    RunCleanupIsExact(cfg, ss, es, n);
    RunIsGood(cfg, ss, es, n);
    DeadlineIsExact(cfg, ss, es, n, k, es[n].now);
    AllExpiredGo(ss[n], ss[n + 1], es[n].now);
  }

  lemma AllExpiredGo(s: Table, t: Table, now: Time)
    requires t.Keys <= s.Keys && |s| - |t| == |Expired(s, now)|
    requires forall k <- s :: k !in t ==> k in Expired(s, now)
    ensures forall k <- s :: k !in t <==> k in Expired(s, now)
  {
    var gone := s.Keys - t.Keys;
    assert |s.Keys| == |gone| + |t.Keys| by { assert s.Keys == gone + t.Keys; }
    SameSize(gone, Expired(s, now));
  }

  lemma SameSize(a: set<string>, b: set<string>)
    requires a <= b && |a| == |b|
    ensures a == b
  {
    assert |b| == |a| + |b - a| by { assert b == a + (b - a); }
  }

  // ---- Capacity --------------------------------------------------------------------------------------

  lemma {:induction false} SizeIsBounded(cfg: Config, ss: seq<Table>, es: seq<Event>, n: nat)
    requires Run(cfg, ss, es) && cfg.maxEntries > 0 && n < |ss|
    ensures |ss[n]| <= cfg.maxEntries
  {
    if n > 0 {
      SizeIsBounded(cfg, ss, es, n - 1);
      assert Step(cfg, ss[n - 1], es[n - 1], ss[n]);
      StepKeepsSize(cfg, ss[n - 1], es[n - 1], ss[n]);
    }
    hide Step;
  }

  lemma StepKeepsSize(cfg: Config, s: Table, e: Event, t: Table)
    requires Step(cfg, s, e, t) && cfg.maxEntries > 0 && |s| <= cfg.maxEntries
    ensures |t| <= cfg.maxEntries
  {
    hide Touch;
    hide TokensAt;
    if e.Cleanup? {
      CleanupKeeps(s, cfg.cleanupBatch, cfg.ttl, e.now, t);
      FewerKeys(t, s);
    } else if e.key in s {
      assert t.Keys == s.Keys;
      FewerKeys(t, s);
    } else if e.key in t {
      NewKeyTakesAPlace(cfg, s, e, t);
    }
  }

  lemma FewerKeys(t: Table, s: Table)
    requires t.Keys <= s.Keys
    ensures |t| <= |s|
  {
    assert |s.Keys| == |t.Keys| + |s.Keys - t.Keys| by { assert s.Keys == t.Keys + (s.Keys - t.Keys); }
    assert |t| == |t.Keys| && |s| == |s.Keys|;
  }

  /** The bucket with the earliest deadline. */
  ghost predicate Earliest(s: Table, k: string) { k in s && forall j <- s :: s[k].expiresAt <= s[j].expiresAt }

  /** A new key takes a free place, or the place of a full bucket with the earliest deadline. */
  lemma NewKeyTakesAPlace(cfg: Config, s: Table, e: Event, t: Table)
    requires Step(cfg, s, e, t) && e.Call? && e.key !in s && e.key in t && cfg.maxEntries > 0
    ensures |s| < cfg.maxEntries ==> t.Keys == s.Keys + {e.key} && |t| == |s| + 1
    ensures |s| >= cfg.maxEntries ==>
              && |t| == |s|
              && exists k :: Earliest(s, k) && Full(s[k], e.now) && t.Keys == s.Keys - {k} + {e.key}
  {
    hide Touch;
    hide TokensAt;
    var room: Table :| MadeRoom(cfg, s, e.now, room) && e.key !in room && t == room[e.key := t[e.key]];
    assert |t| == |t.Keys| && |s| == |s.Keys| && |room| == |room.Keys|;
    assert t.Keys == room.Keys + {e.key};
    if |s| >= cfg.maxEntries {
      var k :| IsHead(s, k) && Missing(s[k], e.now) <= 0.0 && room == s - {k};
      assert Earliest(s, k) && room.Keys == s.Keys - {k};
    }
  }

  ghost predicate FullAfter(e: Entry, now: Time, wait: nat) { Full(e, now + wait) }

  /** The bucket is full from `delay` on and not before. */
  ghost predicate FillsIn(e: Entry, now: Time, delay: nat) {
    forall wait: nat :: FullAfter(e, now, wait) <==> wait >= delay
  }

  lemma HeadFillsIn(e: Entry, now: Time)
    requires Coherent(e) && e.lastSeen <= now && Sane(e.policy.rate, e.policy.burst) && Missing(e, now) > 0.0
    ensures FillsIn(e, now, RefillDelay(Missing(e, now), e.policy.rate)) && !Full(e, now)
    ensures RefillDelay(Missing(e, now), e.policy.rate) > 0
  {
    hide RefillDelay;
    forall w: nat
      ensures FullAfter(e, now, w) <==> w >= RefillDelay(Missing(e, now), e.policy.rate)
    {
      CapacityRetryIsLeast(e, now, w);
    }
    assert !FullAfter(e, now, 0);
  }

  /** A call on a new key is refused for want of room exactly in the way it says: the table is at its
      capacity, a bucket with the earliest deadline lacks tokens, the refusal names the least wait
      after which that bucket is full, and nothing changes. */
  lemma RefusalForRoom(cfg: Config, ss: seq<Table>, es: seq<Event>, n: nat)
    requires Run(cfg, ss, es) && SanePolicies(es) && cfg.maxEntries > 0 && n < |es|
    requires CapacityRefusal(ss[n], es[n], ss[n + 1])
    ensures |ss[n]| == cfg.maxEntries && ss[n + 1] == ss[n] && !es[n].decision.allowed && es[n].decision.retryAfter > 0
    ensures exists k :: && Earliest(ss[n], k) && !Full(ss[n][k], es[n].now)
                        && FillsIn(ss[n][k], es[n].now, es[n].decision.retryAfter)
  {
    hide RefillDelay;
    var s, e := ss[n], es[n];
    assert Step(cfg, s, e, ss[n + 1]);
    SizeIsBounded(cfg, ss, es, n);
    RunIsGood(cfg, ss, es, n);
    RunIsOnTime(cfg, ss, es, n);
    var k :| IsHead(s, k) && Missing(s[k], e.now) > 0.0
             && e.decision == Decision(false, RefillDelay(Missing(s[k], e.now), s[k].policy.rate));
    assert OnTime(s[k]) && Coherent(s[k]) && s[k].lastSeen <= e.now;
    HeadFillsIn(s[k], e.now);
    assert Earliest(s, k);
    hide Step;
    hide Run;
    hide Touch;
    hide TokensAt;
  }

  /** A new key is refused only at capacity, and only if no bucket with the earliest deadline is the
      kind that may go: below capacity, or if all of those are full, it finds its place. */
  lemma NewKeyFindsRoom(cfg: Config, ss: seq<Table>, es: seq<Event>, n: nat)
    requires Run(cfg, ss, es) && cfg.maxEntries > 0 && n < |es| && es[n].Call? && es[n].key !in ss[n]
    requires es[n].policy.enabled && es[n].consume
    requires |ss[n]| < cfg.maxEntries || forall k :: Earliest(ss[n], k) ==> Full(ss[n][k], es[n].now)
    ensures es[n].key in ss[n + 1] && es[n].decision == ALLOW
  {
    hide Touch;
    var s, e := ss[n], es[n];
    assert Step(cfg, s, e, ss[n + 1]);
    if e.key in ss[n + 1] {
      StepFate(cfg, s, e, ss[n + 1], e.key);
      NewIsFull(e.policy, e.now);
      NewIsCoherent(e.policy);
      TakesOne(NewEntry(e.policy), e.policy, cfg.ttl, e.now, e.policy.burst);
      AllowedIsAllow(NewEntry(e.policy), e.policy, true, cfg.ttl, e.now);
    } else {
      HeadsAreEarliest(s);
    }
    hide Step;
  }

  lemma HeadsAreEarliest(s: Table)
    ensures forall k :: IsHead(s, k) ==> Earliest(s, k)
  {}

  /** An admission comes without a delay. */
  lemma AllowedIsAllow(e: Entry, p: Policy, consume: bool, ttl: nat, now: Time)
    ensures Touch(e, p, consume, ttl, now).1.allowed ==> Touch(e, p, consume, ttl, now).1 == ALLOW
  {
    hide Schedule;
    hide RefillDelay;
  }

  // ---- What a client gets ----------------------------------------------------------------------------

  /** A bucket after `i` charging calls at one instant. */
  function CalledTimes(p: Policy, ttl: nat, t: Time, i: nat): Entry {
    if i == 0 then NewEntry(p) else Touch(CalledTimes(p, ttl, t, i - 1), p, true, ttl, t).0
  }

  /** Of the calls that a new client makes at once, exactly the first `burst` are admitted. */
  lemma {:induction false} NewClientGetsItsBurst(p: Policy, ttl: nat, t: Time, i: nat)
    requires p.enabled && p.burst >= 1 && i <= p.burst
    ensures Touch(CalledTimes(p, ttl, t, i), p, true, ttl, t).1.allowed <==> i < p.burst
    ensures Coherent(CalledTimes(p, ttl, t, i)) && CalledTimes(p, ttl, t, i).lastSeen <= t
    ensures DownTo(CalledTimes(p, ttl, t, i), p, t, p.burst - i) && CalledTimes(p, ttl, t, i).policy == p
  {
    hide Touch;
    hide TokensAt;
    hide Coherent;
    if i == 0 {
      NewIsFull(p, t);
      NewIsCoherent(p);
    } else {
      NewClientGetsItsBurst(p, ttl, t, i - 1);
      TakesOne(CalledTimes(p, ttl, t, i - 1), p, ttl, t, p.burst - (i - 1));
      TouchBalance(CalledTimes(p, ttl, t, i - 1), p, true, ttl, t);
    }
    TakesOne(CalledTimes(p, ttl, t, i), p, ttl, t, p.burst - i);
  }

  /** A peek says what a charging call would be told, and leaves all tokens the burst in force allows. */
  lemma PeekForetells(e: Entry, p: Policy, ttl: nat, now: Time)
    requires Coherent(e) && e.lastSeen <= now && p.burst >= 1
    ensures var (e', d) := Touch(e, p, false, ttl, now);
            && d == Touch(e, p, true, ttl, now).1
            && TokensAt(e'.bucket, now) == Min(TokensAt(e.bucket, now), e'.policy.burst as real)
  {
    TouchBalance(e, p, false, ttl, now);
    PeekDecidesAlike(Adopt(e.(lastSeen := now), p, now), now);
    hide Decide;
    hide Adopt;
    hide Schedule;
    hide TokensAt;
  }

  lemma PeekDecidesAlike(a: Entry, now: Time)
    ensures Decide(a, false, now).1 == Decide(a, true, now).1
  {
    hide RefillDelay;
  }

  /** A disabled rule in force admits every call. */
  lemma DisabledAdmits(e: Entry, p: Policy, consume: bool, ttl: nat, now: Time)
    requires if p.revision > e.policy.revision then !p.enabled else !e.policy.enabled
    ensures Touch(e, p, consume, ttl, now).1 == ALLOW
  {
    hide Schedule;
    hide RefillDelay;
  }

  // ---- Clocks that go back ---------------------------------------------------------------------------

  function Later(a: Time, b: Time): Time { if a < b then b else a }

  /** A call whose clock is behind the bucket's is a call at the bucket's own time. */
  lemma BackwardClock(e: Entry, p: Policy, consume: bool, ttl: nat, now: Time)
    ensures Touch(e, p, consume, ttl, now) == Touch(e, p, consume, ttl, Later(e.lastSeen, now))
    ensures Touch(e, p, consume, ttl, now).0.lastSeen == Later(e.lastSeen, now)
  {
    hide RefillDelay;
  }

  /** Calls on one bucket, at whatever times the clock shows. */
  function After(e: Entry, p: Policy, ttl: nat, calls: seq<Time>): Entry
    decreases |calls|
  {
    if calls == [] then e else
      Touch(After(e, p, ttl, calls[..|calls| - 1]), p, true, ttl, calls[|calls| - 1]).0
  }

  function Admitted(e: Entry, p: Policy, ttl: nat, calls: seq<Time>): nat
    decreases |calls|
  {
    if calls == [] then 0 else
      var rest, now := calls[..|calls| - 1], calls[|calls| - 1];
      Admitted(e, p, ttl, rest) + if Touch(After(e, p, ttl, rest), p, true, ttl, now).1.allowed then 1 else 0
  }

  /** However the clock jumps, a bucket's own time only goes on, and what it admits is covered by what it
      held and what its rate earned in that time. */
  lemma {:induction false} AnyClockIsBounded(e: Entry, p: Policy, ttl: nat, calls: seq<Time>)
    requires Coherent(e) && e.policy == p && p.enabled && p.rate > 0.0
    ensures var f := After(e, p, ttl, calls);
            && Coherent(f) && f.policy == p && e.lastSeen <= f.lastSeen
            && (forall t <- calls :: t <= f.lastSeen) && (f.lastSeen == e.lastSeen || f.lastSeen in calls)
            && TokensAt(f.bucket, f.lastSeen) + Admitted(e, p, ttl, calls) as real
               <= TokensAt(e.bucket, e.lastSeen) + Gain(p.rate, f.lastSeen - e.lastSeen)
    decreases |calls|
  {
    hide Touch;
    if calls == [] {
      GainNonNegative(p.rate, 0);
    } else {
      var rest, now := calls[..|calls| - 1], calls[|calls| - 1];
      AnyClockIsBounded(e, p, ttl, rest);
      var g := After(e, p, ttl, rest);
      var at := Later(g.lastSeen, now);
      BackwardClock(g, p, true, ttl, now);
      TouchBalance(g, p, true, ttl, at);
      TokensGrow(g.bucket, g.lastSeen, at);
      GainAdds(p.rate, g.lastSeen - e.lastSeen, at - g.lastSeen);
      assert calls == rest + [now];
      hide TokensAt;
      hide Gain;
      hide Coherent;
    }
  }
}
