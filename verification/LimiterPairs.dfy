/** Exactly which policies the bounded limiter cannot tell apart from the simple one. */
module LimiterPairs {
  import opened TokenBucket
  import opened LimiterSpec
  import opened LimiterRuns
  import opened LimiterRefinement
  import opened LimiterDivergence
  import opened LimiterRates
  import opened RateConfig

  // ---- Buckets of one token --------------------------------------------------------------------------

  /** At this rate one token takes `w` nanoseconds, rounded up. */
  predicate InSlot(r: real, w: nat) {
    w >= 1 && r > 0.0 && (w - 1) as real * r < SECOND as real <= w as real * r
  }

  lemma SlotOfDelay(r: real)
    requires r > 0.0 && RefillDelay(1.0, r) < MAX_INT64
    ensures InSlot(r, RefillDelay(1.0, r))
  {
    var w := RefillDelay(1.0, r);
    RefillDelayIsLeast(1.0, r, w);
    RefillDelayIsLeast(1.0, r, 0);
    if w > 0 { RefillDelayIsLeast(1.0, r, w - 1); }
    GainIsShare(r, w);
    if w > 0 { GainIsShare(r, w - 1); }
    hide RefillDelay;
    hide Gain;
  }

  lemma GainIsShare(r: real, dt: nat)
    requires r > 0.0
    ensures Gain(r, dt) * SECOND as real == r * dt as real && Gain(r, 0) == 0.0
  {
    assert dt as real / SECOND as real * SECOND as real == dt as real;
  }

  /** The missing part `x` of a token is there in `m` nanoseconds, at any rate of the slot. */
  ghost predicate Owes(x: real, m: nat, w: nat) {
    && 1 <= m <= w && x * w as real <= m as real
    && forall r :: InSlot(r, w) ==> x * SECOND as real > (m - 1) as real * r
  }

  /** Part of the wait under one rate leaves the rest of it, whatever rate comes next. */
  lemma OwesLess(x: real, m: nat, w: nat, s: real, dt: nat)
    requires Owes(x, m, w) && InSlot(s, w) && dt < m
    ensures Owes(x - Gain(s, dt), m - dt, w)
  {
    GainIsShare(s, dt);
    hide Gain;
    var y := x - Gain(s, dt);
    assert y * SECOND as real == x * SECOND as real - s * dt as real;
    forall r | InSlot(r, w) ensures y * SECOND as real > (m - dt - 1) as real * r { OwesLessAt(x, y, m, w, s, dt, r); }
    GainCovers(s, w, dt);
    assert y * w as real == x * w as real - Gain(s, dt) * w as real;
  }

  lemma OwesLessAt(x: real, y: real, m: nat, w: nat, s: real, dt: nat, r: real)
    requires Owes(x, m, w) && InSlot(s, w) && InSlot(r, w) && dt < m
    requires y * SECOND as real == x * SECOND as real - s * dt as real
    ensures y * SECOND as real > (m - dt - 1) as real * r
  {
    var rest := (m - dt - 1) as real;
    assert (m - 1) as real == rest + dt as real;
    if r >= s {
      assert x * SECOND as real > (m - 1) as real * r;
      assert (m - 1) as real * r == rest * r + dt as real * r;
      Scaled(dt as real, s, r);
    } else {
      assert x * SECOND as real > (m - 1) as real * s;
      assert (m - 1) as real * s == rest * s + dt as real * s;
      Scaled(rest, r, s);
    }
  }

  lemma Scaled(k: real, x: real, y: real)
    requires k >= 0.0 && x <= y
    ensures k * x <= k * y
  {}

  /** A rate of the slot earns at least its share of a token. */
  lemma GainCovers(s: real, w: nat, dt: nat)
    requires InSlot(s, w)
    ensures Gain(s, dt) * w as real >= dt as real
  {
    GainIsShare(s, dt);
    hide Gain;
    Scaled(dt as real, SECOND as real, w as real * s);
    assert Gain(s, dt) * w as real * SECOND as real == dt as real * (w as real * s);
  }

  /** After the whole wait nothing is missing. */
  lemma OwesNothing(x: real, m: nat, w: nat, s: real, dt: nat)
    requires Owes(x, m, w) && InSlot(s, w) && dt >= m
    ensures Gain(s, dt) >= x
  {
    GainCovers(s, w, dt);
    hide Gain;
    hide InSlot;
    if Gain(s, dt) < x { MulMonoStrict(w as real, Gain(s, dt), x); }
  }

  lemma NeedTimesRate(x: real, r: real)
    requires r > 0.0
    ensures r * (x / r * SECOND as real) == x * SECOND as real
  {
    var z := x / r;
    assert r * z == x;
    assert r * (z * SECOND as real) == (r * z) * SECOND as real;
  }

  lemma CeilIs(x: real, m: nat)
    requires m >= 1 && (m - 1) as real < x <= m as real
    ensures Ceil(x) == m
  {}

  /** What is owed is the whole delay that the caller is told. */
  lemma OwesDelay(x: real, m: nat, w: nat, r: real)
    requires Owes(x, m, w) && InSlot(r, w) && w < MAX_INT64
    ensures x > 0.0 && RefillDelay(x, r) == m
  {
    assert x * SECOND as real > (m - 1) as real * r;
    Scaled(r, 0.0, (m - 1) as real);
    assert x > 0.0;
    var need := x / r * SECOND as real;
    NeedTimesRate(x, r);
    NeedIsAbout(x, m, w, r, need);
    CeilIs(need, m);
  }

  lemma NeedIsAbout(x: real, m: nat, w: nat, r: real, need: real)
    requires r > 0.0 && x > 0.0 && m >= 1 && r * need == x * SECOND as real
    requires x * SECOND as real > (m - 1) as real * r && x * w as real <= m as real && SECOND as real <= w as real * r
    ensures (m - 1) as real < need <= m as real
  {
    if need <= (m - 1) as real { MulMono(r, need, (m - 1) as real); }
    Scaled(x, SECOND as real, w as real * r);
    Scaled(r, x * w as real, m as real);
    assert x * (w as real * r) == r * (x * w as real);
    if need > m as real { MulMonoStrict(r, m as real, need); }
  }

  /** From `t` on, the bucket has its token exactly when `due` has come, and owes it until then. */
  ghost predicate OnDue(b: Bucket, t: Time, due: Time, w: nat) {
    && b.burst == 1 && InSlot(b.limit, w) && b.last <= t
    && if t >= due then TokensAt(b, t) == 1.0 else Owes(1.0 - TokensAt(b, t), due - t, w)
  }

  lemma DueLater(b: Bucket, t: Time, due: Time, w: nat, u: Time)
    requires OnDue(b, t, due, w) && t <= u
    ensures OnDue(b, u, due, w)
  {
    TokensLater(b, t, u - t);
    GainNonNegative(b.limit, u - t);
    if t < due {
      if u < due {
        OwesLess(1.0 - TokensAt(b, t), due - t, w, b.limit, u - t);
        OwedIsMissing(1.0 - TokensAt(b, u), 1.0 - TokensAt(b, t) - Gain(b.limit, u - t), due - u, w);
      } else {
        OwesNothing(1.0 - TokensAt(b, t), due - t, w, b.limit, u - t);
      }
    }
    hide Gain;
    hide TokensAt;
    hide Owes;
    hide InSlot;
  }

  /** What is owed is positive, so the burst has not cut anything off. */
  lemma OwedIsMissing(x: real, y: real, m: nat, w: nat)
    requires Owes(y, m, w) && exists r :: InSlot(r, w)
    requires x == 1.0 - Min(1.0, 1.0 - y)
    ensures x == y
  {
    var r :| InSlot(r, w);
    assert y * SECOND as real > (m - 1) as real * r;
    Scaled(r, 0.0, (m - 1) as real);
  }

  /** A caller of a bucket of one token, at a rate of the slot. */
  predicate Single(p: Policy, w: nat) { p.enabled && p.burst == 1 && InSlot(p.rate, w) }

  /** A call on such a bucket is decided, and leaves the bucket due, by the due time alone. */
  lemma TouchDue(e: Entry, p: Policy, consume: bool, ttl: nat, now: Time, due: Time, w: nat)
    requires Coherent(e) && e.lastSeen <= now && Single(e.policy, w) && Single(p, w) && w < MAX_INT64
    requires OnDue(e.bucket, now, due, w)
    ensures var (e', d) := Touch(e, p, consume, ttl, now);
            && d == (if now >= due then ALLOW else Decision(false, due - now))
            && Single(e'.policy, w) && Coherent(e') && e'.lastSeen <= now
            && OnDue(e'.bucket, now, if consume && now >= due then now + w else due, w)
  {
    var a := Adopt(e.(lastSeen := now), p, now);
    AdoptBalance(e, p, now);
    hide Adopt;
    hide InSlot;
    AdoptedIsDue(e, a, now, due, w);
    DecideDue(a, consume, now, due, w);
    DecideBalance(a, consume, now);
    hide Decide;
    ScheduleKeeps(Decide(a, consume, now).0, ttl, now);
    hide Schedule;
    hide OnDue;
  }

  lemma AdoptedIsDue(e: Entry, a: Entry, now: Time, due: Time, w: nat)
    requires OnDue(e.bucket, now, due, w) && Coherent(a) && Single(a.policy, w) && a.lastSeen == now
    requires TokensAt(a.bucket, now) == Min(TokensAt(e.bucket, now), a.policy.burst as real)
    ensures OnDue(a.bucket, now, due, w)
  {
    hide InSlot;
    hide Owes;
    assert TokensAt(e.bucket, now) <= 1.0;
  }

  lemma DecideDue(a: Entry, consume: bool, now: Time, due: Time, w: nat)
    requires Coherent(a) && a.lastSeen == now && Single(a.policy, w) && w < MAX_INT64 && OnDue(a.bucket, now, due, w)
    ensures var (e, d) := Decide(a, consume, now);
            && d == (if now >= due then ALLOW else Decision(false, due - now))
            && OnDue(e.bucket, now, if consume && now >= due then now + w else due, w)
  {
    if now < due {
      OwesDelay(1.0 - TokensAt(a.bucket, now), due - now, w, a.policy.rate);
      hide RefillDelay;
      hide TokensAt;
    } else {
      hide RefillDelay;
      DrainedIsDue(a.bucket, now, w);
      hide OnDue;
    }
  }

  lemma DrainedIsDue(b: Bucket, now: Time, w: nat)
    requires b.burst == 1 && InSlot(b.limit, w) && TokensAt(b, now) == 1.0
    ensures OnDue(AllowOne(b, now).0, now, now + w, w)
  {
    GainIsShare(b.limit, 0);
  }

  // ---- The simulation --------------------------------------------------------------------------------

  /** Two buckets that are due at the same time. */
  ghost predicate SameDue(b: Bucket, c: Bucket, now: Time, w: nat) {
    exists due: Time :: OnDue(b, now, due, w) && OnDue(c, now, due, w)
  }

  ghost predicate AllSingle(s: Table, w: nat) { forall k <- s :: Single(s[k].policy, w) }

  /** Live buckets are due when the ideal ones are, and absent ones are full. */
  ghost predicate Matches(s: Table, u: Table, now: Time, w: nat) {
    && s.Keys <= u.Keys && Good(s, now) && Good(u, now) && AllSingle(s, w) && AllSingle(u, w)
    && (forall k <- s :: SameDue(s[k].bucket, u[k].bucket, now, w))
    && (forall k <- u :: k !in s ==> OnDue(u[k].bucket, now, 0, w))
  }

  /** Every call is on a bucket of one token, at a rate of the slot. */
  ghost predicate SingleCalls(es: seq<Event>, w: nat) {
    forall i :: 0 <= i < |es| && es[i].Call? ==> Single(es[i].policy, w)
  }

  lemma MatchesLater(s: Table, u: Table, now: Time, w: nat, later: Time)
    requires Matches(s, u, now, w) && now <= later
    ensures Matches(s, u, later, w)
  {
    hide OnDue;
    hide InSlot;
    hide Coherent;
    forall k <- s ensures SameDue(s[k].bucket, u[k].bucket, later, w) {
      assert SameDue(s[k].bucket, u[k].bucket, now, w);
      var due: Time :| OnDue(s[k].bucket, now, due, w) && OnDue(u[k].bucket, now, due, w);
      DueLater(s[k].bucket, now, due, w, later);
      DueLater(u[k].bucket, now, due, w, later);
    }
    forall k <- u | k !in s ensures OnDue(u[k].bucket, later, 0, w) { DueLater(u[k].bucket, now, 0, w, later); }
  }

  lemma FullIsPastDue(b: Bucket, t: Time, due: Time, w: nat)
    requires OnDue(b, t, due, w)
    ensures TokensAt(b, t) >= 1.0 ==> t >= due
  {
    if t < due {
      var x := 1.0 - TokensAt(b, t);
      assert x * SECOND as real > (due - t - 1) as real * b.limit;
      Scaled(b.limit, 0.0, (due - t - 1) as real);
    }
    hide TokensAt;
  }

  /** A full bucket's twin is full. */
  lemma FullIsDue(b: Bucket, c: Bucket, now: Time, w: nat)
    requires SameDue(b, c, now, w) && TokensAt(b, now) >= 1.0
    ensures OnDue(c, now, 0, w)
  {
    var due: Time :| OnDue(b, now, due, w) && OnDue(c, now, due, w);
    FullIsPastDue(b, now, due, w);
    hide TokensAt;
    hide InSlot;
  }

  lemma NewIsDue(p: Policy, now: Time, w: nat)
    requires Single(p, w)
    ensures OnDue(NewEntry(p).bucket, now, 0, w) && Coherent(NewEntry(p))
  {
    GainNonNegative(p.rate, now);
    hide Gain;
  }

  ghost predicate CallMatches(cfg: Config, e: Event, t: Table, u: Table, w: nat)
    requires e.Call?
  {
    var (v, d) := Ideal(u, cfg.ttl, e.key, e.policy, e.consume, e.now);
    d == e.decision && Matches(t, v, e.now, w)
  }

  lemma StepMatches(cfg: Config, s: Table, e: Event, t: Table, u: Table, w: nat)
    requires Step(cfg, s, e, t) && Matches(s, u, e.now, w) && w < MAX_INT64 && (e.Call? ==> Single(e.policy, w))
    ensures e.Cleanup? || CapacityRefusal(s, e, t) ==> Matches(t, u, e.now, w)
    ensures e.Call? && !CapacityRefusal(s, e, t) ==> CallMatches(cfg, e, t, u, w)
  {
    hide Touch;
    hide TokensAt;
    hide Matches;
    hide Single;
    if e.Cleanup? {
      TickMatches(cfg, s, e, t, u, w);
    } else if e.key in s {
      HitMatches(cfg, s, e, t, u, w);
    } else if e.key in t {
      CreationMatches(cfg, s, e, t, u, w);
    } else if !e.consume {
      PeekMatches(cfg, s, e, t, u, w);
    } else {
      SingleIsEnabled(e.policy, w);
    }
  }

  lemma SingleIsEnabled(p: Policy, w: nat)
    requires Single(p, w)
    ensures p.enabled && p.burst == 1
  {}

  lemma TickMatches(cfg: Config, s: Table, e: Event, t: Table, u: Table, w: nat)
    requires e.Cleanup? && Step(cfg, s, e, t) && Matches(s, u, e.now, w)
    ensures Matches(t, u, e.now, w)
  {
    hide Touch;
    hide TokensAt;
    hide OnDue;
    hide InSlot;
    CleanupKeeps(s, cfg.cleanupBatch, cfg.ttl, e.now, t);
    forall k <- t ensures SameDue(t[k].bucket, u[k].bucket, e.now, w) {
      assert SameDue(s[k].bucket, u[k].bucket, e.now, w);
    }
    hide Step;
    forall k <- u | k !in t ensures OnDue(u[k].bucket, e.now, 0, w) {
      if k in s { FullIsDue(s[k].bucket, u[k].bucket, e.now, w); }
    }
    hide SameDue;
  }

  lemma HitMatches(cfg: Config, s: Table, e: Event, t: Table, u: Table, w: nat)
    requires e.Call? && Step(cfg, s, e, t) && Matches(s, u, e.now, w) && e.key in s
    requires Single(e.policy, w) && w < MAX_INT64
    ensures CallMatches(cfg, e, t, u, w)
  {
    hide Touch;
    hide OnDue;
    hide Coherent;
    hide Single;
    var f, g := s[e.key], u[e.key];
    assert SameDue(f.bucket, g.bucket, e.now, w);
    var due: Time :| OnDue(f.bucket, e.now, due, w) && OnDue(g.bucket, e.now, due, w);
    TouchDue(f, e.policy, e.consume, cfg.ttl, e.now, due, w);
    TouchDue(g, e.policy, e.consume, cfg.ttl, e.now, due, w);
    var f', g' := Touch(f, e.policy, e.consume, cfg.ttl, e.now).0, Touch(g, e.policy, e.consume, cfg.ttl, e.now).0;
    assert SameDue(f'.bucket, g'.bucket, e.now, w);
    assert t == s[e.key := f'];
    hide Step;
    hide SameDue;
    BothReplaced(s, u, e.key, f', g', e.now, w);
    hide Matches;
  }

  lemma BothReplaced(s: Table, u: Table, k: string, f: Entry, g: Entry, now: Time, w: nat)
    requires Matches(s, u, now, w) && Coherent(f) && Coherent(g) && f.lastSeen <= now && g.lastSeen <= now
    requires Single(f.policy, w) && Single(g.policy, w) && SameDue(f.bucket, g.bucket, now, w)
    ensures Matches(s[k := f], u[k := g], now, w)
  {
    hide Coherent;
    hide Single;
    hide SameDue;
    hide OnDue;
  }

  lemma CreationMatches(cfg: Config, s: Table, e: Event, t: Table, u: Table, w: nat)
    requires e.Call? && Step(cfg, s, e, t) && Matches(s, u, e.now, w) && e.key !in s && e.key in t
    requires Single(e.policy, w) && w < MAX_INT64
    ensures CallMatches(cfg, e, t, u, w)
  {
    hide Touch;
    hide SameDue;
    hide Single;
    hide Coherent;
    hide Full;
    StepRoom(cfg, s, e, t);
    hide Step;
    var (v, d) := Ideal(u, cfg.ttl, e.key, e.policy, true, e.now);
    CreationIsDue(cfg, e, u, w);
    hide Ideal;
    var room := t - {e.key};
    RoomMatches(s, u, e.now, room, w);
    BothReplaced(room, u, e.key, t[e.key], v[e.key], e.now, w);
    assert t == room[e.key := t[e.key]];
    hide Matches;
    hide Create;
  }

  /** A bucket made anew and a full one that was kept are due together. */
  lemma CreationIsDue(cfg: Config, e: Event, u: Table, w: nat)
    requires e.Call? && Single(e.policy, w) && w < MAX_INT64
    requires e.key in u ==> Coherent(u[e.key]) && u[e.key].lastSeen <= e.now && Single(u[e.key].policy, w)
                            && OnDue(u[e.key].bucket, e.now, 0, w)
    ensures var (f, d) := Create(e.policy, cfg.ttl, e.now);
            var (v, d') := Ideal(u, cfg.ttl, e.key, e.policy, true, e.now);
            && e.key in v && v == u[e.key := v[e.key]] && d == d'
            && Coherent(f) && f.lastSeen <= e.now && Single(f.policy, w)
            && Coherent(v[e.key]) && v[e.key].lastSeen <= e.now && Single(v[e.key].policy, w)
            && SameDue(f.bucket, v[e.key].bucket, e.now, w)
  {
    hide OnDue;
    hide Coherent;
    hide Touch;
    hide SameDue;
    SingleIsEnabled(e.policy, w);
    hide Single;
    NewIsDue(e.policy, e.now, w);
    var g := if e.key in u then u[e.key] else NewEntry(e.policy);
    TouchDue(NewEntry(e.policy), e.policy, true, cfg.ttl, e.now, 0, w);
    TouchDue(g, e.policy, true, cfg.ttl, e.now, 0, w);
    var f' := Touch(NewEntry(e.policy), e.policy, true, cfg.ttl, e.now).0;
    var g' := Touch(g, e.policy, true, cfg.ttl, e.now).0;
    DueTogether(f'.bucket, g'.bucket, e.now, e.now + w, w);
  }

  lemma DueTogether(b: Bucket, c: Bucket, now: Time, due: Time, w: nat)
    requires OnDue(b, now, due, w) && OnDue(c, now, due, w)
    ensures SameDue(b, c, now, w)
  {}

  /** Full buckets may leave. */
  lemma RoomMatches(s: Table, u: Table, now: Time, room: Table, w: nat)
    requires Matches(s, u, now, w)
    requires forall k <- room :: k in s && room[k] == s[k]
    requires forall k <- s :: k !in room ==> Full(s[k], now)
    ensures Matches(room, u, now, w)
  {
    hide OnDue;
    hide InSlot;
    hide TokensAt;
    forall k <- u | k !in room ensures OnDue(u[k].bucket, now, 0, w) {
      if k in s { FullIsDue(s[k].bucket, u[k].bucket, now, w); }
    }
    hide SameDue;
  }

  lemma PeekMatches(cfg: Config, s: Table, e: Event, t: Table, u: Table, w: nat)
    requires e.Call? && Step(cfg, s, e, t) && Matches(s, u, e.now, w) && e.key !in s && !e.consume
    requires Single(e.policy, w) && w < MAX_INT64
    ensures CallMatches(cfg, e, t, u, w)
  {
    hide Touch;
    hide OnDue;
    hide Coherent;
    hide InSlot;
    assert t == s && e.decision == ALLOW;
    hide Step;
    if e.key in u { TouchDue(u[e.key], e.policy, false, cfg.ttl, e.now, 0, w); }
    hide SameDue;
  }

  lemma {:induction false} ReplayMatches(cfg: Config, ss: seq<Table>, es: seq<Event>, w: nat, n: nat)
    requires Run(cfg, ss, es) && SingleCalls(es, w) && w < MAX_INT64 && n < |es|
    ensures Matches(ss[n], Replay(cfg, ss, es, n), es[n].now, w)
  {
    hide Step;
    hide Matches;
    if n == 0 {
      NothingMatches(es[0].now, w);
    } else {
      ReplayMatches(cfg, ss, es, w, n - 1);
      StepMatches(cfg, ss[n - 1], es[n - 1], ss[n], Replay(cfg, ss, es, n - 1), w);
      MatchesLater(ss[n], Replay(cfg, ss, es, n), es[n - 1].now, w, es[n].now);
    }
    hide Single;
  }

  lemma NothingMatches(now: Time, w: nat)
    ensures Matches(map[], map[], now, w)
  {}

  /** Buckets of one token whose rates take as many whole nanoseconds for it are all alike: every
      decision of every run, with its retry delay, is the one the simple limiter makes, whichever
      caller brings which rate and which revision. */
  lemma SingleTokenRefines(cfg: Config, ss: seq<Table>, es: seq<Event>, w: nat, n: nat)
    requires Run(cfg, ss, es) && SingleCalls(es, w) && w < MAX_INT64 && n < |es| && es[n].Call?
    requires !CapacityRefusal(ss[n], es[n], ss[n + 1])
    ensures es[n].decision == IdealDecision(cfg, ss, es, n)
  {
    hide Step;
    hide Matches;
    ReplayMatches(cfg, ss, es, w, n);
    StepMatches(cfg, ss[n], es[n], ss[n + 1], Replay(cfg, ss, es, n), w);
    hide Single;
    hide Ideal;
  }

  // ---- Disabled policies -----------------------------------------------------------------------------

  lemma {:induction false} DisabledHoldsNothing(cfg: Config, ss: seq<Table>, es: seq<Event>, n: nat)
    requires Run(cfg, ss, es) && n <= |es| && forall i :: 0 <= i < |es| && es[i].Call? ==> !es[i].policy.enabled
    ensures ss[n] == map[] && Replay(cfg, ss, es, n) == map[]
  {
    hide Touch;
    if n > 0 {
      DisabledHoldsNothing(cfg, ss, es, n - 1);
      assert Step(cfg, ss[n - 1], es[n - 1], ss[n]);
    }
  }

  // ---- The exact condition ---------------------------------------------------------------------------

  /** A policy that passes validation. */
  predicate Valid(p: Policy) { RuleInBounds(RateRule(p.enabled, p.rate, p.burst)) }

  /** However calls with these two policies mix with each other, with revisions as they are, and with
      cleanup, every call that finds room is decided as the simple limiter decides it. */
  ghost predicate AlwaysAgree(cfg: Config, p: Policy, q: Policy) {
    forall tr: Trace, n: nat :: OnlyWith(tr.es, p, q) ==> !Disagree(cfg, tr, n)
  }

  /** The same rule, or no rule either way, or a single token that comes after the same delay. */
  predicate Interchangeable(p: Policy, q: Policy) {
    || RuleOf(p) == RuleOf(q)
    || (!p.enabled && !q.enabled)
    || (p.enabled && q.enabled && p.burst == q.burst == 1 && RefillDelay(1.0, p.rate) == RefillDelay(1.0, q.rate))
  }

  lemma ValidIsSane(p: Policy)
    requires Valid(p)
    ensures Sane(p.rate, p.burst) && RefillDelay(1.0, p.rate) < MAX_INT64 && p.burst >= 1
  {
    RuleInBoundsIsSane(RateRule(p.enabled, p.rate, p.burst));
    DelayIsMonotone(1.0, p.burst as real, p.rate);
    hide RefillDelay;
  }

  /** Two valid policies never make any limiter differ from the unbounded one exactly if they are
      interchangeable. */
  lemma AlwaysAgreeIff(cfg: Config, p: Policy, q: Policy)
    requires cfg.maxEntries > 0 && cfg.cleanupBatch > 0 && Valid(p) && Valid(q)
    ensures AlwaysAgree(cfg, p, q) <==> Interchangeable(p, q)
  {
    hide Disagree;
    hide OnlyWith;
    hide Interchangeable;
    if Interchangeable(p, q) {
      forall tr: Trace, n: nat | OnlyWith(tr.es, p, q) ensures !Disagree(cfg, tr, n) { AgreeHere(cfg, p, q, tr, n); }
    } else {
      InterchangeIsSymmetric(p, q);
      var tr, n;
      if q.revision <= p.revision {
        tr, n := SomeDisagree(cfg, p, q);
      } else {
        tr, n := SomeDisagree(cfg, q, p);
        OnlyWithIsSymmetric(tr.es, p, q);
      }
    }
  }

  lemma InterchangeIsSymmetric(p: Policy, q: Policy)
    ensures Interchangeable(p, q) == Interchangeable(q, p)
  {
    hide RefillDelay;
  }

  lemma OnlyWithIsSymmetric(es: seq<Event>, p: Policy, q: Policy)
    ensures OnlyWith(es, p, q) == OnlyWith(es, q, p)
  {}

  lemma AgreeHere(cfg: Config, p: Policy, q: Policy, tr: Trace, n: nat)
    requires Valid(p) && Valid(q) && Interchangeable(p, q) && OnlyWith(tr.es, p, q)
    ensures !Disagree(cfg, tr, n)
  {
    hide Run;
    hide CapacityRefusal;
    hide RefillDelay;
    if Disagree(cfg, tr, n) {
      if RuleOf(p) == RuleOf(q) {
        OneRuleAgrees(cfg, p, q, tr, n);
      } else if !p.enabled && !q.enabled {
        DisabledAgrees(cfg, p, q, tr, n);
      } else {
        SingleAgrees(cfg, p, q, tr, n);
      }
    }
  }

  lemma OneRuleAgrees(cfg: Config, p: Policy, q: Policy, tr: Trace, n: nat)
    requires RuleOf(p) == RuleOf(q) && OnlyWith(tr.es, p, q)
    ensures !Disagree(cfg, tr, n)
  {
    if Disagree(cfg, tr, n) {
      FixedRulesNeverGrow(tr.es, _ => RuleOf(p));
      Refines(cfg, tr.ss, tr.es, n);
    }
    hide Run;
    hide CapacityRefusal;
    hide Ideal;
  }

  lemma DisabledDecides(cfg: Config, ss: seq<Table>, es: seq<Event>, n: nat)
    requires Run(cfg, ss, es) && n < |es| && es[n].Call?
    requires forall i :: 0 <= i < |es| && es[i].Call? ==> !es[i].policy.enabled
    ensures es[n].decision == ALLOW == IdealDecision(cfg, ss, es, n)
  {
    hide Touch;
    DisabledHoldsNothing(cfg, ss, es, n);
    assert Step(cfg, ss[n], es[n], ss[n + 1]);
  }

  lemma DisabledAgrees(cfg: Config, p: Policy, q: Policy, tr: Trace, n: nat)
    requires !p.enabled && !q.enabled && OnlyWith(tr.es, p, q)
    ensures !Disagree(cfg, tr, n)
  {
    hide Run;
    hide CapacityRefusal;
    hide IdealDecision;
    if Disagree(cfg, tr, n) { DisabledDecides(cfg, tr.ss, tr.es, n); }
  }

  lemma SingleAgrees(cfg: Config, p: Policy, q: Policy, tr: Trace, n: nat)
    requires Valid(p) && Valid(q) && p.enabled && q.enabled && p.burst == q.burst == 1 && OnlyWith(tr.es, p, q)
    requires RefillDelay(1.0, p.rate) == RefillDelay(1.0, q.rate)
    ensures !Disagree(cfg, tr, n)
  {
    hide RefillDelay;
    hide InSlot;
    ValidIsSane(p);
    ValidIsSane(q);
    SlotOfDelay(p.rate);
    SlotOfDelay(q.rate);
    if Disagree(cfg, tr, n) { SingleTokenRefines(cfg, tr.ss, tr.es, RefillDelay(1.0, p.rate), n); }
    hide Run;
    hide CapacityRefusal;
    hide IdealDecision;
  }

  /** Of any other two policies, some run tells. */
  lemma SomeDisagree(cfg: Config, p: Policy, q: Policy) returns (tr: Trace, n: nat)
    requires cfg.maxEntries > 0 && cfg.cleanupBatch > 0 && Valid(p) && Valid(q)
    requires !Interchangeable(p, q) && q.revision <= p.revision
    ensures Disagree(cfg, tr, n) && OnlyWith(tr.es, p, q)
  {
    hide RefillDelay;
    hide Disagree;
    hide OnlyWith;
    ValidIsSane(p);
    ValidIsSane(q);
    if p.enabled && q.enabled {
      if p.burst != q.burst {
        tr, n := OtherBurstsDiverge(cfg, p, q);
      } else {
        tr, n := OtherRatesDiverge(cfg, p, q);
      }
    } else if p.enabled {
      tr, n := StaleDisabledDiverges(cfg, p, q);
    } else if q.revision < p.revision {
      tr, n := KeptDisabledDiverges(cfg, p, q);
    } else {
      tr, n := StaleDisabledDiverges(cfg, q, p);
      OnlyWithIsSymmetric(tr.es, p, q);
    }
  }
}
