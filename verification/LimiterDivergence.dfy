/** Runs in which the bounded limiter and the simple one decide differently. */
module LimiterDivergence {
  import opened TokenBucket
  import opened LimiterSpec
  import opened LimiterRuns
  import opened LimiterRefinement
  import opened LimiterDeadlines
  import opened RateConfig

  const KEY := "client"

  /** A run, event by event. */
  datatype Trace = Trace(ss: seq<Table>, es: seq<Event>)

  /** What the simple limiter says to event `n`. */
  ghost function IdealDecision(cfg: Config, ss: seq<Table>, es: seq<Event>, n: nat): Decision
    requires |ss| == |es| + 1 && n < |es| && es[n].Call?
  {
    var e := es[n];
    Ideal(Replay(cfg, ss, es, n), cfg.ttl, e.key, e.policy, e.consume, e.now).1
  }

  /** A call that found room, if it needed any, and was decided otherwise by the simple limiter. */
  ghost predicate Disagree(cfg: Config, tr: Trace, n: nat) {
    && Run(cfg, tr.ss, tr.es) && n < |tr.es| && tr.es[n].Call?
    && !CapacityRefusal(tr.ss[n], tr.es[n], tr.ss[n + 1])
    && tr.es[n].decision != IdealDecision(cfg, tr.ss, tr.es, n)
  }

  /** All calls come with one of two policies. */
  ghost predicate OnlyWith(es: seq<Event>, p: Policy, q: Policy) {
    forall i :: 0 <= i < |es| && es[i].Call? ==> es[i].policy == p || es[i].policy == q
  }

  // ---- Building runs ---------------------------------------------------------------------------------

  /** The run leads to `s`, and the simple limiter to `u`; time has come to `now`. */
  ghost predicate At(cfg: Config, tr: Trace, s: Table, u: Table, now: Time) {
    && Run(cfg, tr.ss, tr.es) && tr.ss[|tr.es|] == s && Replay(cfg, tr.ss, tr.es, |tr.es|) == u
    && forall i :: 0 <= i < |tr.es| ==> tr.es[i].now <= now
  }

  function Plus(tr: Trace, e: Event, t: Table): Trace { Trace(tr.ss + [t], tr.es + [e]) }

  lemma {:induction false} ReplayOfPlus(cfg: Config, tr: Trace, e: Event, t: Table, n: nat)
    requires |tr.ss| == |tr.es| + 1 && n <= |tr.es|
    ensures Replay(cfg, Plus(tr, e, t).ss, Plus(tr, e, t).es, n) == Replay(cfg, tr.ss, tr.es, n)
  {
    if n > 0 {
      ReplayOfPlus(cfg, tr, e, t, n - 1);
      hide Ideal;
    }
  }

  lemma Begin(cfg: Config)
    ensures At(cfg, Trace([map[]], []), map[], map[], 0)
  {}

  lemma PlusRuns(cfg: Config, tr: Trace, s: Table, u: Table, now: Time, e: Event, t: Table)
    requires At(cfg, tr, s, u, now) && Step(cfg, s, e, t) && now <= e.now && (e.Call? ==> e.policy.burst >= 1)
    ensures Run(cfg, Plus(tr, e, t).ss, Plus(tr, e, t).es)
  {
    hide Step;
    hide Replay;
    var v := Plus(tr, e, t);
    forall i {:trigger v.es[i]} | 0 <= i < |v.es| ensures Step(cfg, v.ss[i], v.es[i], v.ss[i + 1]) {
      if i < |tr.es| { assert v.es[i] == tr.es[i] && v.ss[i] == tr.ss[i] && v.ss[i + 1] == tr.ss[i + 1]; }
    }
  }

  lemma TickOf(cfg: Config, tr: Trace, s: Table, u: Table, now: Time, e: Event, t: Table)
    requires At(cfg, tr, s, u, now) && Step(cfg, s, e, t) && now <= e.now && e.Cleanup?
    ensures At(cfg, Plus(tr, e, t), t, u, e.now)
  {
    hide Step;
    PlusRuns(cfg, tr, s, u, now, e, t);
    ReplayOfPlus(cfg, tr, e, t, |tr.es|);
    hide Run;
  }

  lemma CallOf(cfg: Config, tr: Trace, s: Table, u: Table, now: Time, e: Event, t: Table)
    requires At(cfg, tr, s, u, now) && Step(cfg, s, e, t) && now <= e.now
    requires e.Call? && e.policy.burst >= 1 && !CapacityRefusal(s, e, t)
    ensures var v := Plus(tr, e, t);
            var (w, d) := Ideal(u, cfg.ttl, e.key, e.policy, e.consume, e.now);
            && At(cfg, v, t, w, e.now) && IdealDecision(cfg, v.ss, v.es, |tr.es|) == d
            && (e.decision != d ==> Disagree(cfg, v, |tr.es|))
  {
    hide Step;
    hide Ideal;
    PlusRuns(cfg, tr, s, u, now, e, t);
    ReplayOfPlus(cfg, tr, e, t, |tr.es|);
    hide Run;
  }

  // ---- One key in both limiters ----------------------------------------------------------------------

  /** The bounded limiter holds `f` and the simple one `g`. */
  ghost predicate Playing(cfg: Config, tr: Trace, p: Policy, q: Policy, f: Entry, g: Entry, now: Time) {
    && At(cfg, tr, map[KEY := f], map[KEY := g], now) && OnlyWith(tr.es, p, q)
    && Coherent(f) && Coherent(g) && f.lastSeen <= now && g.lastSeen <= now
  }

  /** The bounded limiter holds nothing, and the simple one a full bucket under `r`. */
  ghost predicate LeftAlone(cfg: Config, tr: Trace, p: Policy, q: Policy, g: Entry, r: Policy, now: Time) {
    && At(cfg, tr, map[], map[KEY := g], now) && OnlyWith(tr.es, p, q)
    && Coherent(g) && g.lastSeen <= now && g.policy == r && Full(g, now)
  }

  function CallAt(policy: Policy, t: Time, d: Decision): Event { Call(KEY, policy, true, t, d) }

  /** A consuming call on a bucket that both hold. */
  lemma Play(cfg: Config, tr: Trace, p: Policy, q: Policy, f: Entry, g: Entry, now: Time, r: Policy, t: Time)
    returns (v: Trace, f': Entry, g': Entry)
    requires Playing(cfg, tr, p, q, f, g, now) && now <= t && (r == p || r == q) && r.burst >= 1
    ensures Playing(cfg, v, p, q, f', g', t)
    ensures f' == Touch(f, r, true, cfg.ttl, t).0 && g' == Touch(g, r, true, cfg.ttl, t).0
    ensures |v.es| == |tr.es| + 1 && v.es[|tr.es|] == CallAt(r, t, Touch(f, r, true, cfg.ttl, t).1)
    ensures IdealDecision(cfg, v.ss, v.es, |tr.es|) == Touch(g, r, true, cfg.ttl, t).1
    ensures Touch(f, r, true, cfg.ttl, t).1 != Touch(g, r, true, cfg.ttl, t).1 ==> Disagree(cfg, v, |tr.es|)
  {
    hide Touch;
    hide Coherent;
    f', g' := Touch(f, r, true, cfg.ttl, t).0, Touch(g, r, true, cfg.ttl, t).0;
    var e := CallAt(r, t, Touch(f, r, true, cfg.ttl, t).1);
    var s, u, s' := map[KEY := f], map[KEY := g], map[KEY := f'];
    assert Step(cfg, s, e, s') by { assert s' == s[KEY := f']; }
    assert u[KEY := g'] == map[KEY := g'];
    assert Ideal(u, cfg.ttl, KEY, r, true, t) == (map[KEY := g'], Touch(g, r, true, cfg.ttl, t).1);
    hide Step;
    hide Ideal;
    v := Plus(tr, e, s');
    CallOf(cfg, tr, s, u, now, e, s');
    TouchBalance(f, r, true, cfg.ttl, t);
    TouchBalance(g, r, true, cfg.ttl, t);
    hide At;
    hide Disagree;
  }

  /** A consuming call that makes the bucket anew. */
  lemma PlayAnew(cfg: Config, tr: Trace, p: Policy, q: Policy, g: Entry, now: Time, r: Policy)
    returns (v: Trace, f': Entry, g': Entry)
    requires cfg.maxEntries > 0 && At(cfg, tr, map[], map[KEY := g], now) && OnlyWith(tr.es, p, q)
    requires Coherent(g) && g.lastSeen <= now && (r == p || r == q) && r.burst >= 1 && r.enabled
    ensures Playing(cfg, v, p, q, f', g', now)
    ensures f' == Touch(NewEntry(r), r, true, cfg.ttl, now).0 && g' == Touch(g, r, true, cfg.ttl, now).0
    ensures |v.es| == |tr.es| + 1 && v.es[|tr.es|] == CallAt(r, now, Touch(NewEntry(r), r, true, cfg.ttl, now).1)
    ensures IdealDecision(cfg, v.ss, v.es, |tr.es|) == Touch(g, r, true, cfg.ttl, now).1
    ensures Touch(NewEntry(r), r, true, cfg.ttl, now).1 != Touch(g, r, true, cfg.ttl, now).1 ==>
              Disagree(cfg, v, |tr.es|)
  {
    hide Touch;
    hide Coherent;
    f', g' := Touch(NewEntry(r), r, true, cfg.ttl, now).0, Touch(g, r, true, cfg.ttl, now).0;
    var e := CallAt(r, now, Touch(NewEntry(r), r, true, cfg.ttl, now).1);
    var u, s' := map[KEY := g], map[KEY := f'];
    MakesBucket(cfg, r, now);
    assert u[KEY := g'] == map[KEY := g'];
    assert Ideal(u, cfg.ttl, KEY, r, true, now) == (map[KEY := g'], Touch(g, r, true, cfg.ttl, now).1);
    hide Step;
    hide Ideal;
    v := Plus(tr, e, s');
    CallOf(cfg, tr, map[], u, now, e, s');
    NewIsCoherent(r);
    TouchBalance(NewEntry(r), r, true, cfg.ttl, now);
    TouchBalance(g, r, true, cfg.ttl, now);
    hide At;
    hide Disagree;
  }

  lemma NewIsCoherent(r: Policy)
    requires r.burst >= 1
    ensures Coherent(NewEntry(r)) && NewEntry(r).lastSeen == 0
  {}

  lemma MakesBucket(cfg: Config, r: Policy, t: Time)
    requires cfg.maxEntries > 0 && r.enabled
    ensures var (f, d) := Touch(NewEntry(r), r, true, cfg.ttl, t);
            Step(cfg, map[], CallAt(r, t, d), map[KEY := f])
  {
    hide Touch;
    var f, none: Table := Touch(NewEntry(r), r, true, cfg.ttl, t).0, map[];
    assert MadeRoom(cfg, none, t, none) && map[KEY := f] == none[KEY := f];
  }

  /** A full bucket whose deadline has passed leaves at the next tick. */
  lemma Evicts(cfg: Config, e: Entry, t: Time)
    requires cfg.cleanupBatch > 0 && Full(e, t) && e.expiresAt <= t
    ensures Step(cfg, map[KEY := e], Cleanup(t), map[])
  {
    hide TokensAt;
    var s: Table, none: Table := map[KEY := e], map[];
    assert CleanOne(s, KEY, cfg.ttl, t) == none;
    assert CleanupStep(none, cfg.cleanupBatch - 1, cfg.ttl, t, none);
    assert IsHead(s, KEY) && CleanupTurn(s, KEY, cfg.cleanupBatch, cfg.ttl, t, none);
  }

  /** A client calls once and stays away until its bucket is evicted. */
  lemma CallsOnceAndLeaves(cfg: Config, p: Policy, q: Policy) returns (tr: Trace, g: Entry, t: Time)
    requires cfg.maxEntries > 0 && cfg.cleanupBatch > 0 && p.enabled && Sane(p.rate, p.burst)
    ensures LeftAlone(cfg, tr, p, q, g, p, t)
  {
    var v;
    v, g := FirstCall(cfg, p, q);
    TouchIsOnTime(NewEntry(p), p, true, cfg.ttl, 0);
    tr, t := Leaves(cfg, v, p, q, g);
    hide LeftAlone;
  }

  /** The very first call makes a bucket in both limiters. */
  lemma FirstCall(cfg: Config, p: Policy, q: Policy) returns (tr: Trace, g: Entry)
    requires cfg.maxEntries > 0 && p.enabled && p.burst >= 1
    ensures g == Touch(NewEntry(p), p, true, cfg.ttl, 0).0 && g.policy == p
    ensures Playing(cfg, tr, p, q, g, g, 0)
  {
    hide Touch;
    Begin(cfg);
    MakesBucket(cfg, p, 0);
    var (f, d) := Touch(NewEntry(p), p, true, cfg.ttl, 0);
    g := f;
    var e, none := CallAt(p, 0, d), map[];
    assert Ideal(none, cfg.ttl, KEY, p, true, 0) == (none[KEY := g], d);
    hide Step;
    hide Ideal;
    tr := Plus(Trace([map[]], []), e, map[KEY := g]);
    CallOf(cfg, Trace([map[]], []), none, none, 0, e, map[KEY := g]);
    assert none[KEY := g] == map[KEY := g];
    NewIsCoherent(p);
    TouchBalance(NewEntry(p), p, true, cfg.ttl, 0);
    hide At;
  }

  /** Both hold the same bucket, nobody calls, and the next tick after its deadline evicts it. */
  lemma Leaves(cfg: Config, tr: Trace, p: Policy, q: Policy, g: Entry) returns (v: Trace, t: Time)
    requires cfg.cleanupBatch > 0 && Playing(cfg, tr, p, q, g, g, 0) && OnTime(g)
    ensures LeftAlone(cfg, v, p, q, g, g.policy, t)
  {
    hide Coherent;
    hide TokensAt;
    t := g.expiresAt;
    Evicts(cfg, g, t);
    hide Step;
    v := Plus(tr, Cleanup(t), map[]);
    TickOf(cfg, tr, map[KEY := g], map[KEY := g], 0, Cleanup(t), map[]);
    hide At;
  }

  // ---- Draining both ---------------------------------------------------------------------------------

  /** The policy that a call with `q` leaves in force, and how many tokens it finds in a full bucket. */
  function InForce(p: Policy, q: Policy): Policy { if q.revision > p.revision then q else p }

  function Kept(p: Policy, q: Policy): int {
    if q.revision > p.revision && q.burst < p.burst then q.burst else p.burst
  }

  lemma TouchAllows(e: Entry, q: Policy, ttl: nat, t: Time)
    requires Coherent(e) && e.lastSeen <= t && q.burst >= 1 && InForce(e.policy, q).enabled
    ensures Touch(e, q, true, ttl, t).1.allowed <==>
            Min(TokensAt(e.bucket, t), InForce(e.policy, q).burst as real) >= 1.0
  {
    AdoptBalance(e, q, t);
    hide Schedule;
    hide RefillDelay;
    hide Adopt;
    hide TokensAt;
  }

  lemma DisabledAllows(e: Entry, q: Policy, ttl: nat, t: Time)
    requires !InForce(e.policy, q).enabled
    ensures Touch(e, q, true, ttl, t).1 == ALLOW
  {
    hide Schedule;
  }

  /** What a bucket has left for callers with `q`. */
  ghost predicate DownTo(e: Entry, q: Policy, t: Time, rest: int) {
    && InForce(e.policy, q).enabled
    && Min(TokensAt(e.bucket, t), InForce(e.policy, q).burst as real) == rest as real
  }

  /** One call takes one token, or finds none. */
  lemma TakesOne(e: Entry, q: Policy, ttl: nat, t: Time, rest: int)
    requires Coherent(e) && e.lastSeen <= t && q.burst >= 1 && DownTo(e, q, t, rest)
    ensures var (e', d) := Touch(e, q, true, ttl, t);
            && (d.allowed <==> rest >= 1) && e'.policy == InForce(e.policy, q)
            && (rest >= 1 ==> DownTo(e', q, t, rest - 1))
  {
    TouchAllows(e, q, ttl, t);
    TouchBalance(e, q, true, ttl, t);
    hide Touch;
    hide TokensAt;
    hide Coherent;
  }

  /** The same caller calls again and again at one instant, while both limiters admit it. */
  lemma {:induction false} DrainTogether(cfg: Config, tr: Trace, p: Policy, q: Policy, f: Entry, g: Entry, t: Time,
                                         a: int, b: int, i: nat)
    returns (v: Trace, f': Entry, g': Entry)
    requires Playing(cfg, tr, p, q, f, g, t) && q.burst >= 1 && i <= a && i <= b
    requires DownTo(f, q, t, a) && DownTo(g, q, t, b) && f.policy == InForce(f.policy, q)
             && g.policy == InForce(g.policy, q)
    ensures Playing(cfg, v, p, q, f', g', t) && f'.policy == f.policy && g'.policy == g.policy
    ensures DownTo(f', q, t, a - i) && DownTo(g', q, t, b - i)
  {
    hide Playing;
    hide DownTo;
    v, f', g' := tr, f, g;
    if i > 0 {
      var w, f1, g1 := DrainTogether(cfg, tr, p, q, f, g, t, a, b, i - 1);
      PlayingIsCoherent(cfg, w, p, q, f1, g1, t);
      TakesOne(f1, q, cfg.ttl, t, a - (i - 1));
      TakesOne(g1, q, cfg.ttl, t, b - (i - 1));
      hide Touch;
      v, f', g' := Play(cfg, w, p, q, f1, g1, t, q, t);
    }
  }

  lemma PlayingIsCoherent(cfg: Config, tr: Trace, p: Policy, q: Policy, f: Entry, g: Entry, t: Time)
    requires Playing(cfg, tr, p, q, f, g, t)
    ensures Coherent(f) && Coherent(g) && f.lastSeen <= t && g.lastSeen <= t
  {}

  /** After an eviction, callers with `q` drain what was made anew and what was kept, the smaller of
      the two to its end. */
  lemma MakeAnewAndDrain(cfg: Config, tr: Trace, p: Policy, q: Policy, g: Entry, r: Policy, t: Time, b: int)
    returns (v: Trace, f': Entry, g': Entry, rest: nat)
    requires cfg.maxEntries > 0 && LeftAlone(cfg, tr, p, q, g, r, t) && q.enabled && q.burst >= 1
    requires DownTo(g, q, t, b) && b >= 1
    ensures Playing(cfg, v, p, q, f', g', t) && f'.policy == q && g'.policy == InForce(r, q)
    ensures rest == (if b < q.burst then b else q.burst) && DownTo(f', q, t, q.burst - rest)
            && DownTo(g', q, t, b - rest)
  {
    hide DownTo;
    hide Playing;
    rest := if b < q.burst then b else q.burst;
    NewIsFull(q, t);
    NewIsCoherent(q);
    TakesOne(NewEntry(q), q, cfg.ttl, t, q.burst);
    TakesOne(g, q, cfg.ttl, t, b);
    hide Touch;
    var w, f1, g1 := PlayAnew(cfg, tr, p, q, g, t, q);
    hide LeftAlone;
    v, f', g' := DrainTogether(cfg, w, p, q, f1, g1, t, q.burst - 1, b - 1, rest - 1);
  }

  lemma FullIsKept(e: Entry, q: Policy, t: Time)
    requires Coherent(e) && e.lastSeen <= t && Full(e, t) && InForce(e.policy, q).enabled && q.burst >= 1
    ensures DownTo(e, q, t, Kept(e.policy, q))
  {}

  lemma NewIsFull(q: Policy, t: Time)
    requires q.enabled && q.burst >= 1
    ensures DownTo(NewEntry(q), q, t, q.burst)
  {
    GainNonNegative(q.rate, t);
  }

  // ---- Bursts ----------------------------------------------------------------------------------------

  /** Whenever the burst of a bucket made anew is not what the kept one would hold, some run of any
      limiter shows it: the limiter that holds more admits a call that the other denies. */
  lemma OtherBurstsDiverge(cfg: Config, p: Policy, q: Policy) returns (tr: Trace, n: nat)
    requires cfg.maxEntries > 0 && cfg.cleanupBatch > 0
    requires p.enabled && q.enabled && Sane(p.rate, p.burst) && q.burst >= 1 && Kept(p, q) != q.burst
    ensures Disagree(cfg, tr, n) && OnlyWith(tr.es, p, q)
    ensures tr.es[n].decision.allowed <==> Kept(p, q) < q.burst
    ensures IdealDecision(cfg, tr.ss, tr.es, n).allowed <==> q.burst < Kept(p, q)
  {
    hide Touch;
    hide DownTo;
    var v, g, t := CallsOnceAndLeaves(cfg, p, q);
    FullIsKept(g, q, t);
    hide LeftAlone;
    var w, f1, g1, rest := MakeAnewAndDrain(cfg, v, p, q, g, p, t, Kept(p, q));
    PlayingIsCoherent(cfg, w, p, q, f1, g1, t);
    TakesOne(f1, q, cfg.ttl, t, q.burst - rest);
    TakesOne(g1, q, cfg.ttl, t, Kept(p, q) - rest);
    var f2, g2;
    n := |w.es|;
    tr, f2, g2 := Play(cfg, w, p, q, f1, g1, t, q, t);
    hide Disagree;
  }

  // ---- Rules that were disabled -----------------------------------------------------------------------

  /** A caller whose rule is disabled, and not newer, is never limited once the bucket is gone; a kept
      bucket would go on denying it under the rule in force. */
  lemma StaleDisabledDiverges(cfg: Config, p: Policy, q: Policy) returns (tr: Trace, n: nat)
    requires cfg.maxEntries > 0 && cfg.cleanupBatch > 0
    requires p.enabled && Sane(p.rate, p.burst) && !q.enabled && q.burst >= 1 && q.revision <= p.revision
    ensures Disagree(cfg, tr, n) && OnlyWith(tr.es, p, q)
    ensures tr.es[n].decision.allowed && !IdealDecision(cfg, tr.ss, tr.es, n).allowed
  {
    hide Touch;
    hide DownTo;
    var v, g, t := CallsOnceAndLeaves(cfg, p, q);
    FullIsKept(g, q, t);
    var w, g1 := IgnoredCalls(cfg, v, p, q, g, t, p.burst, p.burst);
    TakesOne(g1, q, cfg.ttl, t, 0);
    n := |w.es|;
    var g2;
    tr, g2 := IgnoredCall(cfg, w, p, q, g1, t);
    hide Disagree;
  }

  /** A call that needs no bucket, while the simple limiter has one. */
  lemma IgnoredCall(cfg: Config, tr: Trace, p: Policy, q: Policy, g: Entry, t: Time) returns (v: Trace, g': Entry)
    requires At(cfg, tr, map[], map[KEY := g], t) && OnlyWith(tr.es, p, q) && !q.enabled && q.burst >= 1
    requires Coherent(g) && g.lastSeen <= t
    ensures g' == Touch(g, q, true, cfg.ttl, t).0 && Coherent(g') && g'.lastSeen <= t
    ensures At(cfg, v, map[], map[KEY := g'], t) && OnlyWith(v.es, p, q) && |v.es| == |tr.es| + 1
    ensures v.es[|tr.es|] == CallAt(q, t, ALLOW)
    ensures IdealDecision(cfg, v.ss, v.es, |tr.es|) == Touch(g, q, true, cfg.ttl, t).1
    ensures Touch(g, q, true, cfg.ttl, t).1 != ALLOW ==> Disagree(cfg, v, |tr.es|)
  {
    hide Touch;
    hide Coherent;
    var e, u := CallAt(q, t, ALLOW), map[KEY := g];
    g' := Touch(g, q, true, cfg.ttl, t).0;
    TouchBalance(g, q, true, cfg.ttl, t);
    assert u[KEY := g'] == map[KEY := g'];
    assert Ideal(u, cfg.ttl, KEY, q, true, t) == (map[KEY := g'], Touch(g, q, true, cfg.ttl, t).1);
    assert Step(cfg, map[], e, map[]);
    hide Step;
    hide Ideal;
    v := Plus(tr, e, map[]);
    CallOf(cfg, tr, map[], u, t, e, map[]);
    hide At;
    hide Disagree;
  }

  lemma {:induction false} IgnoredCalls(cfg: Config, tr: Trace, p: Policy, q: Policy, g: Entry, t: Time, b: int, i: nat)
    returns (v: Trace, g': Entry)
    requires At(cfg, tr, map[], map[KEY := g], t) && OnlyWith(tr.es, p, q) && !q.enabled && q.burst >= 1
    requires Coherent(g) && g.lastSeen <= t && g.policy == InForce(g.policy, q) && DownTo(g, q, t, b) && i <= b
    ensures At(cfg, v, map[], map[KEY := g'], t) && OnlyWith(v.es, p, q)
    ensures Coherent(g') && g'.lastSeen <= t && g'.policy == g.policy && DownTo(g', q, t, b - i)
  {
    hide At;
    hide DownTo;
    hide Coherent;
    v, g' := tr, g;
    if i > 0 {
      var w, g1 := IgnoredCalls(cfg, tr, p, q, g, t, b, i - 1);
      TakesOne(g1, q, cfg.ttl, t, b - (i - 1));
      hide Touch;
      v, g' := IgnoredCall(cfg, w, p, q, g1, t);
    }
  }

  /** A newer rule that is disabled admits everybody for as long as the bucket is kept; a caller with
      the older rule makes the bucket anew, and is denied once that is drained. */
  lemma KeptDisabledDiverges(cfg: Config, p: Policy, q: Policy) returns (tr: Trace, n: nat)
    requires cfg.maxEntries > 0 && cfg.cleanupBatch > 0
    requires !p.enabled && Sane(p.rate, p.burst) && q.enabled && Sane(q.rate, q.burst) && q.revision < p.revision
    ensures Disagree(cfg, tr, n) && OnlyWith(tr.es, p, q)
    ensures !tr.es[n].decision.allowed && IdealDecision(cfg, tr.ss, tr.es, n).allowed
  {
    hide Touch;
    hide DownTo;
    var v, g, t := DisabledAndLeft(cfg, p, q);
    NewIsFull(q, t);
    NewIsCoherent(q);
    TakesOne(NewEntry(q), q, cfg.ttl, t, q.burst);
    TouchBalance(g, q, true, cfg.ttl, t);
    var w, f1, g1 := PlayAnew(cfg, v, p, q, g, t, q);
    hide LeftAlone;
    var x, f2, g2 := DrainAlone(cfg, w, p, q, f1, g1, t, q.burst - 1, q.burst - 1);
    PlayingIsCoherent(cfg, x, p, q, f2, g2, t);
    TakesOne(f2, q, cfg.ttl, t, 0);
    DisabledAllows(g2, q, cfg.ttl, t);
    n := |x.es|;
    var f3, g3;
    tr, f3, g3 := Play(cfg, x, p, q, f2, g2, t, q, t);
    hide Disagree;
  }

  /** One call makes the bucket, one with the newer rule disables it, and then it is left alone. */
  lemma DisabledAndLeft(cfg: Config, p: Policy, q: Policy) returns (tr: Trace, g: Entry, t: Time)
    requires cfg.maxEntries > 0 && cfg.cleanupBatch > 0
    requires !p.enabled && Sane(p.rate, p.burst) && q.enabled && Sane(q.rate, q.burst) && q.revision < p.revision
    ensures LeftAlone(cfg, tr, p, q, g, p, t)
  {
    hide Touch;
    var v, e := FirstCall(cfg, q, p);
    var w, f1, g1 := Play(cfg, v, q, p, e, e, 0, p, 0);
    TouchBalance(e, p, true, cfg.ttl, 0);
    TouchIsOnTime(e, p, true, cfg.ttl, 0);
    g := g1;
    tr, t := Leaves(cfg, w, q, p, g);
    hide At;
  }

  /** Only the bucket made anew is drained. */
  lemma {:induction false} DrainAlone(cfg: Config, tr: Trace, p: Policy, q: Policy, f: Entry, g: Entry, t: Time,
                                      a: int, i: nat)
    returns (v: Trace, f': Entry, g': Entry)
    requires Playing(cfg, tr, p, q, f, g, t) && q.burst >= 1 && i <= a && DownTo(f, q, t, a)
    requires f.policy == InForce(f.policy, q) && g.policy == InForce(g.policy, q)
    ensures Playing(cfg, v, p, q, f', g', t) && f'.policy == f.policy && g'.policy == g.policy
    ensures DownTo(f', q, t, a - i)
  {
    hide Playing;
    hide DownTo;
    v, f', g' := tr, f, g;
    if i > 0 {
      var w, f1, g1 := DrainAlone(cfg, tr, p, q, f, g, t, a, i - 1);
      PlayingIsCoherent(cfg, w, p, q, f1, g1, t);
      TakesOne(f1, q, cfg.ttl, t, a - (i - 1));
      TouchBalance(g1, q, true, cfg.ttl, t);
      hide Touch;
      v, f', g' := Play(cfg, w, p, q, f1, g1, t, q, t);
    }
  }

  // ---- Concrete policies, with the limiter's own defaults ---------------------------------------------

  const DEFAULTS := Configure(0, 0, 0)

  /** A newer policy raises the burst from one to two: the bucket made anew admits a second call. */
  lemma RaisedBurstDiverges() returns (tr: Trace, n: nat)
    ensures Disagree(DEFAULTS, tr, n)
    ensures tr.es[n].decision.allowed && !IdealDecision(DEFAULTS, tr.ss, tr.es, n).allowed
  {
    hide Disagree;
    RuleInBoundsIsSane(RateRule(true, 1.0, 1));
    tr, n := OtherBurstsDiverge(DEFAULTS, Policy(1, true, 1.0, 1), Policy(2, true, 1.0, 2));
  }

  /** A caller that still holds the older burst of one: the bucket made anew denies its second call. */
  lemma StaleBurstDiverges() returns (tr: Trace, n: nat)
    ensures Disagree(DEFAULTS, tr, n)
    ensures !tr.es[n].decision.allowed && IdealDecision(DEFAULTS, tr.ss, tr.es, n).allowed
  {
    hide Disagree;
    RuleInBoundsIsSane(RateRule(true, 1.0, 2));
    tr, n := OtherBurstsDiverge(DEFAULTS, Policy(2, true, 1.0, 2), Policy(1, true, 1.0, 1));
  }
}
