/** Two rates, told apart by a bucket that is made anew under the other one. */
module LimiterRates {
  import opened TokenBucket
  import opened LimiterSpec
  import opened LimiterRuns
  import opened LimiterRefinement
  import opened LimiterDivergence
  import opened RateConfig

  // ---- Waiting for whole tokens ----------------------------------------------------------------------

  /** Nanoseconds until `j` tokens have been earned; unlike a delay it does not saturate. */
  function Wait(j: nat, r: real): nat
    requires r > 0.0
  {
    WaitIsNat(j, r);
    Ceil(j as real / r * SECOND as real)
  }

  lemma WaitIsNat(j: nat, r: real)
    requires r > 0.0
    ensures Ceil(j as real / r * SECOND as real) >= 0
  {
    DivMono(r, 0.0, j as real);
  }

  lemma WaitIsLeast(j: nat, r: real, w: nat)
    requires r > 0.0
    ensures Gain(r, w) >= j as real <==> w >= Wait(j, r)
  {
    var need, share := j as real / r, w as real / SECOND as real;
    assert share * SECOND as real == w as real;
    assert r * need == j as real;
    if share >= need {
      MulMono(r, need, share);
      MulMono(SECOND as real, need, share);
    } else {
      MulMonoStrict(r, share, need);
      MulMonoStrict(SECOND as real, share, need);
    }
  }

  lemma WaitGrows(j: nat, k: nat, r: real)
    requires r > 0.0 && j <= k
    ensures Wait(j, r) <= Wait(k, r)
  {
    WaitIsLeast(k, r, Wait(k, r));
    WaitIsLeast(j, r, Wait(k, r));
    hide Wait;
  }

  lemma OneTokenDelay(r: real)
    requires r > 0.0 && RefillDelay(1.0, r) < MAX_INT64
    ensures RefillDelay(1.0, r) == Wait(1, r)
  {}

  /** However close two rates are, enough tokens take a different number of nanoseconds. */
  lemma RatesPart(x: real, y: real) returns (k: nat)
    requires 0.0 < x < y
    ensures k >= 1 && Wait(k, x) != Wait(k, y)
  {
    var a, b := 1.0 / x * SECOND as real, 1.0 / y * SECOND as real;
    InverseFalls(x, y);
    MulMonoStrict(SECOND as real, 1.0 / y, 1.0 / x);
    var d := a - b;
    assert d > 0.0;
    k := Ceil(1.0 / d);
    DivMono(d, 0.0, 1.0);
    assert 1.0 / d * d == 1.0;
    MulMono(d, 1.0 / d, k as real);
    assert k as real * a == k as real * b + k as real * d;
    assert k as real / x * SECOND as real == k as real * a;
    assert k as real / y * SECOND as real == k as real * b;
  }

  lemma InverseFalls(x: real, y: real)
    requires 0.0 < x < y
    ensures 1.0 / y < 1.0 / x
  {
    var a, b := 1.0 / x, 1.0 / y;
    assert x * a == 1.0 && y * b == 1.0 && a > 0.0;
    if a <= b {
      MulMono(y, a, b);
      MulMonoStrict(a, x, y);
    }
  }

  /** The first number of tokens that takes the two rates differently long. */
  lemma {:induction false} FirstPart(x: real, y: real, bound: nat) returns (k: nat)
    requires x > 0.0 && y > 0.0 && bound >= 1 && Wait(bound, x) != Wait(bound, y)
    ensures 1 <= k <= bound && Wait(k, x) != Wait(k, y)
    ensures forall j: nat :: 1 <= j < k ==> Wait(j, x) == Wait(j, y)
  {
    if j: nat :| 1 <= j < bound && Wait(j, x) != Wait(j, y) {
      k := FirstPart(x, y, j);
    } else {
      k := bound;
    }
  }

  // ---- A bucket that is asked whenever it has earned a token -------------------------------------------

  /** The balance of a bucket later on. */
  lemma TokensLater(b: Bucket, u: Time, dt: nat)
    requires b.last <= u
    ensures TokensAt(b, u + dt) == Min(b.burst as real, TokensAt(b, u) + Gain(b.limit, dt))
  {
    GainAdds(b.limit, u - b.last, dt);
    GainNonNegative(b.limit, dt);
    hide Gain;
  }

  /** The bucket was empty at `t`, and by `t + w` it has given out `j` of the tokens it earned. */
  ghost predicate Racing(e: Entry, r: Policy, t: Time, w: nat, j: nat) {
    && Coherent(e) && e.policy == r && r.enabled && e.lastSeen <= t + w
    && TokensAt(e.bucket, t + w) == Gain(r.rate, w) - j as real
  }

  /** Asked at `t + w1`, it admits exactly if it has earned another token by then. */
  lemma RaceIsDecided(e: Entry, r: Policy, q: Policy, ttl: nat, t: Time, w: nat, j: nat, w1: nat)
    requires Racing(e, r, t, w, j) && InForce(r, q) == r && w <= w1 && q.burst >= 1 && r.rate > 0.0
    ensures Touch(e, q, true, ttl, t + w1).1.allowed <==> w1 >= Wait(j + 1, r.rate)
  {
    hide Wait;
    TouchAllows(e, q, ttl, t + w1);
    TokensLater(e.bucket, t + w, w1 - w);
    GainAdds(r.rate, w, w1 - w);
    WaitIsLeast(j + 1, r.rate, w1);
    hide Touch;
    hide Gain;
    hide TokensAt;
  }

  /** Asked just when it has, it goes on so; a burst of two or more never cuts anything off. */
  lemma RaceGoesOn(e: Entry, r: Policy, q: Policy, ttl: nat, t: Time, w: nat, j: nat, w1: nat)
    requires Racing(e, r, t, w, j) && InForce(r, q) == r && q.burst >= 1
    requires 0.0 < r.rate <= MAX_REQUESTS_PER_SECOND && r.burst >= 2 && w1 == Wait(j + 1, r.rate) && w <= w1
    ensures Racing(Touch(e, q, true, ttl, t + w1).0, r, t, w1, j + 1)
  {
    RaceIsDecided(e, r, q, ttl, t, w, j, w1);
    TouchBalance(e, q, true, ttl, t + w1);
    TokensLater(e.bucket, t + w, w1 - w);
    GainAdds(r.rate, w, w1 - w);
    NotMuchMore(j + 1, r.rate);
    hide Touch;
    hide Gain;
    hide TokensAt;
    hide Wait;
  }

  /** When the last of `j` tokens has just been earned, the next is not there yet. */
  lemma NotMuchMore(j: nat, r: real)
    requires 0.0 < r <= MAX_REQUESTS_PER_SECOND
    ensures Gain(r, Wait(j, r)) <= j as real + 1.0
  {
    var w := Wait(j, r);
    hide Wait;
    if w == 0 {
      assert Gain(r, 0) == 0.0;
    } else {
      WaitIsLeast(j, r, w - 1);
      GainAdds(r, w - 1, 1);
      SmallGain(r);
    }
    hide Gain;
  }

  lemma SmallGain(r: real)
    requires 0.0 < r <= MAX_REQUESTS_PER_SECOND
    ensures Gain(r, 1) <= 1.0
  {}

  // ---- The race --------------------------------------------------------------------------------------

  /** Two policies that differ in their rate alone, the caller's not the newer one. */
  predicate RatesDiffer(p: Policy, q: Policy) {
    && p.enabled && q.enabled && q.revision <= p.revision && p.burst == q.burst >= 1
    && MIN_REQUESTS_PER_SECOND <= p.rate <= MAX_REQUESTS_PER_SECOND
    && MIN_REQUESTS_PER_SECOND <= q.rate <= MAX_REQUESTS_PER_SECOND
  }

  /** Both limiters hold an empty bucket; as long as the rates keep in step, both admit a caller that
      asks as soon as the next token is there. */
  lemma {:induction false} Race(cfg: Config, tr: Trace, p: Policy, q: Policy, f: Entry, g: Entry, t: Time, j: nat)
    returns (v: Trace, f': Entry, g': Entry)
    requires RatesDiffer(p, q) && Playing(cfg, tr, p, q, f, g, t) && Racing(f, q, t, 0, 0) && Racing(g, p, t, 0, 0)
    requires j > 0 ==> p.burst >= 2
    requires forall i: nat :: 1 <= i <= j ==> Wait(i, q.rate) == Wait(i, p.rate)
    ensures Playing(cfg, v, p, q, f', g', t + Wait(j, q.rate))
    ensures Racing(f', q, t, Wait(j, q.rate), j) && Racing(g', p, t, Wait(j, p.rate), j)
    ensures Wait(j, q.rate) == Wait(j, p.rate)
  {
    hide Playing;
    hide Racing;
    v, f', g' := tr, f, g;
    if j == 0 {
      assert Wait(0, q.rate) == 0 == Wait(0, p.rate);
    } else {
      var w, f1, g1 := Race(cfg, tr, p, q, f, g, t, j - 1);
      WaitGrows(j - 1, j, q.rate);
      WaitGrows(j - 1, j, p.rate);
      hide Wait;
      RaceGoesOn(f1, q, q, cfg.ttl, t, Wait(j - 1, q.rate), j - 1, Wait(j, q.rate));
      RaceGoesOn(g1, p, q, cfg.ttl, t, Wait(j - 1, p.rate), j - 1, Wait(j, p.rate));
      hide Touch;
      v, f', g' := Play(cfg, w, p, q, f1, g1, t + Wait(j - 1, q.rate), q, t + Wait(j, q.rate));
    }
  }

  lemma EmptyIsRacing(e: Entry, r: Policy, q: Policy, t: Time)
    requires Coherent(e) && e.lastSeen <= t && e.policy == r && InForce(r, q) == r && DownTo(e, q, t, 0)
    ensures Racing(e, r, t, 0, 0)
  {}

  /** An older caller with the same burst and another rate shows after an eviction, unless a bucket of
      one token takes both rates the same number of nanoseconds. */
  lemma OtherRatesDiverge(cfg: Config, p: Policy, q: Policy) returns (tr: Trace, n: nat)
    requires cfg.maxEntries > 0 && cfg.cleanupBatch > 0 && RatesDiffer(p, q) && p.rate != q.rate
    requires Sane(p.rate, p.burst) && Sane(q.rate, q.burst)
    requires p.burst >= 2 || RefillDelay(1.0, p.rate) != RefillDelay(1.0, q.rate)
    ensures Disagree(cfg, tr, n) && OnlyWith(tr.es, p, q)
    ensures tr.es[n].decision.allowed != IdealDecision(cfg, tr.ss, tr.es, n).allowed
  {
    hide Touch;
    hide LeftAlone;
    hide DownTo;
    var v, g, t := CallsOnceAndLeaves(cfg, p, q);
    LeftIsKept(cfg, v, p, q, g, t);
    var w, f1, g1, rest := MakeAnewAndDrain(cfg, v, p, q, g, p, t, p.burst);
    PlayingIsCoherent(cfg, w, p, q, f1, g1, t);
    EmptyIsRacing(f1, q, q, t);
    EmptyIsRacing(g1, p, q, t);
    tr, n := RaceEnds(cfg, w, p, q, f1, g1, t);
    hide Disagree;
  }

  lemma RaceEnds(cfg: Config, tr: Trace, p: Policy, q: Policy, f: Entry, g: Entry, t: Time) returns (v: Trace, n: nat)
    requires RatesDiffer(p, q) && p.rate != q.rate && Sane(p.rate, p.burst) && Sane(q.rate, q.burst)
    requires p.burst >= 2 || RefillDelay(1.0, p.rate) != RefillDelay(1.0, q.rate)
    requires Playing(cfg, tr, p, q, f, g, t) && Racing(f, q, t, 0, 0) && Racing(g, p, t, 0, 0)
    ensures Disagree(cfg, v, n) && OnlyWith(v.es, p, q)
    ensures v.es[n].decision.allowed != IdealDecision(cfg, v.ss, v.es, n).allowed
  {
    hide Wait;
    hide Touch;
    hide Racing;
    hide Playing;
    hide RefillDelay;
    hide Sane;
    hide Disagree;
    var k := PartingOf(p, q);
    var x, f2, g2 := Race(cfg, tr, p, q, f, g, t, k - 1);
    var w := if Wait(k, p.rate) < Wait(k, q.rate) then Wait(k, p.rate) else Wait(k, q.rate);
    WaitGrows(k - 1, k, q.rate);
    WaitGrows(k - 1, k, p.rate);
    RaceIsDecided(f2, q, q, cfg.ttl, t, Wait(k - 1, q.rate), k - 1, w);
    RaceIsDecided(g2, p, q, cfg.ttl, t, Wait(k - 1, p.rate), k - 1, w);
    n := |x.es|;
    var f3, g3;
    v, f3, g3 := Play(cfg, x, p, q, f2, g2, t + Wait(k - 1, q.rate), q, t + w);
    PlayingIsOnlyWith(cfg, v, p, q, f3, g3, t + w);
  }

  lemma PlayingIsOnlyWith(cfg: Config, tr: Trace, p: Policy, q: Policy, f: Entry, g: Entry, t: Time)
    requires Playing(cfg, tr, p, q, f, g, t)
    ensures OnlyWith(tr.es, p, q)
  {}

  lemma LeftIsKept(cfg: Config, tr: Trace, p: Policy, q: Policy, g: Entry, t: Time)
    requires LeftAlone(cfg, tr, p, q, g, p, t) && RatesDiffer(p, q)
    ensures DownTo(g, q, t, p.burst)
  {
    FullIsKept(g, q, t);
  }

  /** How many tokens it takes to tell the rates apart: one, if that is all the bucket holds. */
  lemma PartingOf(p: Policy, q: Policy) returns (k: nat)
    requires RatesDiffer(p, q) && p.rate != q.rate && Sane(p.rate, p.burst) && Sane(q.rate, q.burst)
    requires p.burst >= 2 || RefillDelay(1.0, p.rate) != RefillDelay(1.0, q.rate)
    ensures k >= 1 && Wait(k, p.rate) != Wait(k, q.rate) && (k > 1 ==> p.burst >= 2)
    ensures forall j: nat :: 1 <= j < k ==> Wait(j, q.rate) == Wait(j, p.rate)
  {
    hide Wait;
    hide RefillDelay;
    if p.burst >= 2 {
      var bound;
      if p.rate < q.rate {
        bound := RatesPart(p.rate, q.rate);
      } else {
        bound := RatesPart(q.rate, p.rate);
      }
      k := FirstPart(p.rate, q.rate, bound);
    } else {
      DelayIsMonotone(1.0, p.burst as real, p.rate);
      DelayIsMonotone(1.0, q.burst as real, q.rate);
      OneTokenDelay(p.rate);
      OneTokenDelay(q.rate);
      k := 1;
    }
  }
}
