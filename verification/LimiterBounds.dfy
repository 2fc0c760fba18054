/** How much one key can consume over a run. */
module LimiterBounds {
  import opened TokenBucket
  import opened LimiterSpec
  import opened LimiterRuns

  /** Consuming calls on `k` that were admitted among the first `n` events. */
  ghost function Admissions(es: seq<Event>, k: string, start: nat, stop: nat): nat
    requires start <= stop <= |es|
  {
    if start == stop then 0
    else
      var e := es[stop - 1];
      Admissions(es, k, start, stop - 1) +
      (if e.Call? && e.key == k && e.consume && e.decision.allowed then 1 else 0)
  }

  /** From `start` up to `stop`, all calls on `k` come with the same enabled rate and burst. */
  ghost predicate FixedRule(es: seq<Event>, k: string, rate: real, burst: int, start: nat, stop: nat)
    requires start <= stop <= |es|
  {
    forall i :: start <= i < stop && es[i].Call? && es[i].key == k ==>
      es[i].policy.enabled && es[i].policy.rate == rate && es[i].policy.burst == burst
  }

  ghost predicate Follows(s: Table, k: string, rate: real, burst: int) {
    k in s ==> s[k].policy.enabled && s[k].policy.rate == rate && s[k].policy.burst == burst
  }

  /** What key `k` may spend at `now`: an absent key counts as a full bucket. */
  ghost function Credit(s: Table, k: string, burst: int, now: Time): real {
    if k in s then TokensAt(s[k].bucket, now) else burst as real
  }

  /** No step, not even an eviction, hands a key credit it had not earned. */
  lemma StepSpendsCredit(cfg: Config, s: Table, e: Event, t: Table, k: string, rate: real, burst: int)
    requires Step(cfg, s, e, t) && Good(s, e.now) && Follows(s, k, rate, burst) && burst >= 1
    requires e.Call? && e.key == k ==> e.policy.enabled && e.policy.rate == rate && e.policy.burst == burst
    ensures Follows(t, k, rate, burst)
    ensures Credit(t, k, burst, e.now) ==
            Credit(s, k, burst, e.now)
            - (if e.Call? && e.key == k && e.consume && e.decision.allowed then 1.0 else 0.0)
  {
    hide Touch;
    hide Step;
    StepFate(cfg, s, e, t, k);
    match FateOf(s, e, t, k)
    case Created => TouchBalance(NewEntry(e.policy), e.policy, true, cfg.ttl, e.now);
    case Touched => TouchBalance(s[k], e.policy, e.consume, cfg.ttl, e.now);
    case Absent =>
    case Evicted =>
    case Kept =>
  }

  lemma CreditGrows(s: Table, k: string, rate: real, burst: int, now: Time, later: Time)
    requires now <= later && Good(s, now) && Follows(s, k, rate, burst)
    ensures Credit(s, k, burst, now) <= Credit(s, k, burst, later) <= Credit(s, k, burst, now) + Gain(rate, later - now)
  {
    GainNonNegative(rate, later - now);
    if k in s {
      TokensGrow(s[k].bucket, now, later);
    }
  }

  lemma {:induction false} RunFollows(cfg: Config, ss: seq<Table>, es: seq<Event>, k: string,
                                      rate: real, burst: int, start: nat, n: nat)
    requires Run(cfg, ss, es) && start <= n < |ss| && burst >= 1
    requires FixedRule(es, k, rate, burst, start, n) && Follows(ss[start], k, rate, burst)
    ensures Follows(ss[n], k, rate, burst)
  {
    hide Step;
    if n > start {
      RunFollows(cfg, ss, es, k, rate, burst, start, n - 1);
      RunIsGood(cfg, ss, es, n - 1);
      StepSpendsCredit(cfg, ss[n - 1], es[n - 1], ss[n], k, rate, burst);
    }
    hide Follows;
  }

  /** Credit is conserved over a window: what is left plus what was spent is at most
      what was there plus what the rate earned. */
  lemma {:induction false} WindowConservesCredit(cfg: Config, ss: seq<Table>, es: seq<Event>, k: string,
                                                 rate: real, burst: int, start: nat, stop: nat)
    requires Run(cfg, ss, es) && burst >= 1 && start < stop <= |es|
    requires FixedRule(es, k, rate, burst, start, stop) && Follows(ss[start], k, rate, burst)
    ensures Credit(ss[stop], k, burst, es[stop - 1].now) + Admissions(es, k, start, stop) as real
         <= Credit(ss[start], k, burst, es[start].now) + Gain(rate, es[stop - 1].now - es[start].now)
    decreases stop
  {
    hide Step;
    var last := stop - 1;
    RunIsGood(cfg, ss, es, last);
    RunFollows(cfg, ss, es, k, rate, burst, start, last);
    StepSpendsCredit(cfg, ss[last], es[last], ss[stop], k, rate, burst);
    if start == last {
      assert Admissions(es, k, start, last) == 0;
    } else {
      var prev := last - 1;
      WindowConservesCredit(cfg, ss, es, k, rate, burst, start, last);
      assert es[start].now <= es[prev].now <= es[last].now;
      RunIsGood(cfg, ss, es, prev);
      CreditGrows(ss[last], k, rate, burst, es[prev].now, es[last].now);
      GainAdds(rate, es[prev].now - es[start].now, es[last].now - es[prev].now);
    }
  }

  lemma CreditIsBounded(s: Table, k: string, rate: real, burst: int, now: Time)
    requires Good(s, now) && Follows(s, k, rate, burst) && burst >= 1
    ensures 0.0 <= Credit(s, k, burst, now) <= burst as real
  {}

  lemma RunCredit(cfg: Config, ss: seq<Table>, es: seq<Event>, k: string, rate: real, burst: int, start: nat, n: nat)
    requires Run(cfg, ss, es) && burst >= 1 && start <= n < |es|
    requires FixedRule(es, k, rate, burst, start, n + 1) && Follows(ss[start], k, rate, burst)
    ensures 0.0 <= Credit(ss[n], k, burst, es[n].now) <= burst as real
    ensures 0.0 <= Credit(ss[n + 1], k, burst, es[n].now) <= burst as real
  {
    RunIsGood(cfg, ss, es, n);
    RunFollows(cfg, ss, es, k, rate, burst, start, n);
    RunFollows(cfg, ss, es, k, rate, burst, start, n + 1);
    CreditIsBounded(ss[n], k, rate, burst, es[n].now);
    CreditIsBounded(ss[n + 1], k, rate, burst, es[n].now);
  }

  /** In any window of a run in which a key keeps one rule, it is admitted at most burst + rate * time
      times, whatever happened before and however often its bucket is evicted and made again. */
  lemma WindowBound(cfg: Config, ss: seq<Table>, es: seq<Event>, k: string,
                    rate: real, burst: int, start: nat, stop: nat)
    requires Run(cfg, ss, es) && burst >= 1 && start < stop <= |es|
    requires FixedRule(es, k, rate, burst, start, stop) && Follows(ss[start], k, rate, burst)
    ensures Admissions(es, k, start, stop) as real
         <= burst as real + Gain(rate, es[stop - 1].now - es[start].now)
  {
    hide Gain;
    hide Credit;
    hide Admissions;
    hide Step;
    WindowConservesCredit(cfg, ss, es, k, rate, burst, start, stop);
    RunCredit(cfg, ss, es, k, rate, burst, start, start);
    RunCredit(cfg, ss, es, k, rate, burst, start, stop - 1);
  }

  // ---------- Rules that change while the bucket lives ----------

  /** Tokens earned between consecutive events at the rate then in force. */
  ghost function Earned(ss: seq<Table>, es: seq<Event>, k: string, start: nat, stop: nat): real
    requires |ss| == |es| + 1 && start < stop <= |es|
    requires forall i :: start <= i <= stop ==> k in ss[i]
    requires forall i, j :: 0 <= i <= j < |es| ==> es[i].now <= es[j].now
    decreases stop
  {
    if start == stop - 1 then 0.0
    else Earned(ss, es, k, start, stop - 1) + Gain(ss[stop - 1][k].policy.rate, es[stop - 1].now - es[stop - 2].now)
  }

  /** While a bucket lives and stays enabled, what it admits is covered by what it held
      plus what each rate in force earned: no change of rule refills it. */
  lemma {:induction false} LivingBucketBound(cfg: Config, ss: seq<Table>, es: seq<Event>, k: string, start: nat,
                                             stop: nat)
    requires Run(cfg, ss, es) && start < stop <= |es|
    requires forall i :: start <= i <= stop ==> k in ss[i] && ss[i][k].policy.enabled
    ensures TokensAt(ss[stop][k].bucket, es[stop - 1].now) + Admissions(es, k, start, stop) as real
         <= TokensAt(ss[start][k].bucket, es[start].now) + Earned(ss, es, k, start, stop)
    decreases stop
  {
    hide Step;
    var last := stop - 1;
    RunIsGood(cfg, ss, es, last);
    LivingStep(cfg, ss[last], es[last], ss[stop], k);
    if start == last {
      assert Admissions(es, k, start, last) == 0;
    } else {
      LivingBucketBound(cfg, ss, es, k, start, last);
      TokensGrow(ss[last][k].bucket, es[last - 1].now, es[last].now);
    }
  }

  lemma LivingStep(cfg: Config, s: Table, e: Event, t: Table, k: string)
    requires Step(cfg, s, e, t) && Good(s, e.now) && k in s && k in t && t[k].policy.enabled
    requires e.Call? ==> e.policy.burst >= 1
    ensures TokensAt(t[k].bucket, e.now)
         <= TokensAt(s[k].bucket, e.now)
            - (if e.Call? && e.key == k && e.consume && e.decision.allowed then 1.0 else 0.0)
  {
    hide Touch;
    hide Step;
    StepFate(cfg, s, e, t, k);
    if e.Call? && e.key == k {
      TouchBalance(s[k], e.policy, e.consume, cfg.ttl, e.now);
    }
  }

  /** While a bucket lives its revision never goes back, and a call that does not carry a
      newer one leaves its rule alone. */
  lemma LivingRevision(cfg: Config, s: Table, e: Event, t: Table, k: string)
    requires Step(cfg, s, e, t) && Good(s, e.now) && k in s && k in t
    requires e.Call? ==> e.policy.burst >= 1
    ensures t[k].policy.revision >= s[k].policy.revision
    ensures t[k].policy != s[k].policy ==>
              e.Call? && e.key == k && t[k].policy == e.policy && e.policy.revision > s[k].policy.revision
    ensures e.Call? && e.key == k && t[k].policy != s[k].policy ==>
              TokensAt(t[k].bucket, e.now) ==
              Min(TokensAt(s[k].bucket, e.now), e.policy.burst as real) - Charge(e.policy, e.consume, e.decision)
  {
    hide Touch;
    hide Step;
    StepFate(cfg, s, e, t, k);
    if e.Call? && e.key == k {
      TouchBalance(s[k], e.policy, e.consume, cfg.ttl, e.now);
    }
  }
}
