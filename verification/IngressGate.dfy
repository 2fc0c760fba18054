/** The handler that takes one request through the limiter, call by call. */
module IngressGate {
  import opened TokenBucket
  import opened LimiterSpec
  import opened LimiterRuns
  import opened LimiterDeadlines
  import opened RateConfig
  import opened Ingress
  import opened Common
  import L = Limiter

  /** The rule of a named profile, if there is such a profile. */
  function BusinessRule(c: RateLimits, profile: string): Option<RateRule> {
    if profile == "mail" then Some(c.mail)
    else if profile == "generate_email" then Some(c.generateEmail)
    else if profile == "available_domains" then Some(c.availableDomains)
    else if profile == "stats" then Some(c.stats)
    else if profile == "yyds" then Some(c.yyds)
    else None
  }

  /** Five profiles have a rule, and each has its own: a new rule for one is what that one gets. */
  lemma ProfilesHaveTheirOwnRules(c: RateLimits, profile: string, r: RateRule)
    ensures BusinessRule(c, profile).Some? <==>
            profile in {"mail", "generate_email", "available_domains", "stats", "yyds"}
    ensures BusinessRule(c.(mail := r), profile) == if profile == "mail" then Some(r) else BusinessRule(c, profile)
    ensures BusinessRule(c.(generateEmail := r), profile) ==
            if profile == "generate_email" then Some(r) else BusinessRule(c, profile)
    ensures BusinessRule(c.(availableDomains := r), profile) ==
            if profile == "available_domains" then Some(r) else BusinessRule(c, profile)
    ensures BusinessRule(c.(stats := r), profile) == if profile == "stats" then Some(r) else BusinessRule(c, profile)
    ensures BusinessRule(c.(yyds := r), profile) == if profile == "yyds" then Some(r) else BusinessRule(c, profile)
  {}

  /** Either the request goes on, or it is answered: with a Retry-After of so many seconds, or with
      an internal error. */
  datatype Answer = Continue | TooMany(retryAfterSeconds: nat) | InternalError

  function Enforce(d: Decision): Answer {
    if d.allowed then Continue else TooMany(HeaderSeconds(d.retryAfter))
  }

  /** A refused client is told to wait at least a second, and at least as long as the limiter asks. */
  lemma RefusalWaitsLongEnough(d: Decision)
    ensures Enforce(d).TooMany? <==> !d.allowed
    ensures Enforce(d).TooMany? ==>
              Enforce(d).retryAfterSeconds >= 1 && Enforce(d).retryAfterSeconds * SECOND >= d.retryAfter
  {}

  const PHASES := [Arrived, Peeked, IpPaid]

  /** The calls of one request, one after the other, each a step of the limiter. */
  ghost predicate Path(cfg: Config, r: Request, clocks: seq<Time>, tables: seq<Table>, ds: seq<Decision>) {
    && 1 <= |ds| <= 3 && |tables| == |ds| + 1 && |clocks| == 3
    && (forall i :: 0 <= i < |ds| ==> CallStep(cfg, r, i, clocks, tables, ds))
    && (forall i :: 0 <= i < |ds| - 1 ==> ds[i].allowed)
    && (|ds| < 3 ==> !ds[|ds| - 1].allowed)
  }

  ghost predicate CallStep(cfg: Config, r: Request, i: nat, clocks: seq<Time>, tables: seq<Table>, ds: seq<Decision>)
    requires i < |ds| <= 3 && |tables| == |ds| + 1 && |clocks| == 3
  {
    Step(cfg, tables[i], NextCall(r.(phase := PHASES[i]), clocks[i], ds[i]), tables[i + 1])
  }

  /** Peeks at the instance bucket, charges the address, charges the instance; the first refusal
      answers the request. Nothing else touches the limiter in between. */
  method AllowAPIKeyIngress(limiter: L.Limiter, r: Request, clocks: seq<Time>)
    returns (answer: Answer, ghost tables: seq<Table>, ghost ds: seq<Decision>)
    requires limiter.Valid() && |clocks| == 3
    modifies limiter`entries, limiter.expirations, limiter.expirations.members
    ensures limiter.Valid()
    ensures Path(limiter.config, r, clocks, tables, ds)
    ensures tables[0] == old(limiter.Table()) && tables[|ds|] == limiter.Table()
    ensures answer == Enforce(ds[|ds| - 1])
  {
    hide CheckStep;
    hide L.Limiter.Valid;
    hide L.Limiter.Table;
    hide HeaderSeconds;
    hide InstanceKey;
    hide IpKey;
    var instance := PolicyOf(r.revision, r.perInstance);
    var key := InstanceKey(r.route);
    ghost var t0 := limiter.Table();
    var peeked := limiter.Check(key, instance, false, clocks[0]);
    ghost var t1 := limiter.Table();
    assert Step(limiter.config, t0, NextCall(r.(phase := Arrived), clocks[0], peeked), t1);
    if !peeked.allowed {
      return Enforce(peeked), [t0, t1], [peeked];
    }
    var charged := limiter.Check(IpKey(r.ip, r.route), PolicyOf(r.revision, r.perIP), true, clocks[1]);
    ghost var t2 := limiter.Table();
    assert Step(limiter.config, t1, NextCall(r.(phase := Peeked), clocks[1], charged), t2);
    if !charged.allowed {
      return Enforce(charged), [t0, t1, t2], [peeked, charged];
    }
    var admitted := limiter.Check(key, instance, true, clocks[2]);
    assert Step(limiter.config, t2, NextCall(r.(phase := IpPaid), clocks[2], admitted), limiter.Table());
    return Enforce(admitted), [t0, t1, t2, limiter.Table()], [peeked, charged, admitted];
  }

  function BusinessCall(c: RateLimits, revision: int, profile: string, subject: string, route: string, now: Time,
                        d: Decision): Event
    requires BusinessRule(c, profile).Some?
  {
    var key := BucketKey("business", profile, subject, route);
    Call(key, PolicyOf(revision, BusinessRule(c, profile).value), true, now, d)
  }

  /** A key's bucket for a profile comes under the profile's rule unless it follows a newer revision. */
  lemma BusinessRuleComesIntoForce(cfg: Config, s: Table, c: RateLimits, revision: int, profile: string,
                                   subject: string, route: string, now: Time, d: Decision, t: Table)
    requires BusinessRule(c, profile).Some?
    requires Step(cfg, s, BusinessCall(c, revision, profile, subject, route, now, d), t)
    ensures var k, rule := BucketKey("business", profile, subject, route), BusinessRule(c, profile).value;
            k in t && (k in s ==> s[k].policy.revision < revision) ==>
              t[k].policy == Policy(revision, rule.enabled, rule.requestsPerSecond, rule.burst)
  {
    CallerTakesOver(cfg, s, BusinessCall(c, revision, profile, subject, route, now, d), t);
    hide Step;
    hide BucketKey;
    hide BusinessRule;
  }

  /** A disabled rule makes no bucket and lets the call through, as long as the key has none. */
  lemma DisabledRuleLetsThrough(cfg: Config, s: Table, c: RateLimits, revision: int, profile: string,
                                subject: string, route: string, now: Time, d: Decision, t: Table)
    requires BusinessRule(c, profile).Some? && !BusinessRule(c, profile).value.enabled
    requires Step(cfg, s, BusinessCall(c, revision, profile, subject, route, now, d), t)
    requires BucketKey("business", profile, subject, route) !in s
    ensures t == s && d.allowed && Enforce(d).Continue?
  {
    hide BucketKey;
    hide BusinessRule;
    hide Touch;
  }

  /** One call under the rule of the profile that is registered for the route. A route without a
      profile is not limited; a profile that the settings do not know is an error. Neither makes a call. */
  method AllowAPIKeyBusiness(limiter: L.Limiter, settings: RateLimits, revision: int, registered: Option<string>,
                             subject: string, route: string, now: Time)
    returns (answer: Answer, ghost d: Decision)
    requires limiter.Valid()
    modifies limiter`entries, limiter.expirations, limiter.expirations.members
    ensures limiter.Valid()
    ensures registered.None? ==> answer.Continue? && limiter.Table() == old(limiter.Table())
    ensures registered.Some? && BusinessRule(settings, registered.value).None? ==>
              answer.InternalError? && limiter.Table() == old(limiter.Table())
    ensures registered.Some? && BusinessRule(settings, registered.value).Some? ==>
              && answer == Enforce(d)
              && Step(limiter.config, old(limiter.Table()),
                      BusinessCall(settings, revision, registered.value, subject, route, now, d), limiter.Table())
  {
    hide CheckStep;
    hide HeaderSeconds;
    hide L.Limiter.Valid;
    hide L.Limiter.Table;
    hide BusinessRule;
    hide BucketKey;
    d := ALLOW;
    if registered.None? {
      return Continue, d;
    }
    var rule := BusinessRule(settings, registered.value);
    if rule.None? {
      return InternalError, d;
    }
    var key := BucketKey("business", registered.value, subject, route);
    var decision := limiter.Check(key, PolicyOf(revision, rule.value), true, now);
    d := decision;
    answer := Enforce(decision);
  }

  function PhaseAt(r: Request, ds: seq<Decision>, i: nat): Phase
    requires i <= |ds| <= 3
  {
    if i == 0 then Arrived else NextPhase(r.(phase := PHASES[i - 1]), ds[i - 1])
  }

  /** A request handled in one go is an ingress run of its own: the world moves by `Next` at each call. */
  lemma PathIsIngressRun(cfg: Config, w: World, id: RequestId, clocks: seq<Time>, tables: seq<Table>,
                         ds: seq<Decision>, i: nat)
    requires id in w.requests && Path(cfg, w.requests[id], clocks, tables, ds) && i < |ds|
    requires w.table == tables[i] && w.requests[id].phase == PhaseAt(w.requests[id], ds, i)
    ensures exists v :: Next(cfg, w, Advance(id, clocks[i], ds[i]), v)
                        && v.table == tables[i + 1] && v.requests[id].phase == PhaseAt(w.requests[id], ds, i + 1)
  {
    var r := w.requests[id];
    assert CallStep(cfg, r, i, clocks, tables, ds);
    assert r.phase == PHASES[i];
    assert r.(phase := PHASES[i]) == r;
    var e := NextCall(r, clocks[i], ds[i]);
    var requests := w.requests[id := r.(phase := NextPhase(r, ds[i]))];
    var v := World(tables[i + 1], requests, w.spent + Taken(e, tables[i + 1]));
    assert Next(cfg, w, Advance(id, clocks[i], ds[i]), v);
    hide Next;
  }
}
