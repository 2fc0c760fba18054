/** API-key ingress: peek at the instance bucket, charge the IP bucket, charge the instance
    bucket. The three calls of one request interleave freely with those of others. */
module Ingress {
  import opened TokenBucket
  import opened LimiterSpec
  import opened LimiterRuns
  import opened RateConfig

  function BucketKey(layer: string, profile: string, subject: string, route: string): string {
    "api-key:" + layer + ":" + profile + ":" + subject + ":" + route
  }

  function InstanceKey(route: string): string { BucketKey("pre_auth", "per_instance", "instance", route) }

  function IpKey(ip: string, route: string): string { BucketKey("pre_auth", "per_ip", ip, route) }

  predicate IsIngressKey(k: string) { "api-key:pre_auth:" <= k }

  /** Whatever the client address and the routes, the two layers never share a bucket. */
  lemma KeysAreApart(ip: string, route: string, other: string)
    ensures InstanceKey(route) != IpKey(ip, other)
    ensures IsIngressKey(InstanceKey(route)) && IsIngressKey(IpKey(ip, other))
  {
    var p := "api-key:pre_auth:";
    assert InstanceKey(route) == p + ("per_instance" + ":" + "instance" + ":" + route);
    assert IpKey(ip, other) == p + ("per_ip" + ":" + ip + ":" + other);
    assert InstanceKey(route)[22] == 'n' && IpKey(ip, other)[22] == 'p';
  }

  /** No business bucket is an ingress bucket. */
  lemma BusinessKeysAreApart(profile: string, subject: string, route: string)
    ensures !IsIngressKey(BucketKey("business", profile, subject, route))
  {
    var c := BucketKey("business", profile, subject, route);
    assert c == "api-key:business" + (":" + profile + ":" + subject + ":" + route);
    assert c[8] == 'b' && "api-key:pre_auth:"[8] == 'p';
  }

  lemma InstanceKeyIsInjective(a: string, b: string)
    requires InstanceKey(a) == InstanceKey(b)
    ensures a == b
  {
    var p := "api-key:pre_auth:per_instance:instance:";
    assert InstanceKey(a) == p + a && InstanceKey(b) == p + b;
    assert (p + a)[|p|..] == a && (p + b)[|p|..] == b;
  }

  /** On one route every address has a bucket of its own. */
  lemma AddressesAreApart(a: string, b: string, route: string)
    ensures IpKey(a, route) == IpKey(b, route) <==> a == b
  {
    IpKeyParts(a, route);
    IpKeyParts(b, route);
    hide IpKey;
    if a + (":" + route) == b + (":" + route) {
      assert |a| == |b|;
      assert (a + (":" + route))[..|a|] == a && (b + (":" + route))[..|b|] == b;
    }
  }

  lemma IpKeyParts(ip: string, route: string)
    ensures IpKey(ip, route) == "api-key:pre_auth:per_ip:" + (ip + (":" + route))
    ensures IpKey(ip, route)[24..] == ip + (":" + route)
  {
    assert |"api-key:pre_auth:per_ip:"| == 24;
    assert IpKey(ip, route) == "api-key:pre_auth:per_ip:" + (ip + (":" + route));
  }

  /** The method of a route, which holds no colon and no slash, ends at `i`, where the path begins. */
  predicate MethodEnds(route: string, i: nat) {
    && i + 1 < |route| && route[i] == ':' && route[i + 1] == '/'
    && forall j :: 0 <= j < i ==> route[j] != ':' && route[j] != '/'
  }

  /** What `apiRateLimitRoute` makes: a method, a colon and a path pattern, or "unmatched". */
  ghost predicate RealRoute(route: string) { route == "unmatched" || exists i: nat :: MethodEnds(route, i) }

  /** No client address holds a slash, though one of the sixth version holds colons. */
  predicate RealAddress(ip: string) { '/' !in ip }

  /** Addresses and routes share buckets only if they are the same. */
  lemma IpKeyIsInjective(a: string, r: string, b: string, q: string)
    requires RealAddress(a) && RealAddress(b) && RealRoute(r) && RealRoute(q)
    requires IpKey(a, r) == IpKey(b, q)
    ensures a == b && r == q
  {
    IpKeyParts(a, r);
    IpKeyParts(b, q);
    hide IpKey;
    SameAddress(a, r, b, q);
    SplitsAt(a, ":" + r, b, ":" + q);
    assert (":" + r)[1..] == r && (":" + q)[1..] == q;
  }

  lemma SplitsAt(a: string, x: string, b: string, y: string)
    requires a + x == b + y && |a| == |b|
    ensures a == b && x == y
  {
    assert (a + x)[..|a|] == a && (b + y)[..|b|] == b;
    assert (a + x)[|a|..] == x && (b + y)[|b|..] == y;
  }

  lemma SameAddress(a: string, r: string, b: string, q: string)
    requires RealAddress(a) && RealAddress(b) && RealRoute(r) && RealRoute(q)
    requires a + (":" + r) == b + (":" + q)
    ensures |a| == |b|
  {
    if r == "unmatched" { NoSlash(a, r); }
    if q == "unmatched" { NoSlash(b, q); }
    if i: nat :| MethodEnds(r, i) {
      SlashOf(a, r, i);
      if j: nat :| MethodEnds(q, j) {
        SlashOf(b, q, j);
        assert |a| + i == |b| + j;
        SameColon(a, r, i, b, q, j);
      }
    } else if j: nat :| MethodEnds(q, j) {
      SlashOf(b, q, j);
    }
    assert |r| == |q| ==> |a| == |b|;
    hide MethodEnds;
  }

  /** The first slash of a key's tail starts the path. */
  lemma SlashOf(ip: string, route: string, i: nat)
    requires RealAddress(ip) && MethodEnds(route, i)
    ensures var x := ip + (":" + route);
            && |ip| + i + 2 < |x| && x[|ip| + i + 2] == '/'
            && forall k :: 0 <= k < |ip| + i + 2 ==> x[k] != '/'
  {
    var x := ip + (":" + route);
    forall k | 0 <= k < |ip| + i + 2 ensures x[k] != '/' {
      if k > |ip| { assert x[k] == route[k - |ip| - 1]; }
    }
  }

  lemma NoSlash(ip: string, route: string)
    requires RealAddress(ip) && route == "unmatched"
    ensures '/' !in ip + (":" + route)
  {
    assert forall c <- ":" + route :: c != '/';
  }

  /** The last colon before the path's ends the address. */
  lemma SameColon(a: string, r: string, i: nat, b: string, q: string, j: nat)
    requires MethodEnds(r, i) && MethodEnds(q, j) && a + (":" + r) == b + (":" + q) && |a| + i == |b| + j
    ensures |a| == |b|
  {
    MethodHasNoColon(a, r, i);
    MethodHasNoColon(b, q, j);
    hide MethodEnds;
  }

  lemma MethodHasNoColon(ip: string, route: string, i: nat)
    requires MethodEnds(route, i)
    ensures var x := ip + (":" + route);
            |x| > |ip| + i && x[|ip|] == ':' && forall k :: |ip| < k <= |ip| + i ==> x[k] != ':'
  {
    var x := ip + (":" + route);
    forall k | |ip| < k <= |ip| + i ensures x[k] != ':' { assert x[k] == route[k - |ip| - 1]; }
  }

  /** Two business calls share a bucket only if profile, subject and route are the same: neither the
      names of the profiles nor the numbers of the keys hold a colon. */
  lemma BusinessKeyIsInjective(profile: string, subject: string, route: string, p: string, s: string, r: string)
    requires ':' !in profile && ':' !in p && ':' !in subject && ':' !in s
    requires BucketKey("business", profile, subject, route) == BucketKey("business", p, s, r)
    ensures profile == p && subject == s && route == r
  {
    var head := "api-key:business:";
    var x, y := subject + (":" + route), s + (":" + r);
    assert BucketKey("business", profile, subject, route) == head + (profile + (":" + x));
    assert BucketKey("business", p, s, r) == head + (p + (":" + y));
    assert (head + (profile + (":" + x)))[|head|..] == profile + (":" + x);
    assert (head + (p + (":" + y)))[|head|..] == p + (":" + y);
    SplitsAtColon(profile, x, p, y);
    SplitsAtColon(subject, route, s, r);
  }

  lemma SplitsAtColon(a: string, x: string, b: string, y: string)
    requires ':' !in a && ':' !in b && a + (":" + x) == b + (":" + y)
    ensures a == b && x == y
  {
    ColonComesFirst(a, x);
    ColonComesFirst(b, y);
    SplitsAt(a, ":" + x, b, ":" + y);
    assert (":" + x)[1..] == x && (":" + y)[1..] == y;
  }

  lemma ColonComesFirst(a: string, x: string)
    requires ':' !in a
    ensures var u := a + (":" + x); |u| > |a| && u[|a|] == ':' && forall k :: 0 <= k < |a| ==> u[k] != ':'
  {}

  function PolicyOf(revision: int, r: RateRule): Policy {
    Policy(revision, r.enabled, r.requestsPerSecond, r.burst)
  }

  datatype Phase = Arrived | Peeked | IpPaid | Admitted | StoppedByPeek | StoppedByIp | StoppedByInstance

  /** A request carries the settings snapshot it read on arrival. */
  datatype Request = Request(phase: Phase, ip: string, route: string, revision: int,
                             perIP: RateRule, perInstance: RateRule)

  type RequestId = nat

  /** `spent` counts, per bucket, the tokens that calls have taken. */
  datatype World = World(table: Table, requests: map<RequestId, Request>, spent: multiset<string>)

  datatype Action =
    | Arrive(id: RequestId, request: Request)
    | Advance(id: RequestId, now: Time, decision: Decision)
    | Elsewhere(event: Event)

  /** The call a request makes next. */
  function NextCall(r: Request, now: Time, d: Decision): Event
    requires r.phase in {Arrived, Peeked, IpPaid}
  {
    match r.phase
    case Arrived => Call(InstanceKey(r.route), PolicyOf(r.revision, r.perInstance), false, now, d)
    case Peeked => Call(IpKey(r.ip, r.route), PolicyOf(r.revision, r.perIP), true, now, d)
    case _ => Call(InstanceKey(r.route), PolicyOf(r.revision, r.perInstance), true, now, d)
  }

  function NextPhase(r: Request, d: Decision): Phase
    requires r.phase in {Arrived, Peeked, IpPaid}
  {
    match r.phase
    case Arrived => if d.allowed then Peeked else StoppedByPeek
    case Peeked => if d.allowed then IpPaid else StoppedByIp
    case _ => if d.allowed then Admitted else StoppedByInstance
  }

  /** The token a call takes: one when it consumes under a rule in force. */
  function Taken(e: Event, t: Table): multiset<string> {
    if e.Call? && e.consume && e.decision.allowed && e.key in t && t[e.key].policy.enabled
    then multiset{e.key}
    else multiset{}
  }

  ghost predicate Next(cfg: Config, w: World, a: Action, v: World) {
    match a
    case Arrive(id, r) =>
      && id !in w.requests && r.phase == Arrived
      && r.perIP.enabled && r.perInstance.enabled && r.perIP.burst >= 1 && r.perInstance.burst >= 1
      && v == w.(requests := w.requests[id := r])
    case Advance(id, now, d) =>
      && id in w.requests && w.requests[id].phase in {Arrived, Peeked, IpPaid}
      && var r := w.requests[id];
         var e := NextCall(r, now, d);
         && Step(cfg, w.table, e, v.table)
         && v.requests == w.requests[id := r.(phase := NextPhase(r, d))]
         && v.spent == w.spent + Taken(e, v.table)
    case Elsewhere(e) =>
      && (e.Call? ==> exists profile, subject, route :: e.key == BucketKey("business", profile, subject, route))
      && Step(cfg, w.table, e, v.table)
      && v.requests == w.requests
      && v.spent == w.spent + Taken(e, v.table)
  }

  function PaidKeys(r: Request): set<string> {
    match r.phase
    case IpPaid => {IpKey(r.ip, r.route)}
    case StoppedByInstance => {IpKey(r.ip, r.route)}
    case Admitted => {IpKey(r.ip, r.route), InstanceKey(r.route)}
    case _ => {}
  }

  ghost function Payers(requests: map<RequestId, Request>, k: string): set<RequestId> {
    set id | id in requests && k in PaidKeys(requests[id])
  }

  /** The books balance: every ingress token taken is owed to exactly one request. */
  ghost predicate Balanced(w: World) {
    && (forall id <- w.requests :: var r := w.requests[id];
          r.perIP.enabled && r.perInstance.enabled && r.perIP.burst >= 1 && r.perInstance.burst >= 1)
    && (forall k <- w.table :: IsIngressKey(k) ==> w.table[k].policy.enabled)
    && (forall k :: IsIngressKey(k) ==> w.spent[k] == |Payers(w.requests, k)|)
  }

  ghost predicate Initial(w: World) {
    w == World(map[], map[], multiset{})
  }

  lemma InitialIsBalanced(w: World)
    requires Initial(w)
    ensures Balanced(w)
  {}

  /** Every call keeps the rules of ingress buckets enabled, takes its token when it is
      admitted, and makes no bucket when it only peeks. */
  lemma CallOnIngress(cfg: Config, s: Table, e: Event, t: Table)
    requires Step(cfg, s, e, t)
    requires forall k <- s :: IsIngressKey(k) ==> s[k].policy.enabled
    requires e.Call? && IsIngressKey(e.key) ==> e.policy.enabled
    ensures forall k <- t :: IsIngressKey(k) ==> t[k].policy.enabled
    ensures e.Call? && IsIngressKey(e.key) && e.consume && e.decision.allowed ==> Taken(e, t) == multiset{e.key}
    ensures e.Call? && !e.consume ==> t.Keys == s.Keys
  {
    hide TokensAt;
    hide RefillDelay;
    forall k | k in t && IsIngressKey(k) ensures t[k].policy.enabled {
      StepFate(cfg, s, e, t, k);
      EnabledAfter(cfg, s, e, t, k);
    }
    if e.Call? {
      StepFate(cfg, s, e, t, e.key);
      PeekMakesNothing(cfg, s, e, t);
    }
  }

  lemma EnabledAfter(cfg: Config, s: Table, e: Event, t: Table, k: string)
    requires Step(cfg, s, e, t) && k in t
    requires k in s ==> s[k].policy.enabled
    requires e.Call? && e.key == k ==> e.policy.enabled
    ensures t[k].policy.enabled
  {
    hide TokensAt;
    hide RefillDelay;
    StepFate(cfg, s, e, t, k);
    hide Step;
    if k !in s && (e.Cleanup? || e.key != k) { NoOtherKeyAppears(cfg, s, e, t, k); }
  }

  lemma NoOtherKeyAppears(cfg: Config, s: Table, e: Event, t: Table, k: string)
    requires Step(cfg, s, e, t) && k !in s && (e.Cleanup? || e.key != k)
    ensures k !in t
  {
    hide Touch;
    hide TokensAt;
    if e.Cleanup? { CleanupKeeps(s, cfg.cleanupBatch, cfg.ttl, e.now, t); }
  }

  lemma PeekMakesNothing(cfg: Config, s: Table, e: Event, t: Table)
    requires Step(cfg, s, e, t) && e.Call?
    ensures !e.consume ==> t.Keys == s.Keys
  {}

  /** Every step, of any request or of other traffic, keeps the books balanced. */
  lemma StepKeepsBalance(cfg: Config, w: World, a: Action, v: World)
    requires Next(cfg, w, a, v) && Balanced(w)
    ensures Balanced(v)
  {
    hide Step;
    match a
    case Arrive(id, r) =>
      forall k | IsIngressKey(k) ensures v.spent[k] == |Payers(v.requests, k)| {
        assert Payers(v.requests, k) == Payers(w.requests, k);
      }
    case Elsewhere(e) =>
      if e.Call? {
        var profile, subject, route :| e.key == BucketKey("business", profile, subject, route);
        BusinessKeysAreApart(profile, subject, route);
      }
      CallOnIngress(cfg, w.table, e, v.table);
    case Advance(id, now, d) =>
      AdvanceKeepsBalance(cfg, w, id, now, d, v);
  }

  /** A bucket that is new, or whose policy is of an older revision, is under the caller's rule after the
      call: the address's rule in the second call of a request, the instance's in the other two. */
  lemma RulesComeIntoForce(cfg: Config, s: Table, r: Request, now: Time, d: Decision, t: Table)
    requires r.phase in {Arrived, Peeked, IpPaid} && Step(cfg, s, NextCall(r, now, d), t)
    ensures var k := if r.phase == Peeked then IpKey(r.ip, r.route) else InstanceKey(r.route);
            var rule := if r.phase == Peeked then r.perIP else r.perInstance;
            k in t && (k in s ==> s[k].policy.revision < r.revision) ==>
              t[k].policy == Policy(r.revision, rule.enabled, rule.requestsPerSecond, rule.burst)
  {
    CallerTakesOver(cfg, s, NextCall(r, now, d), t);
    hide Step;
    hide InstanceKey;
    hide IpKey;
  }

  lemma CallerTakesOver(cfg: Config, s: Table, e: Event, t: Table)
    requires Step(cfg, s, e, t) && e.Call?
    ensures e.key in t && (e.key in s ==> s[e.key].policy.revision < e.policy.revision) ==> t[e.key].policy == e.policy
  {
    StepFate(cfg, s, e, t, e.key);
    if e.key in t {
      TouchTakesOver(if e.key in s then s[e.key] else NewEntry(e.policy), e.policy, e.consume, cfg.ttl, e.now);
    }
    hide Step;
    hide Touch;
  }

  lemma TouchTakesOver(e: Entry, p: Policy, consume: bool, ttl: nat, now: Time)
    ensures Touch(e, p, consume, ttl, now).0.policy == if p.revision > e.policy.revision then p else e.policy
  {
    hide TokensAt;
    hide RefillDelay;
  }

  /** A call that takes a token adds its bucket to what the request has paid. */
  lemma CallsPay(r: Request, now: Time, d: Decision)
    requires r.phase in {Arrived, Peeked, IpPaid}
    ensures var e := NextCall(r, now, d);
            var after := PaidKeys(r.(phase := NextPhase(r, d)));
            && IsIngressKey(e.key) && e.key !in PaidKeys(r)
            && after == PaidKeys(r) + if e.consume && d.allowed then {e.key} else {}
  {
    KeysAreApart(r.ip, r.route, r.route);
    hide InstanceKey;
    hide IpKey;
    hide IsIngressKey;
  }

  lemma AdvanceKeepsBalance(cfg: Config, w: World, id: RequestId, now: Time, d: Decision, v: World)
    requires Next(cfg, w, Advance(id, now, d), v) && Balanced(w)
    ensures Balanced(v)
  {
    hide Step;
    hide InstanceKey;
    hide IpKey;
    hide IsIngressKey;
    var r := w.requests[id];
    var e := NextCall(r, now, d);
    CallsPay(r, now, d);
    CallOnIngress(cfg, w.table, e, v.table);
    hide PaidKeys;
    forall k | IsIngressKey(k) ensures v.spent[k] == |Payers(v.requests, k)| {
      PayersAfter(w.requests, id, v.requests[id], k);
    }
  }

  lemma PayersAfter(requests: map<RequestId, Request>, id: RequestId, r: Request, k: string)
    requires id in requests && PaidKeys(requests[id]) <= PaidKeys(r)
    ensures var fresh' := k in PaidKeys(r) && k !in PaidKeys(requests[id]);
            |Payers(requests[id := r], k)| == |Payers(requests, k)| + if fresh' then 1 else 0
  {
    hide PaidKeys;
    var before, after := Payers(requests, k), Payers(requests[id := r], k);
    if k in PaidKeys(r) && k !in PaidKeys(requests[id]) {
      assert after == before + {id};
    } else {
      assert after == before;
    }
  }

  /** What bucket `k` holds when `e` happens; one that `e` makes starts full. */
  ghost function Balance(s: Table, e: Event, k: string): real {
    if k in s then TokensAt(s[k].bucket, e.now) else if e.Call? then e.policy.burst as real else 0.0
  }

  /** The tokens counted as taken are the tokens that leave the buckets: apart from the cut to a
      smaller burst, a balance changes by exactly what is taken from it. */
  lemma TakenLeavesTheBuckets(cfg: Config, s: Table, e: Event, t: Table, k: string)
    requires Step(cfg, s, e, t) && Good(s, e.now) && (e.Call? ==> e.policy.burst >= 1) && k in t
    ensures TokensAt(t[k].bucket, e.now) ==
            Min(Balance(s, e, k), t[k].policy.burst as real) - Taken(e, t)[k] as real
  {
    hide Touch;
    hide Step;
    StepFate(cfg, s, e, t, k);
    match FateOf(s, e, t, k)
    case Created =>
      TouchBalance(NewEntry(e.policy), e.policy, true, cfg.ttl, e.now);
      GainNonNegative(e.policy.rate, e.now);
    case Touched => TouchBalance(s[k], e.policy, e.consume, cfg.ttl, e.now);
    case Kept =>
  }

  /** The call or event behind an action. */
  function EventOf(w: World, a: Action): Event
    requires !a.Arrive?
    requires a.Advance? ==> a.id in w.requests && w.requests[a.id].phase in {Arrived, Peeked, IpPaid}
  {
    if a.Advance? then NextCall(w.requests[a.id], a.now, a.decision) else a.event
  }

  /** Instance tokens taken on a route are the requests admitted on it, one each. */
  lemma InstanceTokensAreAdmissions(w: World, route: string)
    requires Balanced(w)
    ensures w.spent[InstanceKey(route)] ==
            |set id | id in w.requests && w.requests[id].phase == Admitted && w.requests[id].route == route|
  {
    var k := InstanceKey(route);
    forall id | id in w.requests
      ensures k != IpKey(w.requests[id].ip, w.requests[id].route)
      ensures InstanceKey(w.requests[id].route) == k ==> w.requests[id].route == route
    {
      KeysAreApart(w.requests[id].ip, route, w.requests[id].route);
      if InstanceKey(w.requests[id].route) == k { InstanceKeyIsInjective(w.requests[id].route, route); }
    }
    KeysAreApart("", route, "");
    hide InstanceKey;
    hide IpKey;
    hide IsIngressKey;
    assert Payers(w.requests, k) ==
           set id | id in w.requests && w.requests[id].phase == Admitted && w.requests[id].route == route;
  }

  predicate PastTheAddress(r: Request) { r.phase in {IpPaid, StoppedByInstance, Admitted} }

  /** The tokens taken from one address's bucket on one route are that address's own requests on that
      route, one for each that got past the address check. */
  lemma AddressTokensAreRequests(cfg: Config, ws: seq<World>, acts: seq<Action>, n: nat, ip: string, route: string)
    requires IngressRun(cfg, ws, acts) && n < |ws| && RealAddress(ip) && RealRoute(route)
    requires forall r <- ws[n].requests.Values :: RealAddress(r.ip) && RealRoute(r.route)
    ensures var requests := ws[n].requests;
            ws[n].spent[IpKey(ip, route)] ==
            |set id | id in requests && PastTheAddress(requests[id])
                      && requests[id].ip == ip && requests[id].route == route|
  {
    RunIsBalanced(cfg, ws, acts, n);
    var w, k := ws[n], IpKey(ip, route);
    KeysAreApart(ip, "", route);
    forall id | id in w.requests
      ensures k in PaidKeys(w.requests[id]) <==>
              PastTheAddress(w.requests[id]) && w.requests[id].ip == ip && w.requests[id].route == route
    {
      AddressIsPaid(w.requests[id], ip, route);
    }
    hide InstanceKey;
    hide IpKey;
    hide IsIngressKey;
    hide PaidKeys;
    assert Payers(w.requests, k) ==
           set id | id in w.requests && PastTheAddress(w.requests[id]) && w.requests[id].ip == ip
                    && w.requests[id].route == route;
  }

  lemma AddressIsPaid(r: Request, ip: string, route: string)
    requires RealAddress(ip) && RealRoute(route) && RealAddress(r.ip) && RealRoute(r.route)
    ensures IpKey(ip, route) in PaidKeys(r) <==> PastTheAddress(r) && r.ip == ip && r.route == route
  {
    KeysAreApart(ip, r.route, route);
    if IpKey(ip, route) == IpKey(r.ip, r.route) { IpKeyIsInjective(ip, route, r.ip, r.route); }
    hide InstanceKey;
    hide IpKey;
  }

  /** A request stopped by the peek has taken nothing and made no bucket. */
  lemma PeekStopsForFree(cfg: Config, w: World, id: RequestId, now: Time, d: Decision, v: World)
    requires Next(cfg, w, Advance(id, now, d), v) && w.requests[id].phase == Arrived && !d.allowed
    ensures v.requests[id].phase == StoppedByPeek
    ensures v.spent == w.spent && v.table.Keys == w.table.Keys
  {}

  /** The clock reading of an action, if it takes one. */
  predicate TimedAt(a: Action, now: Time) {
    match a
    case Arrive(_, _) => false
    case Advance(_, t, _) => t == now
    case Elsewhere(e) => e.now == now
  }

  /** Interleaved requests and other traffic under one clock; every policy has a burst. */
  ghost predicate IngressRun(cfg: Config, ws: seq<World>, acts: seq<Action>) {
    && |ws| == |acts| + 1 && Initial(ws[0])
    && (forall i {:trigger acts[i]} :: 0 <= i < |acts| ==> Next(cfg, ws[i], acts[i], ws[i + 1]))
    && (forall i, j, t: Time, u: Time :: 0 <= i <= j < |acts| && TimedAt(acts[i], t) && TimedAt(acts[j], u) ==> t <= u)
    && (forall i :: 0 <= i < |acts| && acts[i].Elsewhere? && acts[i].event.Call? ==> acts[i].event.policy.burst >= 1)
  }

  /** In every reachable state each ingress bucket has given out exactly the tokens that its
      requests hold: one IP token per request past the IP check, one instance token per admission. */
  lemma {:induction false} RunIsBalanced(cfg: Config, ws: seq<World>, acts: seq<Action>, n: nat)
    requires IngressRun(cfg, ws, acts) && n < |ws|
    ensures Balanced(ws[n])
  {
    hide Next;
    if n == 0 {
      InitialIsBalanced(ws[0]);
    } else {
      RunIsBalanced(cfg, ws, acts, n - 1);
      StepKeepsBalance(cfg, ws[n - 1], acts[n - 1], ws[n]);
    }
  }

  /** At any time that the clock has reached, every bucket of a reachable state is coherent. */
  lemma {:induction false} RunIsCoherent(cfg: Config, ws: seq<World>, acts: seq<Action>, n: nat, now: Time)
    requires IngressRun(cfg, ws, acts) && n < |ws|
    requires forall i, t: Time :: 0 <= i < n && TimedAt(acts[i], t) ==> t <= now
    ensures Good(ws[n].table, now)
  {
    hide Next;
    hide Balanced;
    if n > 0 {
      var a := acts[n - 1];
      if a.Arrive? {
        RunIsCoherent(cfg, ws, acts, n - 1, now);
        ArrivalKeepsTable(cfg, ws[n - 1], a, ws[n]);
      } else {
        RunIsBalanced(cfg, ws, acts, n - 1);
        NextIsStep(cfg, ws[n - 1], a, ws[n]);
        var e := EventOf(ws[n - 1], a);
        assert TimedAt(a, e.now);
        RunIsCoherent(cfg, ws, acts, n - 1, e.now);
        StepKeepsGood(cfg, ws[n - 1].table, e, ws[n].table);
        GoodLater(ws[n].table, e.now, now);
      }
    }
    hide Good;
    hide Step;
  }

  lemma GoodLater(s: Table, now: Time, later: Time)
    requires Good(s, now) && now <= later
    ensures Good(s, later)
  {}

  lemma ArrivalKeepsTable(cfg: Config, w: World, a: Action, v: World)
    requires Next(cfg, w, a, v) && a.Arrive?
    ensures v.table == w.table && v.spent == w.spent
  {}

  /** Any other action is one step of the limiter, under a policy with a burst. */
  lemma NextIsStep(cfg: Config, w: World, a: Action, v: World)
    requires Next(cfg, w, a, v) && !a.Arrive? && Balanced(w)
    requires a.Elsewhere? && a.event.Call? ==> a.event.policy.burst >= 1
    ensures a.Advance? ==> a.id in w.requests && w.requests[a.id].phase in {Arrived, Peeked, IpPaid}
    ensures var e := EventOf(w, a);
            && Step(cfg, w.table, e, v.table) && v.spent == w.spent + Taken(e, v.table)
            && TimedAt(a, e.now) && (e.Call? ==> e.policy.burst >= 1)
  {
    hide Step;
    hide Taken;
  }

  /** Whatever is written down as spent has left its bucket: at every step of every run, apart from the
      cut to a smaller burst, a balance changes by exactly what is spent from it. */
  lemma SpentLeavesTheBuckets(cfg: Config, ws: seq<World>, acts: seq<Action>, n: nat, k: string)
    requires IngressRun(cfg, ws, acts) && n < |acts| && k in ws[n + 1].table
    ensures acts[n].Arrive? ==> ws[n + 1].table == ws[n].table && ws[n + 1].spent == ws[n].spent
    ensures !acts[n].Arrive? && acts[n].Advance? ==>
              acts[n].id in ws[n].requests && ws[n].requests[acts[n].id].phase in {Arrived, Peeked, IpPaid}
    ensures !acts[n].Arrive? ==>
              var e, t := EventOf(ws[n], acts[n]), ws[n + 1].table;
              TokensAt(t[k].bucket, e.now) ==
              Min(Balance(ws[n].table, e, k), t[k].policy.burst as real) - (ws[n + 1].spent[k] - ws[n].spent[k]) as real
  {
    hide Next;
    hide TokensAt;
    hide Taken;
    hide Balanced;
    if acts[n].Arrive? {
      ArrivalKeepsTable(cfg, ws[n], acts[n], ws[n + 1]);
    } else {
      RunIsBalanced(cfg, ws, acts, n);
      NextIsStep(cfg, ws[n], acts[n], ws[n + 1]);
      var e := EventOf(ws[n], acts[n]);
      RunIsCoherent(cfg, ws, acts, n, e.now);
      TakenLeavesTheBuckets(cfg, ws[n].table, e, ws[n + 1].table, k);
    }
    hide Step;
    hide Good;
    hide Balance;
  }
}
