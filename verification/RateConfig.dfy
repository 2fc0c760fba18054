/** The rate limit configuration and the bounds every saved one satisfies. */
module RateConfig {
  import opened TokenBucket

  const MIN_REQUESTS_PER_SECOND: real := 0.001
  const MAX_REQUESTS_PER_SECOND: real := 100000.0
  const MAX_BURST: int := 100000

  datatype RateRule = RateRule(enabled: bool, requestsPerSecond: real, burst: int)

  datatype RateLimits = RateLimits(
    perIP: RateRule, perInstance: RateRule,
    mail: RateRule, generateEmail: RateRule, availableDomains: RateRule, stats: RateRule, yyds: RateRule)

  predicate RuleInBounds(r: RateRule) {
    && MIN_REQUESTS_PER_SECOND <= r.requestsPerSecond <= MAX_REQUESTS_PER_SECOND
    && 1 <= r.burst <= MAX_BURST
  }

  function Rules(c: RateLimits): seq<RateRule> {
    [c.perIP, c.perInstance, c.mail, c.generateEmail, c.availableDomains, c.stats, c.yyds]
  }

  predicate Validate(c: RateLimits) {
    forall r <- Rules(c) :: RuleInBounds(r)
  }

  function DefaultConfig(): (c: RateLimits)
    ensures Validate(c)
  {
    RateLimits(RateRule(true, 5.0, 20), RateRule(true, 50.0, 200),
               RateRule(true, 2.0, 20), RateRule(true, 1.0, 10), RateRule(true, 0.5, 5), RateRule(true, 2.0, 10),
               RateRule(true, 2.0, 20))
  }

  /** The smallest and the largest values that a rule may have. */
  predicate Allowed(r: RateRule) { 0.001 <= r.requestsPerSecond <= 100_000.0 && 1 <= r.burst <= 100_000 }

  /** A configuration is valid if and only if each of its seven rules keeps within the bounds. */
  lemma ValidateIff(c: RateLimits)
    ensures Validate(c) <==>
            && Allowed(c.perIP) && Allowed(c.perInstance) && Allowed(c.mail) && Allowed(c.generateEmail)
            && Allowed(c.availableDomains) && Allowed(c.stats) && Allowed(c.yyds)
  {
    var all := Rules(c);
    assert all[0] in all && all[1] in all && all[2] in all && all[3] in all && all[4] in all && all[5] in all
           && all[6] in all;
    hide Allowed;
    forall r: RateRule ensures Allowed(r) == RuleInBounds(r) { BoundsAreAllowed(r); }
    hide RuleInBounds;
  }

  lemma BoundsAreAllowed(r: RateRule)
    ensures Allowed(r) == RuleInBounds(r)
  {}

  /** Under the defaults every rule is in force; the buckets of the ingress are full again after four seconds,
      those of the business rules after ten, but the statistics' after five. */
  lemma DefaultsRefillInTime()
    ensures var rules, bursts := Rules(DefaultConfig()), [20, 200, 20, 10, 5, 10, 20];
            var seconds := [4.0, 4.0, 10.0, 10.0, 10.0, 5.0, 10.0];
            forall i :: 0 <= i < 7 ==>
              && rules[i].enabled && rules[i].burst == bursts[i]
              && rules[i].requestsPerSecond * seconds[i] == bursts[i] as real
  {
    var rules := Rules(DefaultConfig());
    assert rules[0].requestsPerSecond * 4.0 == 20.0 && rules[1].requestsPerSecond * 4.0 == 200.0;
    assert rules[2].requestsPerSecond * 10.0 == 20.0 && rules[3].requestsPerSecond * 10.0 == 10.0;
    assert rules[4].requestsPerSecond * 10.0 == 5.0 && rules[5].requestsPerSecond * 5.0 == 10.0;
    assert rules[6].requestsPerSecond * 10.0 == 20.0;
  }

  /** No bucket takes longer to fill than the largest at the smallest rate, which takes a hundred million
      seconds. */
  lemma SlowestRefill(r: RateRule)
    requires RuleInBounds(r)
    ensures RefillDelay(r.burst as real, r.requestsPerSecond) <= 100_000_000 * 1_000_000_000
    ensures RefillDelay(100_000.0, 0.001) == 100_000_000 * 1_000_000_000
  {
    var x := r.burst as real / r.requestsPerSecond;
    assert x * r.requestsPerSecond == r.burst as real;
    assert x <= 100_000_000.0 by {
      if x > 100_000_000.0 { MulMonoStrict(r.requestsPerSecond, 100_000_000.0, x); }
    }
    DelayOfSeconds(r.burst as real, r.requestsPerSecond, x, 100_000_000);
    assert 100_000.0 / 0.001 == 100_000_000.0;
  }

  lemma DelayOfSeconds(tokens: real, limit: real, x: real, n: nat)
    requires limit > 0.0 && x == tokens / limit && x <= n as real
    ensures RefillDelay(tokens, limit) <= n * 1_000_000_000
  {
    assert x * SECOND as real <= n as real * 1_000_000_000.0;
    assert (n * 1_000_000_000) as real == n as real * 1_000_000_000.0;
  }

  /** A bucket under this rule refills in a time that int64 nanoseconds can hold. */
  predicate Sane(rate: real, burst: int) {
    rate > 0.0 && burst >= 1 && RefillDelay(burst as real, rate) < MAX_INT64
  }

  lemma RuleInBoundsIsSane(r: RateRule)
    requires RuleInBounds(r)
    ensures Sane(r.requestsPerSecond, r.burst)
  {}

  /** A smaller debt is paid sooner, and never saturates under a sane rule. */
  lemma DelayIsMonotone(x: real, y: real, rate: real)
    requires rate > 0.0 && x <= y && RefillDelay(y, rate) < MAX_INT64
    ensures RefillDelay(x, rate) <= RefillDelay(y, rate)
  {
    if x > 0.0 {
      DivMono(rate, x, y);
      MulMono(SECOND as real, x / rate, y / rate);
    }
  }
}
