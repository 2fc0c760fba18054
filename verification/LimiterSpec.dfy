/** What one call of the limiter does, as a relation between the bucket table
    before and after. The table forgets the heap; where several buckets share
    the earliest deadline, any of them may be the queue's head. */
module LimiterSpec {
  import opened TokenBucket

  datatype Policy = Policy(revision: int, enabled: bool, rate: real, burst: int)

  datatype Decision = Decision(allowed: bool, retryAfter: nat)

  const ALLOW := Decision(true, 0)

  /** The value of one `clientLimiter`, without its key and heap index. */
  datatype Entry = Entry(bucket: Bucket, policy: Policy, lastSeen: Time, expiresAt: Time)

  type Table = map<string, Entry>

  datatype Config = Config(maxEntries: nat, cleanupBatch: nat, ttl: nat)

  const DEFAULT_MAX_ENTRIES: nat := 100_000
  const DEFAULT_CLEANUP_BATCH: nat := 1_000
  const DEFAULT_TTL: nat := 10 * 60 * SECOND

  /** Options that are not positive take their defaults. */
  function Configure(maxEntries: int, cleanupBatch: int, ttl: int): (cfg: Config)
    ensures cfg.maxEntries > 0 && cfg.cleanupBatch > 0 && cfg.ttl > 0
    ensures maxEntries > 0 && cleanupBatch > 0 && ttl > 0 ==> cfg == Config(maxEntries, cleanupBatch, ttl)
    ensures maxEntries <= 0 && cleanupBatch <= 0 && ttl <= 0 ==> cfg == Config(100_000, 1_000, 600_000_000_000)
  {
    Config(if maxEntries <= 0 then DEFAULT_MAX_ENTRIES else maxEntries,
           if cleanupBatch <= 0 then DEFAULT_CLEANUP_BATCH else cleanupBatch,
           if ttl <= 0 then DEFAULT_TTL else ttl)
  }

  function NewEntry(policy: Policy): Entry {
    Entry(NewBucket(policy.rate, policy.burst), policy, 0, 0)
  }

  /** No bucket's own clock runs backwards. */
  function Clamp(e: Entry, now: Time): Time { if now < e.lastSeen then e.lastSeen else now }

  /** Only a newer revision is adopted, and only changed parameters touch the bucket. */
  function Adopt(e: Entry, policy: Policy, now: Time): Entry {
    if policy.revision > e.policy.revision then
      var b := if policy.rate != e.policy.rate then SetLimitAt(e.bucket, now, policy.rate) else e.bucket;
      var c := if policy.burst != e.policy.burst then SetBurstAt(b, now, policy.burst) else b;
      e.(bucket := c, policy := policy)
    else e
  }

  function Decide(e: Entry, consume: bool, now: Time): (Entry, Decision) {
    if !e.policy.enabled then (e, ALLOW)
    else
      var (charged, taken) := AllowOne(e.bucket, now);
      var (b, allowed) := if consume then (charged, taken) else (e.bucket, TokensAt(e.bucket, now) >= 1.0);
      (e.(bucket := b),
       if allowed then ALLOW else Decision(false, RefillDelay(1.0 - TokensAt(b, now), e.policy.rate)))
  }

  function Missing(e: Entry, now: Time): real { e.policy.burst as real - TokensAt(e.bucket, now) }

  function Schedule(e: Entry, ttl: nat, now: Time): Entry {
    var fullAt := now + RefillDelay(Missing(e, now), e.policy.rate);
    var idleAt := e.lastSeen + ttl;
    e.(expiresAt := if fullAt > idleAt then fullAt else idleAt)
  }

  /** A call on a bucket that exists. */
  function Touch(e: Entry, policy: Policy, consume: bool, ttl: nat, now: Time): (Entry, Decision) {
    var at := Clamp(e, now);
    var (decided, d) := Decide(Adopt(e.(lastSeen := at), policy, at), consume, at);
    (Schedule(decided, ttl, at), d)
  }

  function Create(policy: Policy, ttl: nat, now: Time): (Entry, Decision) {
    Touch(NewEntry(policy), policy, true, ttl, now)
  }

  ghost predicate IsHead(s: Table, k: string) {
    k in s && forall j <- s :: s[k].expiresAt <= s[j].expiresAt
  }

  /** `ensureCapacityLocked`: room was there, or the head was full and went. */
  ghost predicate MadeRoom(cfg: Config, s: Table, now: Time, t: Table) {
    if |s| < cfg.maxEntries then t == s
    else exists k :: IsHead(s, k) && Missing(s[k], now) <= 0.0 && t == s - {k}
  }

  ghost predicate Refused(cfg: Config, s: Table, now: Time, d: Decision) {
    |s| >= cfg.maxEntries &&
    exists k :: IsHead(s, k) && Missing(s[k], now) > 0.0 &&
                d == Decision(false, RefillDelay(Missing(s[k], now), s[k].policy.rate))
  }

  ghost predicate CheckStep(cfg: Config, s: Table, key: string, policy: Policy, consume: bool, now: Time,
                            t: Table, d: Decision)
  {
    if key in s then
      var (e, d') := Touch(s[key], policy, consume, cfg.ttl, now);
      t == s[key := e] && d == d'
    else if !policy.enabled || !consume then
      t == s && d == ALLOW
    else
      var (e, d') := Create(policy, cfg.ttl, now);
      || (t == s && Refused(cfg, s, now, d))
      || (d == d' && exists room :: MadeRoom(cfg, s, now, room) && t == room[key := e])
  }

  /** One turn of the cleanup loop on the head `k`. */
  function CleanOne(s: Table, k: string, ttl: nat, now: Time): Table
    requires k in s
  {
    if TokensAt(s[k].bucket, now) < s[k].policy.burst as real
    then s[k := Schedule(s[k], ttl, now)]
    else s - {k}
  }

  /** At most `turns` turns of the cleanup loop lead from `s` to `t`. */
  ghost predicate CleanupStep(s: Table, turns: nat, ttl: nat, now: Time, t: Table)
    decreases turns, 1
  {
    if turns == 0 || s == map[] then t == s
    else exists k :: IsHead(s, k) && CleanupTurn(s, k, turns, ttl, now, t)
  }

  ghost predicate CleanupTurn(s: Table, k: string, turns: nat, ttl: nat, now: Time, t: Table)
    requires k in s && turns > 0
    decreases turns, 0
  {
    if now < s[k].expiresAt then t == s
    else CleanupStep(CleanOne(s, k, ttl, now), turns - 1, ttl, now, t)
  }
}
