/** The limiter: a table of buckets and the queue that orders them by deadline.
    Every method is one critical section; the clock reading is a parameter. */
module Limiter {
  import opened TokenBucket
  import opened LimiterSpec
  import opened ExpiryQueue

  lemma CleanupTurnFirst(s: Table, k: string, turns: nat, ttl: nat, now: Time, next: Table)
    requires IsHead(s, k) && turns > 0 && now >= s[k].expiresAt && next == CleanOne(s, k, ttl, now)
    ensures forall t :: CleanupStep(next, turns - 1, ttl, now, t) ==> CleanupStep(s, turns, ttl, now, t)
  {}

  lemma CleanupStops(s: Table, k: string, turns: nat, ttl: nat, now: Time)
    requires IsHead(s, k) && turns > 0 && now < s[k].expiresAt
    ensures CleanupStep(s, turns, ttl, now, s)
  {}

  /** The table once the bucket of `key` is there, before it is touched. */
  ghost predicate Found(cfg: Config, s: Table, key: string, policy: Policy, consume: bool, now: Time, t: Table)
  {
    if key in s then t == s
    else
      && policy.enabled && consume
      && exists room :: MadeRoom(cfg, s, now, room) && t == room[key := NewEntry(policy)]
  }

  lemma CreatedInRoom(cfg: Config, s: Table, key: string, policy: Policy, consume: bool, now: Time, room: Table)
    requires key !in s && policy.enabled && consume && MadeRoom(cfg, s, now, room)
    ensures Found(cfg, s, key, policy, consume, now, room[key := NewEntry(policy)])
  {}

  lemma FoundThenTouched(cfg: Config, s: Table, key: string, policy: Policy, consume: bool, now: Time,
                         mid: Table, before: Entry, after: Entry, d: Decision)
    requires Found(cfg, s, key, policy, consume, now, mid[key := before])
    requires (after, d) == Touch(before, policy, consume, cfg.ttl, now)
    ensures CheckStep(cfg, s, key, policy, consume, now, mid[key := after], d)
  {
    hide Touch;
    hide MadeRoom;
    hide Refused;
    var found := mid[key := before];
    assert mid[key := after] == found[key := after];
    if key !in s {
      var room :| MadeRoom(cfg, s, now, room) && found == room[key := NewEntry(policy)];
      assert before == found[key] == NewEntry(policy);
      assert mid[key := after] == room[key := after];
    }
  }

  lemma CleanupEnds(s: Table, turns: nat, ttl: nat, now: Time)
    requires turns == 0 || s == map[]
    ensures CleanupStep(s, turns, ttl, now, s)
  {}

  lemma RemovalCounts<V>(m: map<string, V>, k: string)
    requires k in m
    ensures |m - {k}| == |m| - 1
  {}

  class Limiter {
    const config: Config
    const expirations: Queue
    var entries: map<string, ClientLimiter>

    /** The table and the queue hold the same buckets. */
    ghost predicate Valid()
      reads this, expirations, expirations.members
    {
      && 0 < config.maxEntries
      && expirations.Valid()
      && entries == expirations.byKey
      && |entries| <= config.maxEntries
    }

    ghost function Table(): Table
      reads expirations
    {
      expirations.table
    }

    constructor (config: Config)
      requires config.maxEntries > 0
      ensures Valid() && fresh(expirations) && this.config == config && Table() == map[]
    {
      this.config := config;
      expirations := new Queue();
      entries := map[];
    }

    /** Stores `e` with its deadline and puts the bucket at its place in the queue. */
    method ScheduleExpiry(entry: ClientLimiter, e: Entry, now: Time)
      requires expirations.Valid()
      requires entry in expirations.members || (entry.key !in expirations.byKey && entry.index < 0)
      modifies entry`state, entry`index, expirations, expirations.members`index
      ensures expirations.Valid()
      ensures expirations.byKey == old(expirations.byKey)[entry.key := entry]
      ensures Table() == old(Table())[entry.key := Schedule(e, config.ttl, now)]
      ensures expirations.members == old(expirations.members) + {entry}
    {
      hide IsHeap;
      var fullAt := now + RefillDelay(e.policy.burst as real - TokensAt(e.bucket, now), e.policy.rate);
      var expiresAt := e.lastSeen + config.ttl;
      if fullAt > expiresAt {
        expiresAt := fullAt;
      }
      assert e.(expiresAt := expiresAt) == Schedule(e, config.ttl, now);
      hide Schedule;
      hide RefillDelay;
      hide TokensAt;
      entry.state := e.(expiresAt := expiresAt);
      if entry.index < 0 {
        expirations.Push(entry);
      } else {
        expirations.Fix(entry.index);
      }
    }

    /** Drops the head of the queue from both structures. */
    method RemoveFirst()
      requires Valid() && |expirations.slots| > 0
      modifies this`entries, expirations, expirations.members`index
      ensures Valid() && |entries| == old(|entries|) - 1 && entries.Keys <= old(entries.Keys)
      ensures expirations.members <= old(expirations.members)
      ensures Table() == old(Table()) - {old(expirations.slots[0].key)}
    {
      hide IsHeap;
      hide Queue.Valid;
      var entry := expirations.Pop();
      RemovalCounts(entries, entry.key);
      entries := entries - {entry.key};
    }

    /** Looks only at the head: a full bucket makes room, a bucket in debt refuses. */
    method EnsureCapacity(now: Time) returns (d: Decision)
      requires Valid()
      modifies this`entries, expirations, expirations.members`index
      ensures Valid() && expirations.members <= old(expirations.members)
      ensures d.allowed ==> d == ALLOW && MadeRoom(config, old(Table()), now, Table()) && |entries| < config.maxEntries
      ensures !d.allowed ==> Table() == old(Table()) && Refused(config, old(Table()), now, d)
      ensures entries.Keys <= old(entries.Keys)
    {
      hide IsHeap;
      hide Queue.Valid;
      expirations.TableIsQueued();
      if |entries| < config.maxEntries {
        return ALLOW;
      }
      expirations.HeadIsLeast();
      var head := expirations.slots[0].state;
      var missing := head.policy.burst as real - TokensAt(head.bucket, now);
      if missing > 0.0 {
        return Decision(false, RefillDelay(missing, head.policy.rate));
      }
      RemoveFirst();
      d := ALLOW;
    }

    method Check(key: string, policy: Policy, consume: bool, now: Time) returns (d: Decision)
      requires Valid()
      modifies this`entries, expirations, expirations.members
      ensures Valid() && fresh(expirations.members - old(expirations.members))
      ensures CheckStep(config, old(Table()), key, policy, consume, now, Table(), d)
    {
      hide IsHeap;
      hide Queue.Valid;
      hide CheckStep;
      hide Found;
      hide Touch;
      var entry: ClientLimiter?;
      entry, d := FindOrCreate(key, policy, consume, now);
      if entry != null {
        ghost var mid, before := Table(), entry.state;
        d := Settle(entry, policy, consume, now);
        FoundThenTouched(config, old(Table()), key, policy, consume, now, mid, before,
          Touch(before, policy, consume, config.ttl, now).0, d);
      }
    }

    /** Charges a bucket that was found or just made, and queues it under its new deadline. */
    method Settle(entry: ClientLimiter, policy: Policy, consume: bool, now: Time) returns (d: Decision)
      requires expirations.Valid()
      requires entry in expirations.members || (entry.key !in expirations.byKey && entry.index < 0)
      modifies entry`state, entry`index, expirations, expirations.members`index
      ensures expirations.Valid()
      ensures expirations.byKey == old(expirations.byKey)[entry.key := entry]
      ensures var (after, decision) := Touch(old(entry.state), policy, consume, config.ttl, now);
              d == decision && Table() == old(Table())[entry.key := after]
      ensures expirations.members == old(expirations.members) + {entry}
    {
      hide IsHeap;
      hide Schedule;
      hide Touch;
      hide Queue.Valid;
      var at, e;
      at, e, d := Charge(entry.state, policy, consume, now);
      ScheduleExpiry(entry, e, at);
    }

    /** The bucket of `key`, made on demand; null when the decision needs no bucket. */
    method FindOrCreate(key: string, policy: Policy, consume: bool, now: Time)
        returns (entry: ClientLimiter?, d: Decision)
      requires Valid()
      modifies this`entries, expirations, expirations.members`index
      ensures expirations.Valid() && expirations.members <= old(expirations.members)
      ensures entry == null ==> Valid() && CheckStep(config, old(Table()), key, policy, consume, now, Table(), d)
      ensures entry != null ==> entry.key == key && entries == expirations.byKey[key := entry]
                                && |entries| <= config.maxEntries
      ensures entry != null ==> entry in expirations.members
                                || (key !in expirations.byKey && entry.index < 0 && fresh(entry))
      ensures entry != null ==> Found(config, old(Table()), key, policy, consume, now, Table()[key := entry.state])
    {
      hide IsHeap;
      if key in entries {
        entry, d := entries[key], ALLOW;
        return;
      }
      if !policy.enabled || !consume {
        return null, ALLOW;
      }
      hide MadeRoom;
      hide Refused;
      hide Touch;
      d := EnsureCapacity(now);
      if !d.allowed {
        return null, d;
      }
      entry := new ClientLimiter(key, policy);
      entries := entries[key := entry];
      CreatedInRoom(config, old(Table()), key, policy, consume, now, Table());
    }

    /** The part of a check that concerns one bucket: clamp the clock, adopt a newer policy, decide. */
    method Charge(entry: Entry, policy: Policy, consume: bool, now: Time) returns (at: Time, e: Entry, d: Decision)
      ensures at == Clamp(entry, now)
      ensures (e, d) == Decide(Adopt(entry.(lastSeen := at), policy, at), consume, at)
      ensures (Schedule(e, config.ttl, at), d) == Touch(entry, policy, consume, config.ttl, now)
    {
      hide Schedule;
      at := if now < entry.lastSeen then entry.lastSeen else now;
      e := entry.(lastSeen := at);
      if policy.revision > e.policy.revision {
        if policy.rate != e.policy.rate {
          e := e.(bucket := SetLimitAt(e.bucket, at, policy.rate));
        }
        if policy.burst != e.policy.burst {
          e := e.(bucket := SetBurstAt(e.bucket, at, policy.burst));
        }
        e := e.(policy := policy);
      }
      d := ALLOW;
      if e.policy.enabled {
        if consume {
          var (bucket, taken) := AllowOne(e.bucket, at);
          e := e.(bucket := bucket);
          d := Decision(taken, 0);
        } else {
          d := Decision(TokensAt(e.bucket, at) >= 1.0, 0);
        }
        if !d.allowed {
          d := Decision(false, RefillDelay(1.0 - TokensAt(e.bucket, at), e.policy.rate));
        }
      }
    }

    /** One tick of the cleanup loop. */
    method EvictExpiredBatch(now: Time)
      requires Valid()
      modifies this`entries, expirations, expirations.members
      ensures Valid() && expirations.members <= old(expirations.members)
      ensures CleanupStep(old(Table()), config.cleanupBatch, config.ttl, now, Table())
    {
      hide CleanupStep;
      hide IsHeap;
      var i := 0;
      while i < config.cleanupBatch && |expirations.slots| > 0
        invariant 0 <= i <= config.cleanupBatch
        invariant Valid() && expirations.members <= old(expirations.members)
        invariant forall t :: CleanupStep(Table(), config.cleanupBatch - i, config.ttl, now, t)
                          ==> CleanupStep(old(Table()), config.cleanupBatch, config.ttl, now, t)
      {
        var done := EvictHead(now, config.cleanupBatch - i);
        if done {
          return;
        }
        i := i + 1;
      }
      expirations.TableIsQueued();
      CleanupEnds(Table(), config.cleanupBatch - i, config.ttl, now);
    }

    /** One turn of the loop, on the head of the queue. */
    method EvictHead(now: Time, ghost turns: nat) returns (done: bool)
      requires Valid() && |expirations.slots| > 0 && turns > 0
      modifies this`entries, expirations, expirations.members
      ensures Valid() && expirations.members <= old(expirations.members)
      ensures done ==> CleanupStep(old(Table()), turns, config.ttl, now, Table())
      ensures !done ==> forall t :: CleanupStep(Table(), turns - 1, config.ttl, now, t)
                                ==> CleanupStep(old(Table()), turns, config.ttl, now, t)
    {
      hide IsHeap;
      hide IsHead;
      hide CleanupStep;
      hide Schedule;
      hide Queue.Valid;
      expirations.HeadIsLeast();
      var entry := expirations.slots[0];
      done := now < entry.state.expiresAt;
      if done {
        CleanupStops(Table(), entry.key, turns, config.ttl, now);
        return;
      }
      if TokensAt(entry.state.bucket, now) < entry.state.policy.burst as real {
        ScheduleExpiry(entry, entry.state, now);
      } else {
        RemoveFirst();
      }
      CleanupTurnFirst(old(Table()), entry.key, turns, config.ttl, now, Table());
    }
  }
}
