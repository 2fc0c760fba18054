/** The worker that claims due rows of the delivery table and delivers them. */
module DeliveryWorker {
  import opened Common
  import opened DeliveryRow
  import opened DeliveryProtocol

  type Table = map<string, Row>

  /** How the SMTP sender ended. `committed` is false when the success hook rolls the transaction back. */
  datatype Outcome = Accepted(committed: bool) | Rejected(message: string, retryable: bool, delay: Time)

  datatype Delivery = Delivery(key: string, d: Row)

  const DEFAULT_BATCH := 5

  predicate Guards(rows: Table, worker: string, c: Delivery) {
    c.key in rows && Fenced(rows[c.key], worker, c.d.lockedAt)
  }

  // ---- What a batch of claims does -------------------------------------------------

  predicate Takes(rows: Table, key: string, now: Time) { key in rows && Claimable(rows[key], now) }

  function ClaimAll(rows: Table, keys: seq<string>, worker: string, now: Time): Table
    decreases |keys|
  {
    if keys == [] then rows else
      var before := ClaimAll(rows, keys[..|keys| - 1], worker, now);
      var key := keys[|keys| - 1];
      if Takes(before, key, now) then before[key := ClaimRow(before[key], worker, now)] else before
  }

  /** A batch touches the claimable candidates, each once, and no other row. */
  lemma {:induction false} ClaimAllTakesEachOnce(rows: Table, keys: seq<string>, worker: string, now: Time)
    ensures var after := ClaimAll(rows, keys, worker, now);
            && after.Keys == rows.Keys
            && forall k <- rows ::
                 after[k] == if k in keys && Claimable(rows[k], now) then ClaimRow(rows[k], worker, now) else rows[k]
    decreases |keys|
  {
    if keys != [] {
      var rest := keys[..|keys| - 1];
      ClaimAllTakesEachOnce(rows, rest, worker, now);
      assert keys == rest + [keys[|keys| - 1]];
    }
  }

  /** What a claim is worth, column by column: a candidate is taken if it waits and its time has come, or
      if its lease is more than ten minutes old, and then four columns change. */
  lemma BatchTakesExactly(rows: Table, keys: seq<string>, worker: string, now: Time, k: string)
    requires k in rows
    ensures var r := rows[k];
            var taken := k in keys && match r.status
              case Pending | Retry => r.nextAttemptAt.Some? ==> r.nextAttemptAt.value <= now
              case Delivering => r.lockedAt.Some? && now - r.lockedAt.value > 600_000_000_000
              case Succeeded | Failed => false;
            var claimed := r.(status := Delivering, stage := "preparing", lockedAt := Some(now), lockedBy := worker);
            var after := ClaimAll(rows, keys, worker, now);
            k in after && after[k] == if taken then claimed else r
  {
    ClaimAllTakesEachOnce(rows, keys, worker, now);
  }

  /** What the batch hands over for delivery, in candidate order. */
  function Claims(rows: Table, keys: seq<string>, worker: string, now: Time): seq<Delivery>
    decreases |keys|
  {
    if keys == [] then [] else
      var rest := keys[..|keys| - 1];
      var key := keys[|keys| - 1];
      var before := ClaimAll(rows, rest, worker, now);
      Claims(rows, rest, worker, now)
      + if Takes(before, key, now) then [Delivery(key, ClaimRow(before[key], worker, now))] else []
  }

  /** The claims handed over are the rows the batch took, each still held when the batch ends. */
  lemma {:induction false} ClaimsAreHeld(rows: Table, keys: seq<string>, worker: string, now: Time)
    ensures var claims := Claims(rows, keys, worker, now);
            && |claims| <= |keys|
            && (forall c <- claims :: Held(rows, keys, worker, now, c))
            && (forall k <- keys | Takes(rows, k, now) :: exists c <- claims :: c.key == k)
    decreases |keys|
  {
    if keys != [] {
      var rest, key := keys[..|keys| - 1], keys[|keys| - 1];
      var before, claims := Claims(rows, rest, worker, now), Claims(rows, keys, worker, now);
      ClaimsAreHeld(rows, rest, worker, now);
      ClaimAllTakesEachOnce(rows, rest, worker, now);
      assert keys == rest + [key];
      forall c <- claims ensures Held(rows, keys, worker, now, c) {
        if c in before {
          HeldOn(rows, rest, key, worker, now, c);
        } else {
          ClaimAllTakesEachOnce(rows, keys, worker, now);
        }
      }
      hide Claimable;
      hide ClaimRow;
      hide Fenced;
      forall k <- keys | Takes(rows, k, now) ensures exists c <- claims :: c.key == k {
        if k in rest {
          var c :| c in before && c.key == k;
          assert c in claims;
        } else if |claims| > |before| {
          assert claims[|before|].key == k;
        }
      }
    }
  }

  /** No row is handed over twice. */
  lemma {:induction false} ClaimsAreDistinct(rows: Table, keys: seq<string>, worker: string, now: Time)
    ensures var claims := Claims(rows, keys, worker, now);
            forall i, j :: 0 <= i < j < |claims| ==> claims[i].key != claims[j].key
    decreases |keys|
  {
    if keys != [] {
      var rest, key := keys[..|keys| - 1], keys[|keys| - 1];
      var before, claims := Claims(rows, rest, worker, now), Claims(rows, keys, worker, now);
      ClaimsAreDistinct(rows, rest, worker, now);
      ClaimsAreHeld(rows, rest, worker, now);
      ClaimAllTakesEachOnce(rows, rest, worker, now);
      forall i, j | 0 <= i < j < |claims| ensures claims[i].key != claims[j].key {
        assert before[i] in before && Held(rows, rest, worker, now, before[i]);
      }
    }
  }

  lemma HeldOn(rows: Table, keys: seq<string>, key: string, worker: string, now: Time, c: Delivery)
    requires Held(rows, keys, worker, now, c)
    ensures Held(rows, keys + [key], worker, now, c)
  {}

  predicate Held(rows: Table, keys: seq<string>, worker: string, now: Time, c: Delivery) {
    && c.key in keys && Takes(rows, c.key, now)
    && c.d == ClaimRow(rows[c.key], worker, now)
    && Guards(ClaimAll(rows, keys, worker, now), worker, c)
  }

  // ---- What an uninterrupted delivery does -----------------------------------------

  function RecordAll(r: Row, notes: seq<LogEntry>): Row
    decreases |notes|
  {
    if notes == [] then r else
      var before := RecordAll(r, notes[..|notes| - 1]);
      WriteStage(before, before.log, notes[|notes| - 1])
  }

  function StartedCopy(d: Row, now: Time): Row {
    d.(attempts := d.attempts + 1, log := AppendLog(d.log, StartEntry(now)))
  }

  function Finished(r: Row, d: Row, now: Time, outcome: Outcome): Row {
    match outcome
    case Accepted(committed) => if committed then FinishSuccess(r, now) else r
    case Rejected(message, retryable, delay) => FinishFailure(r, d, now, message, retryable, delay)
  }

  function Delivered(r: Row, d: Row, now: Time, notes: seq<LogEntry>, outcome: Outcome): Row {
    Finished(RecordAll(StartAttempt(r, d, now), notes), StartedCopy(d, now), now, outcome)
  }

  /** What a whole delivery leaves in a row: nothing if the guard does not match, the end of the row if
      the payload does not decode. */
  function AfterDelivery(held: bool, r: Row, d: Row, now: Time, corrupt: Option<string>, notes: seq<LogEntry>,
                         outcome: Outcome): Row {
    if !held then r
    else if corrupt.Some? then FinishFailure(r, d, now, corrupt.value, false, 0)
    else Delivered(r, d, now, notes, outcome)
  }

  lemma {:induction false} RecordAllAppends(r: Row, all: seq<LogEntry>, notes: seq<LogEntry>)
    requires r.log == LastN(all, LOG_LIMIT)
    ensures RecordAll(r, notes).log == LastN(all + notes, LOG_LIMIT)
    ensures RecordAll(r, notes) == r.(stage := RecordAll(r, notes).stage, log := RecordAll(r, notes).log)
    decreases |notes|
  {
    if notes == [] {
      assert all + notes == all;
    } else {
      var rest := notes[..|notes| - 1];
      RecordAllAppends(r, all, rest);
      LastOfLast(all + rest, notes[|notes| - 1]);
      assert all + notes == (all + rest) + [notes[|notes| - 1]];
    }
  }

  /** The entry an outcome leaves in the log. */
  function LastWords(d: Row, now: Time, outcome: Outcome): seq<LogEntry> {
    match outcome
    case Accepted(committed) => if committed then [SuccessEntry(now)] else []
    case Rejected(message, retryable, _) => [FailureEntry(d, now, message, retryable)]
  }

  /** One delivery spends one attempt, logs every stage in order, and either ends the row, puts
      it off by the retry delay, or (when the success hook fails) leaves the lease to go stale. */
  lemma DeliveryOutcome(r: Row, d: Row, now: Time, notes: seq<LogEntry>, outcome: Outcome, all: seq<LogEntry>)
    requires Fenced(r, r.lockedBy, d.lockedAt) && d.attempts == r.attempts >= 0 && d.log == r.log
             && d.maxAttempts == r.maxAttempts
    requires r.log == LastN(all, LOG_LIMIT)
    ensures var v := Delivered(r, d, now, notes, outcome);
            var begun := all + [LogEntry(now, "preparing", "delivery attempt started")] + notes;
            && v.attempts == r.attempts + 1 && v.maxAttempts == r.maxAttempts && v.lastAttemptAt == Some(now)
            && match outcome
               case Accepted(true) =>
                 && v.status == Succeeded && v.succeededAt == Some(now) && v.error == "" && v.stage == "succeeded"
                 && v.lockedAt.None? && v.lockedBy == "" && v.messageJSON == v.settingsJSON == "{}"
                 && v.log == LastN(begun + [LogEntry(now, "succeeded", "message accepted by configured SMTP path")], 40)
               case Accepted(false) =>
                 && v.status == Delivering && v.lockedAt == r.lockedAt && v.lockedBy == r.lockedBy
                 && v.messageJSON == r.messageJSON && v.settingsJSON == r.settingsJSON && v.error == ""
                 && v.stage == (if notes == [] then "preparing" else notes[|notes| - 1].stage)
                 && v.log == LastN(begun, 40)
               case Rejected(message, retryable, delay) =>
                 var again := retryable && v.attempts < v.maxAttempts;
                 && v.error == message && v.lockedAt.None? && v.lockedBy == "" && v.succeededAt == r.succeededAt
                 && v.stage == (if again then "retry_scheduled" else "failed")
                 && v.log == LastN(begun + [LogEntry(now, v.stage, message)], 40)
                 && if again
                    then v.status == Retry && v.nextAttemptAt == Some(now + delay)
                         && v.messageJSON == r.messageJSON && v.settingsJSON == r.settingsJSON
                    else v.status == Failed && v.nextAttemptAt.None? && v.messageJSON == v.settingsJSON == "{}"
  {
    var first := all + [StartEntry(now)];
    LastOfLast(all, StartEntry(now));
    RecordAllAppends(StartAttempt(r, d, now), first, notes);
    var words := LastWords(StartedCopy(d, now), now, outcome);
    if words != [] {
      LastOfLast(first + notes, words[0]);
      assert words == [words[0]];
    } else {
      assert first + notes + words == first + notes;
    }
    hide RecordAll;
    hide LastN;
  }

  /** The worker: one id, and the table shared with every other worker. */
  class Store {
    var rows: Table
    constructor () ensures rows == map[] { rows := map[]; }
  }

  class Worker {
    const id: string
    const maxBatch: int
    const store: Store

    constructor (id: string, maxBatch: int, store: Store)
      ensures this.id == id && this.maxBatch == maxBatch && this.store == store
    {
      this.id := id;
      this.maxBatch := maxBatch;
      this.store := store;
    }

    function BatchLimit(): (n: nat) ensures maxBatch > 0 ==> n == maxBatch ensures maxBatch <= 0 ==> n == 5 {
      if maxBatch <= 0 then DEFAULT_BATCH else maxBatch
    }

    /** Claims the selected candidates that are still claimable, and reads each of them back. */
    method ClaimDueDeliveries(selected: seq<string>, now: Time) returns (claimed: seq<Delivery>)
      modifies store
      ensures var candidates := selected[..if |selected| < BatchLimit() then |selected| else BatchLimit()];
              && store.rows == ClaimAll(old(store.rows), candidates, id, now)
              && claimed == Claims(old(store.rows), candidates, id, now)
              && |claimed| <= BatchLimit()
    {
      var candidates := selected[..if |selected| < BatchLimit() then |selected| else BatchLimit()];
      claimed := [];
      for i := 0 to |candidates|
        invariant store.rows == ClaimAll(old(store.rows), candidates[..i], id, now)
        invariant claimed == Claims(old(store.rows), candidates[..i], id, now)
      {
        var key := candidates[i];
        assert candidates[..i + 1][..i] == candidates[..i];
        if Takes(store.rows, key, now) {
          store.rows := store.rows[key := ClaimRow(store.rows[key], id, now)];
          claimed := claimed + [Delivery(key, store.rows[key])];
        }
      }
      assert candidates[..|candidates|] == candidates;
      ClaimsAreHeld(old(store.rows), candidates, id, now);
    }

    /** A conditional update: it reports whether a row matched the claim's guard. */
    method Update(c: Delivery, row: Row) returns (affected: bool)
      modifies store
      ensures affected == Guards(old(store.rows), id, c)
      ensures store.rows == if affected then old(store.rows)[c.key := row] else old(store.rows)
    {
      affected := Guards(store.rows, id, c);
      if affected { store.rows := store.rows[c.key := row]; }
    }

    method RecordStage(c: Delivery, e: LogEntry)
      modifies store
      ensures store.rows == if Guards(old(store.rows), id, c)
                            then var r := old(store.rows)[c.key]; old(store.rows)[c.key := WriteStage(r, r.log, e)]
                            else old(store.rows)
    {
      if Guards(store.rows, id, c) {
        var snapshot := store.rows[c.key].log;
        var _ := Update(c, WriteStage(store.rows[c.key], snapshot, e));
      }
    }

    method Finish(c: Delivery, now: Time, outcome: Outcome)
      modifies store
      ensures store.rows == if Guards(old(store.rows), id, c)
                            then old(store.rows)[c.key := Finished(old(store.rows)[c.key], c.d, now, outcome)]
                            else old(store.rows)
    {
      if Guards(store.rows, id, c) {
        var _ := Update(c, Finished(store.rows[c.key], c.d, now, outcome));
      }
    }

    /** Delivers one claim. A payload that does not decode ends the row without an attempt being started. */
    method Deliver(claim: Delivery, now: Time, corrupt: Option<string>, notes: seq<LogEntry>, outcome: Outcome)
      modifies store
      ensures store.rows == if claim.key !in old(store.rows) then old(store.rows)
                            else
                              var rows := old(store.rows);
                              var held := Guards(rows, id, claim);
                              var r := rows[claim.key];
                              rows[claim.key := AfterDelivery(held, r, claim.d, now, corrupt, notes, outcome)]
    {
      if corrupt.Some? {
        Finish(claim, now, Rejected(corrupt.value, false, 0));
        return;
      }
      if claim.key !in store.rows { return; }
      var affected := Update(claim, StartAttempt(store.rows[claim.key], claim.d, now));
      if !affected { return; }
      var c := claim.(d := StartedCopy(claim.d, now));
      ghost var start := store.rows[c.key];
      for i := 0 to |notes|
        invariant store.rows == old(store.rows)[c.key := RecordAll(start, notes[..i])]
        invariant Guards(store.rows, id, c)
      {
        assert notes[..i + 1][..i] == notes[..i];
        RecordStage(c, notes[i]);
      }
      assert notes[..|notes|] == notes;
      Finish(c, now, outcome);
    }
  }

  // ---- The worker's statements are the protocol's steps -----------------------------

  /** Where a sequence of steps leads, if each is enabled in its turn. */
  function After(w: World, acts: seq<Action>): Option<World>
    decreases |acts|
  {
    if acts == [] then Some(w) else
      var before := After(w, acts[..|acts| - 1]);
      var a := acts[|acts| - 1];
      if before.Some? && Enabled(before.value, a) then Some(Apply(before.value, a)) else None
  }

  /** Reading the log and writing it back, once for each stage. */
  function StageActs(sid: SessionId, notes: seq<LogEntry>): seq<Action>
    decreases |notes|
  {
    if notes == [] then [] else StageActs(sid, notes[..|notes| - 1]) + [ReadLog(sid), Record(sid, notes[|notes| - 1])]
  }

  function FinishAct(sid: SessionId, outcome: Outcome): Action {
    match outcome
    case Accepted(committed) => Action.Succeed(sid, committed)
    case Rejected(message, retryable, delay) => Action.Fail(sid, message, retryable, delay)
  }

  function LatestOf(notes: seq<LogEntry>, since: Time): Time {
    if notes == [] then since else notes[|notes| - 1].at
  }

  /** The worker's clock does not go back while it delivers. */
  predicate Timely(notes: seq<LogEntry>, since: Time)
    decreases |notes|
  {
    if notes == [] then true else
      var rest := notes[..|notes| - 1];
      Timely(rest, since) && LatestOf(rest, since) <= notes[|notes| - 1].at
  }

  lemma AfterOne(w: World, acts: seq<Action>, a: Action)
    ensures var before := After(w, acts);
            After(w, acts + [a]) ==
            if before.Some? && Enabled(before.value, a) then Some(Apply(before.value, a)) else None
  {}

  /** At the moment between two stages: the session holds its lease and its clock has not passed `now`. */
  predicate Midway(w: World, sid: SessionId, pc: Pc, now: Time) {
    pc.Sending? && HoldsLease(w, sid) && PcOf(w, sid) == pc && Ticks(w, w.sessions[sid].worker, now)
  }

  /** One stage: read the log, write it back with one more entry. */
  lemma StageIsTwoSteps(w: World, sid: SessionId, pc: Pc, since: Time, e: LogEntry)
    requires Midway(w, sid, pc, since) && since <= e.at
    ensures Enabled(w, ReadLog(sid)) && Enabled(Apply(w, ReadLog(sid)), Record(sid, e))
    ensures var v := Apply(Apply(w, ReadLog(sid)), Record(sid, e));
            v.row == WriteStage(w.row, w.row.log, e) && Midway(v, sid, pc, e.at) && v.sends == w.sends
  {}

  lemma {:induction false} StagesAreSteps(w: World, first: seq<Action>, u: World, sid: SessionId, pc: Pc,
                                          notes: seq<LogEntry>, since: Time)
    requires After(w, first) == Some(u) && Midway(u, sid, pc, since) && Timely(notes, since)
    ensures var v := After(w, first + StageActs(sid, notes));
            && v.Some? && v.value.row == RecordAll(u.row, notes) && v.value.sends == u.sends
            && Midway(v.value, sid, pc, LatestOf(notes, since))
    decreases |notes|
  {
    hide After;
    hide Apply;
    hide Enabled;
    hide Midway;
    hide WriteStage;
    if notes == [] {
      assert first + StageActs(sid, notes) == first;
    } else {
      var rest, e := notes[..|notes| - 1], notes[|notes| - 1];
      StagesAreSteps(w, first, u, sid, pc, rest, since);
      var done := first + StageActs(sid, rest);
      StageIsTwoSteps(After(w, done).value, sid, pc, LatestOf(rest, since), e);
      AfterOne(w, done, ReadLog(sid));
      AfterOne(w, done + [ReadLog(sid)], Record(sid, e));
      assert first + StageActs(sid, notes) == done + [ReadLog(sid)] + [Record(sid, e)];
    }
  }

  lemma StartThenSend(w: World, sid: SessionId, now: Time)
    requires PcOf(w, sid).Holding? && HoldsLease(w, sid) && Ticks(w, w.sessions[sid].worker, now)
    ensures Enabled(w, Start(sid, now)) && Enabled(Apply(w, Start(sid, now)), Send(sid))
    ensures var v := Apply(Apply(w, Start(sid, now)), Send(sid));
            var d := PcOf(w, sid).d;
            && v.row == StartAttempt(w.row, d, now) && v.sends == w.sends + 1
            && Midway(v, sid, Sending(StartedCopy(d, now), now), now)
  {}

  lemma FinishIsOneStep(w: World, sid: SessionId, pc: Pc, since: Time, outcome: Outcome)
    requires Midway(w, sid, pc, since) && (outcome.Rejected? ==> RetryDelay(FinalAttempt(pc.d), outcome.delay))
    ensures var a := FinishAct(sid, outcome);
            && Enabled(w, a) && PcOf(Apply(w, a), sid).Done? && Apply(w, a).sends == w.sends
            && Apply(w, a).row == Finished(w.row, pc.d, pc.now, outcome)
  {}

  /** What the worker does with one claim that it holds, has lost, or cannot decode. */
  function DeliveryActs(held: bool, sid: SessionId, now: Time, corrupt: Option<string>, notes: seq<LogEntry>,
                        outcome: Outcome): seq<Action> {
    if corrupt.Some? then [RejectPayload(sid, now, corrupt.value)]
    else if !held then [Start(sid, now)]
    else [Start(sid, now), Send(sid)] + StageActs(sid, notes) + [FinishAct(sid, outcome)]
  }

  /** The worker's own code is one path of the protocol, whether it holds its lease, has lost it, or
      cannot decode the payload: what it leaves in the row is what the protocol's steps leave there,
      and it sends exactly if it holds the lease on a payload that decodes. */
  lemma DeliverIsProtocolPath(w: World, sid: SessionId, now: Time, corrupt: Option<string>, notes: seq<LogEntry>,
                              outcome: Outcome)
    requires PcOf(w, sid).Holding? && Ticks(w, w.sessions[sid].worker, now) && Timely(notes, now)
    requires outcome.Rejected? ==> RetryDelay(FinalAttempt(StartedCopy(PcOf(w, sid).d, now)), outcome.delay)
    ensures var held, d := HoldsLease(w, sid), PcOf(w, sid).d;
            var v := After(w, DeliveryActs(held, sid, now, corrupt, notes, outcome));
            && v.Some? && PcOf(v.value, sid).Done?
            && v.value.row == AfterDelivery(held, w.row, d, now, corrupt, notes, outcome)
            && v.value.sends == w.sends + if held && corrupt.None? then 1 else 0
  {
    hide Delivered;
    hide Timely;
    hide RetryDelay;
    var held := HoldsLease(w, sid);
    if corrupt.Some? {
      RejectIsOneStep(w, sid, now, corrupt.value);
    } else if !held {
      LostStartIsOneStep(w, sid, now);
    } else {
      DeliverHeld(w, sid, now, notes, outcome);
    }
    hide After;
    hide HoldsLease;
    hide Ticks;
    hide FinishFailure;
  }

  lemma OnlyStep(w: World, a: Action)
    ensures After(w, [a]) == if Enabled(w, a) then Some(Apply(w, a)) else None
  {
    assert [] + [a] == [a];
    AfterOne(w, [], a);
    hide Apply;
    hide Enabled;
  }

  /** A payload that does not decode ends the row in one guarded step, and a lost lease leaves it alone. */
  lemma RejectIsOneStep(w: World, sid: SessionId, now: Time, message: string)
    requires PcOf(w, sid).Holding? && Ticks(w, w.sessions[sid].worker, now)
    ensures var v := After(w, [RejectPayload(sid, now, message)]);
            && v.Some? && PcOf(v.value, sid).Done? && v.value.sends == w.sends
            && v.value.row ==
               if HoldsLease(w, sid) then FinishFailure(w.row, PcOf(w, sid).d, now, message, false, 0) else w.row
    ensures var v := After(w, [RejectPayload(sid, now, message)]);
            v.Some? && HoldsLease(w, sid) ==>
              var r, d := v.value.row, PcOf(w, sid).d;
              && r.status == Failed && r.stage == "failed" && r.error == message && r.nextAttemptAt.None?
              && r.attempts == (if d.attempts <= 0 then d.attempts + 1 else d.attempts)
              && r.lockedAt.None? && r.lockedBy == "" && r.messageJSON == r.settingsJSON == "{}"
              && v.value.entries == w.entries + [LogEntry(now, "failed", message)]
  {
    OnlyStep(w, RejectPayload(sid, now, message));
    hide After;
    hide AppendLog;
  }

  /** A start whose guard does not match writes nothing and is the last step of its claim. */
  lemma LostStartIsOneStep(w: World, sid: SessionId, now: Time)
    requires PcOf(w, sid).Holding? && Ticks(w, w.sessions[sid].worker, now) && !HoldsLease(w, sid)
    ensures var v := After(w, [Start(sid, now)]);
            v.Some? && PcOf(v.value, sid).Done? && v.value.sends == w.sends && v.value.row == w.row
  {
    OnlyStep(w, Start(sid, now));
    hide After;
    hide StartAttempt;
    hide AppendLog;
  }

  /** With its lease, the worker starts, sends, records every stage and finishes. */
  lemma DeliverHeld(w: World, sid: SessionId, now: Time, notes: seq<LogEntry>, outcome: Outcome)
    requires PcOf(w, sid).Holding? && HoldsLease(w, sid) && Ticks(w, w.sessions[sid].worker, now) && Timely(notes, now)
    requires outcome.Rejected? ==> RetryDelay(FinalAttempt(StartedCopy(PcOf(w, sid).d, now)), outcome.delay)
    ensures var v := After(w, [Start(sid, now), Send(sid)] + StageActs(sid, notes) + [FinishAct(sid, outcome)]);
            && v.Some? && v.value.sends == w.sends + 1 && PcOf(v.value, sid).Done?
            && v.value.row == Delivered(w.row, PcOf(w, sid).d, now, notes, outcome)
  {
    var first := [Start(sid, now)] + [Send(sid)];
    assert [Start(sid, now), Send(sid)] == first;
    var pc := Sending(StartedCopy(PcOf(w, sid).d, now), now);
    StartThenSend(w, sid, now);
    assert [] + [Start(sid, now)] == [Start(sid, now)];
    AfterOne(w, [], Start(sid, now));
    AfterOne(w, [Start(sid, now)], Send(sid));
    var u := After(w, first).value;
    StagesAreSteps(w, first, u, sid, pc, notes, now);
    var body := first + StageActs(sid, notes);
    FinishIsOneStep(After(w, body).value, sid, pc, LatestOf(notes, now), outcome);
    AfterOne(w, body, FinishAct(sid, outcome));
    hide StageActs;
    hide StartedCopy;
    hide Apply;
    hide Enabled;
    hide Midway;
    hide HoldsLease;
    hide Ticks;
    hide RecordAll;
    hide Timely;
    hide RetryDelay;
  }
}
