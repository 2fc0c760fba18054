/** When a delivery may be claimed, how long it waits, and what its row then says, in every run. */
module DeliverySchedule {
  import opened Common
  import opened DeliveryRow
  import opened DeliveryProtocol
  import opened DeliveryInvariant
  import opened DeliverySafety

  /** A worker that is ready to claim: its clock shows `now`, and it has read back what it claimed. */
  predicate ReadyToClaim(w: World, sid: SessionId, worker: string, now: Time) {
    && sid !in w.sessions && worker in w.clocks && w.clocks[worker] <= now
    && forall s <- w.sessions :: w.sessions[s].worker == worker ==> !w.sessions[s].pc.Claimed?
  }

  /** A lease is taken over after more than ten minutes, and not before. */
  lemma LeaseIsClaimableIff(ws: seq<World>, acts: seq<Action>, n: nat, sid: SessionId, worker: string, now: Time)
    requires Run(ws, acts) && n < |ws| && ws[n].row.status == Delivering
    ensures Enabled(ws[n], Claim(sid, worker, now)) <==>
            ReadyToClaim(ws[n], sid, worker, now) && now - Last(ws[n]).at > 600_000_000_000
  {
    RunInv(ws, acts, n);
    hide Run;
  }

  /** A delivery that waits is claimable from its next attempt time on, and it always has one. */
  lemma WaitingIsClaimableIff(ws: seq<World>, acts: seq<Action>, n: nat, sid: SessionId, worker: string, now: Time)
    requires Run(ws, acts) && n < |ws| && ws[n].row.status in {Pending, Retry}
    ensures ws[n].row.nextAttemptAt.Some?
    ensures Enabled(ws[n], Claim(sid, worker, now)) <==>
            ReadyToClaim(ws[n], sid, worker, now) && ws[n].row.nextAttemptAt.value <= now
  {
    RunInv(ws, acts, n);
    if ws[n].row.status == Pending { PendingIsUntouched(ws, acts, n); }
    hide Run;
  }

  /** A delivery that has not ended is claimable again from a certain time on: ten minutes and a nanosecond
      after its latest claim, or when its next attempt is due. */
  lemma NeverStranded(ws: seq<World>, acts: seq<Action>, n: nat) returns (ready: Time)
    requires Run(ws, acts) && n < |ws| && !Terminal(ws[n].row)
    ensures forall now :: Claimable(ws[n].row, now) <==> now >= ready
    ensures if ws[n].row.status == Delivering then ready == Last(ws[n]).at + 600_000_000_001
            else ws[n].row.nextAttemptAt == Some(ready)
  {
    var r := ws[n].row;
    RunInv(ws, acts, n);
    if r.status == Pending { PendingIsUntouched(ws, acts, n); }
    ready := if r.status == Delivering then Last(ws[n]).at + 600_000_000_001 else r.nextAttemptAt.value;
    hide Run;
  }

  /** A delivery that has ended is never claimed. */
  lemma EndedIsNeverClaimed(ws: seq<World>, acts: seq<Action>, n: nat, sid: SessionId, worker: string, now: Time)
    requires Run(ws, acts) && n < |ws| && Terminal(ws[n].row)
    ensures !Enabled(ws[n], Claim(sid, worker, now))
  {}

  lemma {:induction false} PendingIsUntouched(ws: seq<World>, acts: seq<Action>, n: nat)
    requires Run(ws, acts) && n < |ws| && ws[n].row.status == Pending
    ensures ws[n].row == ws[0].row
  {
    hide Inv;
    hide Apply;
    hide Enabled;
    hide Initial;
    if n > 0 {
      assert Enabled(ws[n - 1], acts[n - 1]) && ws[n] == Apply(ws[n - 1], acts[n - 1]);
      RunInv(ws, acts, n - 1);
      PendingStays(ws[n - 1], acts[n - 1]);
      PendingIsUntouched(ws, acts, n - 1);
    }
  }

  lemma PendingStays(w: World, a: Action)
    requires Enabled(w, a) && Inv(w) && Apply(w, a).row.status == Pending
    ensures Apply(w, a).row == w.row
  {
    hide AppendLog;
    hide Counted;
    hide Sequenced;
    hide Spaced;
    hide Timed;
    hide Informed;
  }

  /** A delivery enqueued at `at` is due at once, and its limit is the one asked for, or three. */
  lemma {:induction false} BudgetIsAsEnqueued(ws: seq<World>, acts: seq<Action>, n: nat, limit: int,
                                              message: string, settings: string, at: Time)
    requires Run(ws, acts) && n < |ws| && ws[0].row == Enqueue(limit, message, settings, at)
    ensures ws[n].row.maxAttempts == if limit <= 0 then 3 else limit
    ensures ws[n].row.status == Pending ==>
              && ws[n].row.attempts == 0 && ws[n].row.nextAttemptAt == Some(at)
              && ws[n].row.messageJSON == message && ws[n].row.settingsJSON == settings
              && ws[n].row.log == [LogEntry(at, "queued", "delivery queued")] && ws[n].row.stage == "queued"
  {
    if n > 0 {
      BudgetIsAsEnqueued(ws, acts, n - 1, limit, message, settings, at);
      assert Enabled(ws[n - 1], acts[n - 1]);
      LimitStays(ws[n - 1], acts[n - 1]);
    }
    if ws[n].row.status == Pending { PendingIsUntouched(ws, acts, n); }
    hide Apply;
    hide Enabled;
  }

  // ---- Waiting for another attempt -------------------------------------------------------------------

  /** After the first attempt a minute, then five, a quarter of an hour, and an hour from the fourth on,
      and up to a fifth more. */
  predicate Waits(attempt: int, delay: Time) {
    if attempt <= 1 then 60_000_000_000 <= delay <= 72_000_000_000
    else if attempt == 2 then 300_000_000_000 <= delay <= 360_000_000_000
    else if attempt == 3 then 900_000_000_000 <= delay <= 1_080_000_000_000
    else 3_600_000_000_000 <= delay <= 4_320_000_000_000
  }

  lemma WaitsAsScheduled(attempt: int, delay: Time)
    ensures RetryDelay(attempt, delay) <==> Waits(attempt, delay)
  {}

  /** A failed attempt is made again if and only if its error allows it and the limit leaves another;
      it then waits, from the time the attempt started, as long as its number says. */
  lemma FailureIsRetriedIff(ws: seq<World>, acts: seq<Action>, n: nat)
    requires Run(ws, acts) && n < |acts| && acts[n].Fail? && HoldsLease(ws[n], acts[n].sid)
    ensures var before, a, after := ws[n].row, acts[n], ws[n + 1].row;
            var started := PcOf(ws[n], a.sid).now;
            && after.status == (if a.retryable && before.attempts < before.maxAttempts then Retry else Failed)
            && after.attempts == before.attempts && after.error == a.message
            && after.lockedAt.None? && after.lockedBy == "" && after.lastAttemptAt == Some(started)
            && (after.status == Retry ==>
                  after.nextAttemptAt == Some(started + a.delay) && Waits(after.attempts, a.delay)
                  && after.stage == "retry_scheduled"
                  && ws[n + 1].entries == ws[n].entries + [LogEntry(started, "retry_scheduled", a.message)])
            && (after.status == Failed ==>
                  after.nextAttemptAt.None? && after.stage == "failed"
                  && ws[n + 1].entries == ws[n].entries + [LogEntry(started, "failed", a.message)])
  {
    RunInv(ws, acts, n);
    var w, a := ws[n], acts[n];
    assert Enabled(w, a) && ws[n + 1] == Apply(w, a);
    AttemptIsCounted(w, a.sid);
    WaitsAsScheduled(FinalAttempt(PcOf(w, a.sid).d), a.delay);
    hide Run;
    hide Inv;
    hide AppendLog;
    hide RetryDelay;
    hide Waits;
  }

  /** What a sending lease holder knows of its own attempt. */
  lemma AttemptIsCounted(w: World, sid: SessionId)
    requires Inv(w) && HoldsLease(w, sid) && PcOf(w, sid).Sending?
    ensures var d := PcOf(w, sid).d;
            d.attempts == w.row.attempts >= 1 && d.maxAttempts == w.row.maxAttempts && FinalAttempt(d) == d.attempts
  {
    assert Agrees(w, sid) && sid in w.started;
    SubsetIsSmaller({sid}, w.started);
    hide Leased;
    hide Timed;
    hide Spaced;
    hide Owned;
    hide Recorded;
  }
}
