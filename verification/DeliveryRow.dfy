/** One row of the email delivery queue and the conditional updates made to it.
    Every update is one statement or one transaction, so it is a function of the row. */
module DeliveryRow {
  import opened Common

  /** Nanoseconds. */
  type Time = int

  const MINUTE: Time := 60_000_000_000
  const STALE_AFTER: Time := 10 * MINUTE
  const DEFAULT_MAX_ATTEMPTS := 3
  const LOG_LIMIT := 40

  datatype Status = Pending | Retry | Delivering | Succeeded | Failed

  datatype LogEntry = LogEntry(at: Time, stage: string, detail: string)

  datatype Row = Row(
    status: Status, stage: string,
    attempts: int, maxAttempts: int,
    nextAttemptAt: Option<Time>, lastAttemptAt: Option<Time>, succeededAt: Option<Time>,
    lockedAt: Option<Time>, lockedBy: string,
    error: string, log: seq<LogEntry>,
    messageJSON: string, settingsJSON: string)

  function Enqueue(maxAttempts: int, message: string, settings: string, now: Time): Row {
    Row(Pending, "queued", 0, if maxAttempts <= 0 then DEFAULT_MAX_ATTEMPTS else maxAttempts,
        Some(now), None, None, None, "", "", [LogEntry(now, "queued", "delivery queued")], message, settings)
  }

  /** The last `n` elements. */
  function LastN<T>(s: seq<T>, n: nat): seq<T> {
    if |s| > n then s[|s| - n..] else s
  }

  function AppendLog(log: seq<LogEntry>, e: LogEntry): seq<LogEntry> {
    LastN(log + [e], LOG_LIMIT)
  }

  predicate Due(r: Row, now: Time) {
    r.status in {Pending, Retry} && (r.nextAttemptAt.None? || r.nextAttemptAt.value <= now)
  }

  predicate Stale(r: Row, now: Time) {
    r.status == Delivering && r.lockedAt.Some? && r.lockedAt.value < now - STALE_AFTER
  }

  predicate Claimable(r: Row, now: Time) { Due(r, now) || Stale(r, now) }

  function ClaimRow(r: Row, worker: string, now: Time): Row {
    r.(status := Delivering, stage := "preparing", lockedAt := Some(now), lockedBy := worker)
  }

  /** The guard on every later write of a claim: a NULL time matches nothing. */
  predicate Fenced(r: Row, worker: string, lockedAt: Option<Time>) {
    lockedAt.Some? && r.lockedBy == worker && r.lockedAt == lockedAt && r.status == Delivering
  }

  function StartEntry(now: Time): LogEntry { LogEntry(now, "preparing", "delivery attempt started") }

  /** `d` is the copy of the row read after the claim. */
  function StartAttempt(r: Row, d: Row, now: Time): Row {
    r.(attempts := d.attempts + 1, lastAttemptAt := Some(now), error := "", stage := "preparing",
       log := AppendLog(d.log, StartEntry(now)))
  }

  function WriteStage(r: Row, snapshot: seq<LogEntry>, e: LogEntry): Row {
    r.(stage := e.stage, log := AppendLog(snapshot, e))
  }

  function SuccessEntry(now: Time): LogEntry { LogEntry(now, "succeeded", "message accepted by configured SMTP path") }

  function FinishSuccess(r: Row, now: Time): Row {
    r.(status := Succeeded, stage := "succeeded", lockedAt := None, lockedBy := "", succeededAt := Some(now),
       error := "", log := AppendLog(r.log, SuccessEntry(now)), messageJSON := "{}", settingsJSON := "{}")
  }

  const RETRY_DELAYS: seq<Time> := [MINUTE, 5 * MINUTE, 15 * MINUTE, 60 * MINUTE]

  function BaseDelay(attempt: int): Time {
    var a := if attempt <= 0 then 1 else attempt;
    RETRY_DELAYS[if a - 1 >= |RETRY_DELAYS| then |RETRY_DELAYS| - 1 else a - 1]
  }

  /** Any delay that `nextRetryDelay` can draw. */
  predicate RetryDelay(attempt: int, delay: Time) {
    BaseDelay(attempt) <= delay <= BaseDelay(attempt) + BaseDelay(attempt) / 5
  }

  function FinalAttempt(d: Row): int { if d.attempts <= 0 then d.attempts + 1 else d.attempts }

  predicate IsFinal(d: Row, retryable: bool) { !retryable || FinalAttempt(d) >= d.maxAttempts }

  function FailureEntry(d: Row, now: Time, message: string, retryable: bool): LogEntry {
    LogEntry(now, if IsFinal(d, retryable) then "failed" else "retry_scheduled", message)
  }

  function FinishFailure(r: Row, d: Row, now: Time, message: string, retryable: bool, delay: Time): Row {
    var e := FailureEntry(d, now, message, retryable);
    var finished := r.(stage := e.stage, attempts := FinalAttempt(d), lockedAt := None, lockedBy := "",
                       lastAttemptAt := Some(now), error := message, log := AppendLog(r.log, e));
    if IsFinal(d, retryable)
    then finished.(status := Failed, nextAttemptAt := None, messageJSON := "{}", settingsJSON := "{}")
    else finished.(status := Retry, nextAttemptAt := Some(now + delay))
  }

  /** Keeping forty at every step keeps the same forty as keeping them at the end. */
  lemma LastOfLast(s: seq<LogEntry>, e: LogEntry)
    ensures AppendLog(LastN(s, LOG_LIMIT), e) == LastN(s + [e], LOG_LIMIT)
  {}
}
