/** The lease protocol on one delivery row: any number of workers, each with its own
    clock, and any interleaving of their statements, crashes and stolen leases. */
module DeliveryProtocol {
  import opened DeliveryRow

  type SessionId = nat

  /** Where one claim stands. `d` is the copy of the row that the claim read back. */
  datatype Pc =
    | Claimed
    | Holding(d: Row)
    | Started(d: Row, now: Time)
    | Sending(d: Row, now: Time)
    | Logging(d: Row, now: Time, snapshot: seq<LogEntry>)
    | Done

  /** A claim in progress; a worker whose old claim hangs can have several. */
  datatype Session = Session(worker: string, pc: Pc)

  datatype ClaimRecord = ClaimRecord(at: Time, worker: string, session: SessionId)

  datatype World = World(
    row: Row,
    clocks: map<string, Time>,
    sessions: map<SessionId, Session>,
    // What has happened so far:
    claims: seq<ClaimRecord>,
    reclaims: nat,
    started: set<SessionId>,
    sent: set<SessionId>,
    sends: nat,
    entries: seq<LogEntry>,
    commits: nat)

  datatype Action =
    | Claim(sid: SessionId, worker: string, now: Time)
    | ReadBack(sid: SessionId)
    | Start(sid: SessionId, now: Time)
    | RejectPayload(sid: SessionId, now: Time, message: string)
    | Send(sid: SessionId)
    | ReadLog(sid: SessionId)
    | Record(sid: SessionId, entry: LogEntry)
    | DropStage(sid: SessionId)
    | Succeed(sid: SessionId, committed: bool)
    | Fail(sid: SessionId, message: string, retryable: bool, delay: Time)
    | Crash(sid: SessionId)

  predicate Ticks(w: World, worker: string, now: Time) {
    worker in w.clocks && w.clocks[worker] <= now
  }

  function PcOf(w: World, sid: SessionId): Pc {
    if sid in w.sessions then w.sessions[sid].pc else Done
  }

  /** Clocks of one worker do not go back. A worker reads its claim back before it claims again. */
  predicate Enabled(w: World, a: Action) {
    match a
    case Claim(sid, worker, now) =>
      && sid !in w.sessions && Ticks(w, worker, now) && Claimable(w.row, now)
      && forall s <- w.sessions :: w.sessions[s].worker == worker ==> !w.sessions[s].pc.Claimed?
    case ReadBack(sid) => PcOf(w, sid).Claimed?
    case Start(sid, now) => PcOf(w, sid).Holding? && Ticks(w, w.sessions[sid].worker, now)
    case RejectPayload(sid, now, _) => PcOf(w, sid).Holding? && Ticks(w, w.sessions[sid].worker, now)
    case Send(sid) => PcOf(w, sid).Started?
    case ReadLog(sid) => PcOf(w, sid).Sending?
    case Record(sid, e) => PcOf(w, sid).Logging? && Ticks(w, w.sessions[sid].worker, e.at)
    case DropStage(sid) => PcOf(w, sid).Logging?
    case Succeed(sid, _) => PcOf(w, sid).Sending?
    case Fail(sid, _, _, delay) => PcOf(w, sid).Sending? && RetryDelay(FinalAttempt(PcOf(w, sid).d), delay)
    case Crash(sid) => sid in w.sessions
  }

  function MoveTo(w: World, sid: SessionId, pc: Pc): World
    requires sid in w.sessions
  {
    w.(sessions := w.sessions[sid := w.sessions[sid].(pc := pc)])
  }

  /** Whether the guard of session `sid` matches the row. */
  predicate HoldsLease(w: World, sid: SessionId) {
    sid in w.sessions && !w.sessions[sid].pc.Claimed? && !w.sessions[sid].pc.Done?
    && Fenced(w.row, w.sessions[sid].worker, w.sessions[sid].pc.d.lockedAt)
  }

  function Apply(w: World, a: Action): World
    requires Enabled(w, a)
  {
    match a
    case Claim(sid, worker, now) =>
      w.(row := ClaimRow(w.row, worker, now),
         clocks := w.clocks[worker := now],
         sessions := w.sessions[sid := Session(worker, Claimed)],
         claims := w.claims + [ClaimRecord(now, worker, sid)],
         reclaims := w.reclaims + if w.row.status == Delivering then 1 else 0)
    case ReadBack(sid) => MoveTo(w, sid, Holding(w.row))
    case Start(sid, now) =>
      var d := PcOf(w, sid).d;
      var v := w.(clocks := w.clocks[w.sessions[sid].worker := now]);
      if HoldsLease(w, sid) then
        MoveTo(v.(row := StartAttempt(w.row, d, now),
                  started := w.started + {sid},
                  entries := w.entries + [StartEntry(now)]),
               sid, Started(d.(attempts := d.attempts + 1, log := AppendLog(d.log, StartEntry(now))), now))
      else MoveTo(v, sid, Done)
    case RejectPayload(sid, now, message) =>
      var d := PcOf(w, sid).d;
      var v := w.(clocks := w.clocks[w.sessions[sid].worker := now]);
      if HoldsLease(w, sid) then
        MoveTo(v.(row := FinishFailure(w.row, d, now, message, false, 0),
                  entries := w.entries + [FailureEntry(d, now, message, false)]), sid, Done)
      else MoveTo(v, sid, Done)
    case Send(sid) =>
      var pc := PcOf(w, sid);
      MoveTo(w.(sent := w.sent + {sid}, sends := w.sends + 1), sid, Sending(pc.d, pc.now))
    case ReadLog(sid) =>
      var pc := PcOf(w, sid);
      if HoldsLease(w, sid) then MoveTo(w, sid, Logging(pc.d, pc.now, w.row.log)) else w
    case Record(sid, e) =>
      var pc := PcOf(w, sid);
      var v := w.(clocks := w.clocks[w.sessions[sid].worker := e.at]);
      if HoldsLease(w, sid) then
        MoveTo(v.(row := WriteStage(w.row, pc.snapshot, e), entries := w.entries + [e]), sid, Sending(pc.d, pc.now))
      else MoveTo(v, sid, Sending(pc.d, pc.now))
    case DropStage(sid) =>
      // The write failed; its error is ignored and the sending goes on.
      var pc := PcOf(w, sid);
      MoveTo(w, sid, Sending(pc.d, pc.now))
    case Succeed(sid, committed) =>
      var pc := PcOf(w, sid);
      if HoldsLease(w, sid) && committed then
        MoveTo(w.(row := FinishSuccess(w.row, pc.now),
                  entries := w.entries + [SuccessEntry(pc.now)],
                  commits := w.commits + 1),
               sid, Done)
      else MoveTo(w, sid, Done)
    case Fail(sid, message, retryable, delay) =>
      var pc := PcOf(w, sid);
      if HoldsLease(w, sid) then
        MoveTo(w.(row := FinishFailure(w.row, pc.d, pc.now, message, retryable, delay),
                  entries := w.entries + [FailureEntry(pc.d, pc.now, message, retryable)]), sid, Done)
      else MoveTo(w, sid, Done)
    case Crash(sid) => MoveTo(w, sid, Done)
  }

  /** A row just enqueued, and workers that have done nothing. */
  ghost predicate Initial(w: World) {
    && (exists max, message, settings, now :: w.row == Enqueue(max, message, settings, now))
    && w.sessions == map[] && w.claims == [] && w.reclaims == 0
    && w.started == {} && w.sent == {} && w.sends == 0 && w.entries == w.row.log && w.commits == 0
  }

  ghost predicate Run(ws: seq<World>, acts: seq<Action>) {
    && |ws| == |acts| + 1 && Initial(ws[0])
    && forall i {:trigger acts[i]} :: 0 <= i < |acts| ==> Enabled(ws[i], acts[i]) && ws[i + 1] == Apply(ws[i], acts[i])
  }
}
