/** What every reachable state of the lease protocol satisfies. */
module DeliveryInvariant {
  import opened Common
  import opened DeliveryRow
  import opened DeliveryProtocol

  const NO_CLAIM := ClaimRecord(0, "", 0)

  function Last(w: World): ClaimRecord {
    if w.claims == [] then NO_CLAIM else w.claims[|w.claims| - 1]
  }

  /** The row is leased to its latest claim, and to nobody else. */
  ghost predicate Leased(w: World) {
    && (w.row.lockedAt.Some? <==> w.row.status == Delivering)
    && (w.row.status == Delivering ==>
          |w.claims| > 0 && w.row.lockedAt == Some(Last(w).at) && w.row.lockedBy == Last(w).worker)
    && (w.row.status == Pending <==> w.claims == [])
    && (w.row.status == Retry ==> w.row.nextAttemptAt.Some? && w.row.nextAttemptAt.value >= Last(w).at + MINUTE)
  }

  /** Claims are made by running sessions, at times their workers' clocks have reached. */
  ghost predicate Timed(w: World) {
    forall i :: 0 <= i < |w.claims| ==>
      var c := w.claims[i]; c.worker in w.clocks && c.at <= w.clocks[c.worker] && c.session in w.sessions
  }

  /** Claim times are fencing tokens: each is at least a minute past the one before. */
  ghost predicate Spaced(w: World) {
    forall i, j :: 0 <= i < j < |w.claims| ==>
      w.claims[i].at + MINUTE <= w.claims[j].at && w.claims[i].session != w.claims[j].session
  }

  predicate HasCopy(pc: Pc) { !pc.Claimed? && !pc.Done? }

  /** A claim that has not read back yet, or whose guard matches, is the latest one. */
  ghost predicate Owned(w: World) {
    && (forall s <- w.sessions :: Unread(w, s) ==> Last(w).session == s)
    && (forall s <- w.sessions, t <- w.sessions :: BothUnread(w.sessions[s], w.sessions[t]) ==> s == t)
    && (forall s <- w.sessions :: HasCopy(w.sessions[s].pc) && w.sessions[s].pc.d.lockedAt.Some? ==>
          |w.claims| > 0 && w.sessions[s].pc.d.lockedAt.value <= Last(w).at)
    && (forall s :: HoldsLease(w, s) ==> Last(w).session == s)
  }

  predicate Unread(w: World, s: SessionId)
    requires s in w.sessions
  {
    w.sessions[s].pc.Claimed? && w.row.status == Delivering && w.row.lockedBy == w.sessions[s].worker
  }

  predicate BothUnread(s: Session, t: Session) {
    s.pc.Claimed? && t.pc.Claimed? && s.worker == t.worker
  }

  /** Attempt counting: every start is counted once, and only a stolen lease takes the
      count past the limit. */
  ghost predicate Counted(w: World) {
    var unstarted := if w.row.status == Delivering && Last(w).session !in w.started then 1 else 0;
    var taken := |w.claims| - w.reclaims;
    && w.row.maxAttempts >= 1 && 0 <= |w.started| <= w.row.attempts
    && 0 <= taken <= w.row.maxAttempts
    && w.row.attempts + unstarted <= w.row.maxAttempts + w.reclaims
    && (w.row.status in {Pending, Retry} ==> w.row.attempts < w.row.maxAttempts && taken <= w.row.attempts)
    && (w.row.status == Delivering ==> taken <= w.row.attempts + unstarted)
  }

  /** What a lease holder knows is what the row says. */
  ghost predicate Agrees(w: World, s: SessionId)
    requires s in w.sessions && HasCopy(w.sessions[s].pc)
  {
    var pc := w.sessions[s].pc;
    && pc.d.attempts == w.row.attempts
    && (pc.Holding? ==> pc.d.log == w.row.log)
    && (pc.Logging? ==> pc.snapshot == w.row.log)
    && (!pc.Holding? ==> pc.now >= Last(w).at)
  }

  ghost predicate Informed(w: World) {
    && (forall s <- w.sessions :: HasCopy(w.sessions[s].pc) ==> w.sessions[s].pc.d.maxAttempts == w.row.maxAttempts)
    && (forall s :: HoldsLease(w, s) ==> Agrees(w, s))
  }

  /** Each session starts once before it sends once. */
  ghost predicate Sequenced(w: World) {
    && w.sends == |w.sent| && w.sent <= w.started && w.started <= w.sessions.Keys
    && forall s <- w.sessions :: Phase(w.sessions[s].pc, s in w.started, s in w.sent)
  }

  predicate Phase(pc: Pc, started: bool, sent: bool) {
    && (pc.Claimed? || pc.Holding? ==> !started)
    && (pc.Started? ==> started && !sent)
    && (pc.Sending? || pc.Logging? ==> started)
  }

  ghost predicate Recorded(w: World) {
    && w.row.log == LastN(w.entries, LOG_LIMIT)
    && w.commits == if w.row.status == Succeeded then 1 else 0
  }

  ghost predicate Inv(w: World) {
    Leased(w) && Timed(w) && Spaced(w) && Owned(w) && Counted(w) && Informed(w) && Sequenced(w) && Recorded(w)
  }

  lemma InitialInv(w: World)
    requires Initial(w)
    ensures Inv(w)
  {}

  lemma BaseDelayIsAMinute(attempt: int)
    ensures BaseDelay(attempt) >= MINUTE
  {}

  lemma KeepsLeased(w: World, a: Action)
    requires Enabled(w, a) && Leased(w) && Owned(w) && Informed(w)
    ensures Leased(Apply(w, a))
  {
    if a.Fail? { BaseDelayIsAMinute(FinalAttempt(PcOf(w, a.sid).d)); }
    if HoldsLease(w, a.sid) {
      assert Agrees(w, a.sid);
      assert a.Fail? ==> PcOf(w, a.sid).now >= Last(w).at;
    }
    hide AppendLog;
    hide Agrees;
    hide Informed;
    hide Owned;
  }

  lemma KeepsTimed(w: World, a: Action)
    requires Enabled(w, a) && Timed(w)
    ensures Timed(Apply(w, a))
  {
    hide AppendLog;
    hide FinishFailure;
    hide FinishSuccess;
    hide StartAttempt;
    hide WriteStage;
    hide Claimable;
    hide HoldsLease;
  }

  lemma KeepsSpaced(w: World, a: Action)
    requires Enabled(w, a) && Leased(w) && Timed(w) && Spaced(w)
    ensures Spaced(Apply(w, a))
  {}

  lemma KeepsOwned(w: World, a: Action)
    requires Enabled(w, a) && Leased(w) && Owned(w)
    ensures Owned(Apply(w, a))
  {
    hide AppendLog;
    if a.Claim? {
      ClaimTakesOwnership(w, a);
    } else if a.ReadBack? {
      ReadBackKeepsOwned(w, a);
    } else {
      LeaseIsNotGained(w, a);
      SessionsMoveOn(w, a);
      hide Apply;
      hide Enabled;
    }
  }

  /** What is read back matches the guard only if the claim has not been stolen since. */
  lemma ReadBackKeepsOwned(w: World, a: Action)
    requires a.ReadBack? && Enabled(w, a) && Leased(w) && Owned(w)
    ensures Owned(Apply(w, a))
  {
    var v := Apply(w, a);
    assert v.row == w.row && v.claims == w.claims;
    forall s | HoldsLease(v, s) ensures Last(v).session == s {
      if s == a.sid { assert Unread(w, s); } else { assert HoldsLease(w, s); }
    }
    forall s <- v.sessions | Unread(v, s) ensures Last(v).session == s { assert Unread(w, s); }
  }

  /** A new claim leaves every older guard behind. */
  lemma ClaimTakesOwnership(w: World, a: Action)
    requires a.Claim? && Enabled(w, a) && Leased(w) && Owned(w)
    ensures Owned(Apply(w, a))
  {}

  /** Apart from reading back, no step makes a guard match that did not match before. */
  lemma LeaseIsNotGained(w: World, a: Action)
    requires Enabled(w, a) && !a.Claim? && !a.ReadBack? && Leased(w)
    ensures var v := Apply(w, a);
            && v.claims == w.claims
            && (forall s :: HoldsLease(v, s) ==> HoldsLease(w, s))
            && (v.row != w.row ==> HoldsLease(w, a.sid))
            && (v.row.status == Delivering ==> w.row.status == Delivering && v.row.lockedBy == w.row.lockedBy)
  {
    hide AppendLog;
  }

  /** A session keeps the copy it read back. */
  lemma SessionsMoveOn(w: World, a: Action)
    requires Enabled(w, a) && !a.Claim? && !a.ReadBack?
    ensures var v := Apply(w, a);
            && v.sessions.Keys == w.sessions.Keys
            && forall s <- w.sessions :: CopyKept(w.sessions[s], v.sessions[s])
  {
    OneSessionMoves(w, a);
    MoverKeepsCopy(w, a);
    hide Apply;
    hide Enabled;
    assert forall s :: s in Apply(w, a).sessions.Keys <==> s in w.sessions.Keys;
  }

  lemma MoverKeepsCopy(w: World, a: Action)
    requires Enabled(w, a) && !a.Claim? && !a.ReadBack?
    ensures a.sid in w.sessions && CopyKept(w.sessions[a.sid], Apply(w, a).sessions[a.sid])
  {
    hide AppendLog;
    hide FinishFailure;
    hide FinishSuccess;
    hide StartAttempt;
    hide WriteStage;
    hide Fenced;
    hide Ticks;
    hide RetryDelay;
  }

  predicate CopyKept(before: Session, after: Session) {
    && after.worker == before.worker
    && (after.pc.Claimed? ==> before.pc.Claimed?)
    && (HasCopy(after.pc) ==>
          HasCopy(before.pc) && after.pc.d.lockedAt == before.pc.d.lockedAt
            && after.pc.d.maxAttempts == before.pc.d.maxAttempts)
  }

  lemma KeepsCounted(w: World, a: Action)
    requires Enabled(w, a) && Leased(w) && Owned(w) && Counted(w) && Informed(w) && Sequenced(w)
    ensures Counted(Apply(w, a))
  {
    if a.Claim? {
      ClaimKeepsCounted(w, a);
    } else if HoldsLease(w, a.sid) {
      assert Agrees(w, a.sid) && Last(w).session == a.sid;
      HolderKeepsCounted(w, a);
    } else {
      BystanderKeepsCounted(w, a);
    }
    hide Apply;
    hide Counted;
  }

  /** A lease holder counts its start once, and gives the row back below the limit or for good. */
  lemma HolderKeepsCounted(w: World, a: Action)
    requires Enabled(w, a) && !a.Claim? && Counted(w) && Informed(w) && Sequenced(w)
    requires HoldsLease(w, a.sid) && Agrees(w, a.sid) && Last(w).session == a.sid
    ensures Counted(Apply(w, a))
  {
    if a.Start? { StartKeepsCounted(w, a); } else { OthersKeepCounted(w, a); }
    hide Apply;
    hide Enabled;
  }

  lemma StartKeepsCounted(w: World, a: Action)
    requires a.Start? && Enabled(w, a) && Counted(w) && Sequenced(w)
    requires HoldsLease(w, a.sid) && Agrees(w, a.sid) && Last(w).session == a.sid
    ensures Counted(Apply(w, a))
  {
    hide AppendLog;
    hide Ticks;
    assert a.sid !in w.started && w.row.status == Delivering;
    hide HoldsLease;
  }

  lemma OthersKeepCounted(w: World, a: Action)
    requires !a.Start? && !a.Claim? && Enabled(w, a) && Counted(w) && Informed(w) && Sequenced(w)
    requires HoldsLease(w, a.sid) && Agrees(w, a.sid) && Last(w).session == a.sid
    ensures Counted(Apply(w, a))
  {
    hide AppendLog;
    hide Ticks;
    hide RetryDelay;
    var pc := w.sessions[a.sid].pc;
    assert w.row.status == Delivering && pc.d.maxAttempts == w.row.maxAttempts;
    assert pc.Sending? || pc.Logging? ==> a.sid in w.started;
    hide HoldsLease;
    hide Informed;
    hide Sequenced;
  }

  /** Nobody else counts anything. */
  lemma BystanderKeepsCounted(w: World, a: Action)
    requires Enabled(w, a) && !a.Claim? && Counted(w) && !HoldsLease(w, a.sid)
    ensures Counted(Apply(w, a))
  {
    hide AppendLog;
    hide FinishFailure;
    hide FinishSuccess;
    hide StartAttempt;
    hide WriteStage;
    hide Ticks;
    hide RetryDelay;
    var v := Apply(w, a);
    assert v.row == w.row && v.claims == w.claims && v.reclaims == w.reclaims && v.started == w.started;
    hide HoldsLease;
  }

  lemma ClaimKeepsCounted(w: World, a: Action)
    requires a.Claim? && Enabled(w, a) && Leased(w) && Counted(w) && Sequenced(w)
    ensures Counted(Apply(w, a))
  {}

  lemma KeepsInformed(w: World, a: Action)
    requires Enabled(w, a) && Leased(w) && Timed(w) && Owned(w) && Informed(w)
    ensures Informed(Apply(w, a))
  {
    hide Agrees;
    hide Fenced;
    hide Leased;
    hide Timed;
    hide Owned;
    CopiesKeepLimit(w, a);
    hide Apply;
    hide Enabled;
    var v := Apply(w, a);
    forall s | HoldsLease(v, s) ensures Agrees(v, s) { LeaseHolderAgrees(w, a, s); }
  }

  /** Every copy that was read back carries the row's limit, which never changes. */
  lemma CopiesKeepLimit(w: World, a: Action)
    requires Enabled(w, a)
    requires forall s <- w.sessions :: HasCopy(w.sessions[s].pc) ==> w.sessions[s].pc.d.maxAttempts == w.row.maxAttempts
    ensures var v := Apply(w, a);
            forall s <- v.sessions :: HasCopy(v.sessions[s].pc) ==> v.sessions[s].pc.d.maxAttempts == v.row.maxAttempts
  {
    LimitStays(w, a);
    if !a.Claim? && !a.ReadBack? {
      SessionsMoveOn(w, a);
      hide Apply;
    }
  }

  lemma LimitStays(w: World, a: Action)
    requires Enabled(w, a)
    ensures Apply(w, a).row.maxAttempts == w.row.maxAttempts
  {
    hide AppendLog;
    hide HoldsLease;
    hide Ticks;
    hide RetryDelay;
    hide Claimable;
  }

  lemma LeaseHolderAgrees(w: World, a: Action, s: SessionId)
    requires Enabled(w, a) && Leased(w) && Timed(w) && Owned(w) && Informed(w) && HoldsLease(Apply(w, a), s)
    ensures Agrees(Apply(w, a), s)
  {
    hide AppendLog;
    if a.Claim? {
      ClaimTakesOwnership(w, a);
    } else {
      if !a.ReadBack? { LeaseIsNotGained(w, a); }
      if s != a.sid { assert HoldsLease(w, s); }
      hide Leased;
    }
  }

  lemma KeepsSequenced(w: World, a: Action)
    requires Enabled(w, a) && Sequenced(w)
    ensures Sequenced(Apply(w, a))
  {
    hide Phase;
    hide Enabled;
    hide Apply;
    var v := Apply(w, a);
    OneSessionMoves(w, a);
    assert a.sid in w.sessions || a.sid !in w.started;
    PhaseAdvances(w, a);
    SendsAreCounted(w, a);
    forall s <- v.sessions ensures Phase(v.sessions[s].pc, s in v.started, s in v.sent) {}
  }

  lemma OneSessionMoves(w: World, a: Action)
    requires Enabled(w, a)
    ensures var v := Apply(w, a);
            && (forall s :: s in v.sessions <==> s in w.sessions || s == a.sid)
            && (forall s <- w.sessions :: s != a.sid ==> v.sessions[s] == w.sessions[s])
            && (v.started == w.started || v.started == w.started + {a.sid})
            && (v.sent == w.sent || v.sent == w.sent + {a.sid})
  {
    hide AppendLog;
    hide FinishFailure;
    hide FinishSuccess;
    hide StartAttempt;
    hide WriteStage;
    hide Claimable;
    hide Fenced;
    hide Ticks;
    hide RetryDelay;
  }

  lemma PhaseAdvances(w: World, a: Action)
    requires Enabled(w, a) && (a.sid in w.sent ==> a.sid in w.started)
    requires if a.sid in w.sessions then Phase(w.sessions[a.sid].pc, a.sid in w.started, a.sid in w.sent)
             else a.sid !in w.started
    ensures var v := Apply(w, a); Phase(v.sessions[a.sid].pc, a.sid in v.started, a.sid in v.sent)
  {
    hide AppendLog;
    hide FinishFailure;
    hide FinishSuccess;
    hide StartAttempt;
    hide WriteStage;
    hide Claimable;
    hide Fenced;
    hide Ticks;
    hide RetryDelay;
  }

  lemma SendsAreCounted(w: World, a: Action)
    requires Enabled(w, a) && w.sends == |w.sent| && w.sent <= w.started
    requires a.sid in w.sessions ==> Phase(w.sessions[a.sid].pc, a.sid in w.started, a.sid in w.sent)
    ensures var v := Apply(w, a); v.sends == |v.sent| && v.sent <= v.started
  {}

  lemma KeepsRecorded(w: World, a: Action)
    requires Enabled(w, a) && Leased(w) && Informed(w) && Recorded(w)
    ensures Recorded(Apply(w, a))
  {
    if HoldsLease(w, a.sid) { assert Agrees(w, a.sid); }
    forall e { LastOfLast(w.entries, e); }
    hide LastN;
  }

  lemma StepKeepsInv(w: World, a: Action)
    requires Enabled(w, a) && Inv(w)
    ensures Inv(Apply(w, a))
  {
    KeepsLeased(w, a);
    KeepsTimed(w, a);
    KeepsSpaced(w, a);
    KeepsOwned(w, a);
    KeepsCounted(w, a);
    KeepsInformed(w, a);
    KeepsSequenced(w, a);
    KeepsRecorded(w, a);
  }
}
