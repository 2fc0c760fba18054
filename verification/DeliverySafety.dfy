/** What every run of the lease protocol guarantees, whoever crashes or loses a lease. */
module DeliverySafety {
  import opened Common
  import opened DeliveryRow
  import opened DeliveryProtocol
  import opened DeliveryInvariant

  predicate Terminal(r: Row) { r.status in {Succeeded, Failed} }

  lemma {:induction false} RunInv(ws: seq<World>, acts: seq<Action>, n: nat)
    requires Run(ws, acts) && n < |ws|
    ensures Inv(ws[n])
  {
    if n == 0 {
      InitialInv(ws[0]);
    } else {
      RunInv(ws, acts, n - 1);
      assert Enabled(ws[n - 1], acts[n - 1]);
      StepKeepsInv(ws[n - 1], acts[n - 1]);
    }
  }

  lemma FencingTokensIncrease(ws: seq<World>, acts: seq<Action>, n: nat, i: nat, j: nat)
    requires Run(ws, acts) && n < |ws| && i < j < |ws[n].claims|
    ensures ws[n].claims[i].at + 60_000_000_000 <= ws[n].claims[j].at
  {
    RunInv(ws, acts, n);
  }

  lemma LockedIffDelivering(ws: seq<World>, acts: seq<Action>, n: nat)
    requires Run(ws, acts) && n < |ws|
    ensures ws[n].row.lockedAt.Some? <==> ws[n].row.status == Delivering
    ensures ws[n].row.status == Delivering ==>
              |ws[n].claims| > 0 && ws[n].row.lockedAt == Some(Last(ws[n]).at)
                && ws[n].row.lockedBy == Last(ws[n]).worker
  {
    RunInv(ws, acts, n);
  }

  /** Only the latest claim writes; an earlier one, by the same worker or another, changes nothing. */
  lemma SupersededClaimsWriteNothing(ws: seq<World>, acts: seq<Action>, n: nat)
    requires Run(ws, acts) && n < |acts| && !acts[n].Claim?
    ensures ws[n + 1].row != ws[n].row ==> ws[n].row.status == Delivering && Last(ws[n]).session == acts[n].sid
    ensures forall i :: 0 <= i < |ws[n].claims| - 1 && ws[n].claims[i].session == acts[n].sid ==>
              ws[n + 1].row == ws[n].row && ws[n + 1].entries == ws[n].entries && ws[n + 1].commits == ws[n].commits
  {
    RunInv(ws, acts, n);
    WriterIsLatest(ws[n], acts[n]);
  }

  lemma WriterIsLatest(w: World, a: Action)
    requires Enabled(w, a) && Inv(w) && !a.Claim?
    ensures var v := Apply(w, a);
            v.row != w.row || v.entries != w.entries || v.commits != w.commits ==>
              w.row.status == Delivering && Last(w).session == a.sid
  {}

  /** Every send spends an attempt of its own, and only stolen leases go past the limit. */
  lemma AttemptsAreBounded(ws: seq<World>, acts: seq<Action>, n: nat)
    requires Run(ws, acts) && n < |ws|
    ensures var w := ws[n];
            && w.sends <= w.row.attempts <= w.row.maxAttempts + w.reclaims
            && |w.claims| <= w.row.maxAttempts + w.reclaims
            && (w.row.status == Retry ==> w.row.attempts < w.row.maxAttempts)
  {
    RunInv(ws, acts, n);
    SubsetIsSmaller(ws[n].sent, ws[n].started);
  }

  /** Without stolen leases, the last claim the limit allows is the end of the delivery. */
  lemma EndsWithinMaxAttempts(ws: seq<World>, acts: seq<Action>, n: nat)
    requires Run(ws, acts) && n < |ws| && ws[n].reclaims == 0
    ensures |ws[n].claims| <= ws[n].row.maxAttempts
    ensures |ws[n].claims| == ws[n].row.maxAttempts && ws[n].row.status != Delivering ==> Terminal(ws[n].row)
  {
    RunInv(ws, acts, n);
  }

  /** A session in `started` got there by one fenced start. */
  lemma {:induction false} StartedByFencedStart(ws: seq<World>, acts: seq<Action>, n: nat, sid: SessionId)
    returns (i: nat)
    requires Run(ws, acts) && n < |ws| && sid in ws[n].started
    ensures i < n && acts[i].Start? && acts[i].sid == sid && HoldsLease(ws[i], sid) && sid !in ws[i].started
    ensures ws[i + 1].row.attempts == ws[i].row.attempts + 1
  {
    assert n > 0;
    var a := acts[n - 1];
    OneSessionMoves(ws[n - 1], a);
    if sid in ws[n - 1].started {
      i := StartedByFencedStart(ws, acts, n - 1, sid);
    } else {
      i := n - 1;
      RunInv(ws, acts, i);
      assert Agrees(ws[i], sid);
    }
  }

  /** Each send comes after its own fenced increment, and no session sends twice. */
  lemma SendFollowsFencedStart(ws: seq<World>, acts: seq<Action>, n: nat) returns (i: nat)
    requires Run(ws, acts) && n < |acts| && acts[n].Send?
    ensures i < n && acts[i].Start? && acts[i].sid == acts[n].sid && HoldsLease(ws[i], acts[n].sid)
    ensures ws[i + 1].row.attempts == ws[i].row.attempts + 1
    ensures acts[n].sid !in ws[n].sent && acts[n].sid in ws[n + 1].sent
  {
    RunInv(ws, acts, n);
    i := StartedByFencedStart(ws, acts, n, acts[n].sid);
  }

  /** The stored log is the last forty entries ever written, whatever ran in between. */
  lemma NoStageEntryIsLost(ws: seq<World>, acts: seq<Action>, n: nat)
    requires Run(ws, acts) && n < |ws|
    ensures var all := ws[n].entries; ws[n].row.log == if |all| > 40 then all[|all| - 40..] else all
    ensures n < |acts| ==> ws[n].entries <= ws[n + 1].entries
  {
    RunInv(ws, acts, n);
    if n < |acts| { assert Enabled(ws[n], acts[n]); EntriesGrow(ws[n], acts[n]); }
  }

  lemma EntriesGrow(w: World, a: Action)
    requires Enabled(w, a)
    ensures w.entries <= Apply(w, a).entries
    ensures HoldsLease(w, a.sid)
            && (a.Start? || a.RejectPayload? || a.Record? || a.Fail? || (a.Succeed? && a.committed)) ==>
              |Apply(w, a).entries| == |w.entries| + 1
  {}

  lemma CommitsExactlyOnce(ws: seq<World>, acts: seq<Action>, n: nat)
    requires Run(ws, acts) && n < |ws|
    ensures ws[n].commits == if ws[n].row.status == Succeeded then 1 else 0
  {
    RunInv(ws, acts, n);
  }

  lemma {:induction false} TerminalIsAbsorbing(ws: seq<World>, acts: seq<Action>, m: nat, n: nat)
    requires Run(ws, acts) && m <= n < |ws| && Terminal(ws[m].row)
    ensures ws[n].row == ws[m].row && ws[n].commits == ws[m].commits && ws[n].claims == ws[m].claims
  {
    if m < n {
      TerminalIsAbsorbing(ws, acts, m, n - 1);
      var a := acts[n - 1];
      assert Enabled(ws[n - 1], a) && !HoldsLease(ws[n - 1], a.sid);
    }
  }

  /** A lease counts as stolen exactly when a claim takes over a row that is being delivered. */
  lemma ReclaimsAreTakeovers(ws: seq<World>, acts: seq<Action>, n: nat)
    requires Run(ws, acts) && n < |acts|
    ensures ws[n + 1].reclaims ==
            ws[n].reclaims + if acts[n].Claim? && ws[n].row.status == Delivering then 1 else 0
    ensures ws[n + 1].claims ==
            ws[n].claims + if acts[n].Claim? then [ClaimRecord(acts[n].now, acts[n].worker, acts[n].sid)] else []
  {
    hide Enabled;
    hide HoldsLease;
    hide FinishFailure;
    hide FinishSuccess;
    hide StartAttempt;
    hide WriteStage;
    assert Enabled(ws[n], acts[n]) && ws[n + 1] == Apply(ws[n], acts[n]);
  }

  /** The message and its settings as enqueued, or erased. */
  predicate Carries(r: Row, message: string, settings: string) {
    r.messageJSON == message && r.settingsJSON == settings
  }

  /** The payload stays as it was enqueued for as long as it can still be sent, and is erased
      when the delivery ends. */
  lemma {:induction false} PayloadLastsUntilTheEnd(ws: seq<World>, acts: seq<Action>, n: nat)
    requires Run(ws, acts) && n < |ws|
    ensures var r := ws[n].row;
            if Terminal(r) then Carries(r, "{}", "{}") else Carries(r, ws[0].row.messageJSON, ws[0].row.settingsJSON)
  {
    if n > 0 {
      PayloadLastsUntilTheEnd(ws, acts, n - 1);
      assert Enabled(ws[n - 1], acts[n - 1]);
      StepKeepsPayload(ws[n - 1], acts[n - 1], ws[0].row.messageJSON, ws[0].row.settingsJSON);
    }
    hide Apply;
  }

  lemma StepKeepsPayload(w: World, a: Action, message: string, settings: string)
    requires Enabled(w, a)
    requires if Terminal(w.row) then Carries(w.row, "{}", "{}") else Carries(w.row, message, settings)
    ensures var r := Apply(w, a).row;
            if Terminal(r) then Carries(r, "{}", "{}") else Carries(r, message, settings)
  {
    hide AppendLog;
  }
}
