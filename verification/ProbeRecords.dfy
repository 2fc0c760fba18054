/** When the records that a check reports depend on the schedule of its pool. */
module ProbeRecords {
  import opened Common
  import opened Propagation
  import opened ProbePool

  // ---- Orders of completion ------------------------------------------------------------------------

  /** How many targets below `k` satisfy `f`. */
  function Rank(f: nat -> bool, k: nat): nat {
    if k == 0 then 0 else Rank(f, k - 1) + if f(k - 1) then 1 else 0
  }

  lemma {:induction false} RankGrows(f: nat -> bool, j: nat, k: nat)
    requires j <= k
    ensures Rank(f, j) <= Rank(f, k)
  {
    if j < k { RankGrows(f, j, k - 1); }
  }

  /** The targets being probed now, as a set. */
  ghost function Held(workers: seq<Worker>): set<nat> {
    if workers == [] then {} else Held(workers[1..]) + if workers[0].Busy? then {workers[0].target} else {}
  }

  lemma {:induction false} HeldIsSmall(workers: seq<Worker>)
    ensures |Held(workers)| <= InFlight(workers)
    ensures forall t: nat :: DoingAll(workers, t) > 0 ==> t in Held(workers)
  {
    if workers != [] { HeldIsSmall(workers[1..]); }
  }

  ghost function Chosen(f: nat -> bool, k: nat): set<nat> {
    if k == 0 then {} else Chosen(f, k - 1) + if f(k - 1) then {k - 1} else {}
  }

  lemma {:induction false} ChosenIsRank(f: nat -> bool, k: nat)
    ensures |Chosen(f, k)| == Rank(f, k) && forall t: nat :: t in Chosen(f, k) <==> t < k && f(t)
  {
    if k > 0 { ChosenIsRank(f, k - 1); }
  }

  /** Result `i` is the first of its kind to complete. */
  predicate FirstDone(results: seq<nat>, f: nat -> bool, i: nat) {
    i < |results| && f(results[i]) && forall j :: 0 <= j < i ==> !f(results[j])
  }

  /** The first of a kind to complete had a worker while every earlier one of its kind had another. */
  ghost predicate EarlyFirst(p: Pool, n: nat, maxConcurrent: nat, f: nat -> bool) {
    forall i: nat :: FirstDone(p.results, f, i) ==> Rank(f, p.results[i]) < Limit(n, maxConcurrent)
  }

  lemma FinishIsEarly(p: Pool, n: nat, maxConcurrent: nat, f: nat -> bool, w: nat)
    requires Inv(p, n, maxConcurrent) && Enabled(p, n, Finish(w)) && f(p.workers[w].target)
    requires forall t <- p.results :: !f(t)
    ensures Rank(f, p.workers[w].target) < Limit(n, maxConcurrent)
  {
    hide InFlight;
    hide DoingAll;
    hide Held;
    hide Chosen;
    var t := p.workers[w].target;
    BusyIsDoing(p.workers, w);
    ChosenIsRank(f, t + 1);
    HeldIsSmall(p.workers);
    LoadIsSmall(p.workers);
    assert t < p.next;
    forall u: nat | u in Chosen(f, t + 1) ensures u in Held(p.workers) {
      assert u !in p.results && multiset(p.results)[u] == 0;
    }
    SubsetIsSmaller(Chosen(f, t + 1), Held(p.workers));
  }

  lemma {:induction false} BusyIsDoing(workers: seq<Worker>, w: nat)
    requires w < |workers| && workers[w].Busy?
    ensures DoingAll(workers, workers[w].target) > 0
  {
    if w > 0 { BusyIsDoing(workers[1..], w - 1); }
  }

  lemma StepKeepsEarly(p: Pool, n: nat, maxConcurrent: nat, f: nat -> bool, a: Action)
    requires Inv(p, n, maxConcurrent) && Enabled(p, n, a) && EarlyFirst(p, n, maxConcurrent, f)
    ensures EarlyFirst(Next(p, n, a), n, maxConcurrent, f)
  {
    var q := Next(p, n, a);
    forall i: nat | FirstDone(q.results, f, i) ensures Rank(f, q.results[i]) < Limit(n, maxConcurrent) {
      if i < |p.results| {
        assert forall j :: 0 <= j <= i ==> q.results[j] == p.results[j];
        assert FirstDone(p.results, f, i);
      } else {
        assert forall j :: 0 <= j < |p.results| ==> p.results[j] == q.results[j];
        FinishIsEarly(p, n, maxConcurrent, f, a.worker);
      }
    }
  }

  lemma {:induction false} RunIsEarly(ps: seq<Pool>, acts: seq<Action>, n: nat, maxConcurrent: nat, f: nat -> bool,
                                      i: nat)
    requires Run(ps, acts, n, maxConcurrent) && i < |ps|
    ensures EarlyFirst(ps[i], n, maxConcurrent, f)
  {
    if i > 0 {
      RunIsEarly(ps, acts, n, maxConcurrent, f, i - 1);
      RunInv(ps, acts, n, maxConcurrent, i - 1);
      assert Enabled(ps[i - 1], n, acts[i - 1]);
      StepKeepsEarly(ps[i - 1], n, maxConcurrent, f, acts[i - 1]);
    }
  }

  /** Whatever the schedule, the first of a kind to complete is among the first `limit` of its kind. */
  lemma FirstIsEarly(n: nat, maxConcurrent: nat, p: Pool, f: nat -> bool, i: nat)
    requires Reachable(n, maxConcurrent, p) && FirstDone(p.results, f, i)
    ensures Rank(f, p.results[i]) < Limit(n, maxConcurrent)
  {
    var ps, acts :| Run(ps, acts, n, maxConcurrent) && ps[|acts|] == p;
    RunIsEarly(ps, acts, n, maxConcurrent, f, |acts|);
  }

  lemma {:induction false} SomeoneIsIdle(workers: seq<Worker>) returns (w: nat)
    requires InFlight(workers) < |workers| && forall i :: 0 <= i < |workers| ==> !workers[i].Gone?
    ensures w < |workers| && workers[w].Idle?
  {
    if workers[0].Idle? {
      w := 0;
    } else {
      w := SomeoneIsIdle(workers[1..]);
      w := w + 1;
    }
  }

  /** The first `k` targets are handed out; those that satisfy `f` are still being probed. */
  ghost predicate HoldsBack(p: Pool, n: nat, maxConcurrent: nat, f: nat -> bool, k: nat) {
    && Reachable(n, maxConcurrent, p) && p.next == k && !p.closed && !p.cancelled
    && InFlight(p.workers) == Rank(f, k) && forall t <- p.results :: !f(t)
  }

  lemma {:induction false} CanHoldBack(n: nat, maxConcurrent: nat, f: nat -> bool, k: nat) returns (p: Pool)
    requires k <= n && (k > 0 ==> Rank(f, k - 1) < Limit(n, maxConcurrent))
    ensures HoldsBack(p, n, maxConcurrent, f, k)
  {
    if k == 0 {
      p := Fresh(n, maxConcurrent);
      StartIsReachable(n, maxConcurrent);
      IdleIsEmpty(Limit(n, maxConcurrent), 0);
    } else {
      if k > 1 { RankGrows(f, k - 2, k - 1); }
      var q := CanHoldBack(n, maxConcurrent, f, k - 1);
      p := HandOn(q, n, maxConcurrent, f, k - 1);
    }
  }

  /** One more target is handed out, and comes back at once unless it is to be held back. */
  lemma HandOn(q: Pool, n: nat, maxConcurrent: nat, f: nat -> bool, k: nat) returns (p: Pool)
    requires HoldsBack(q, n, maxConcurrent, f, k) && k < n && Rank(f, k) < Limit(n, maxConcurrent)
    ensures HoldsBack(p, n, maxConcurrent, f, k + 1)
  {
    hide Reachable;
    var w;
    p, w := HandOne(q, n, maxConcurrent, k);
    if !f(k) { p := TakeBack(p, n, maxConcurrent, w); }
  }

  /** An idle worker gets the next target. */
  lemma HandOne(q: Pool, n: nat, maxConcurrent: nat, k: nat) returns (p: Pool, w: nat)
    requires Reachable(n, maxConcurrent, q) && q.next == k < n && !q.closed
             && InFlight(q.workers) < Limit(n, maxConcurrent)
    ensures Reachable(n, maxConcurrent, p) && p == q.(workers := p.workers, next := k + 1)
    ensures w < |p.workers| && p.workers[w] == Busy(k) && InFlight(p.workers) == InFlight(q.workers) + 1
  {
    hide Reachable;
    ReachableInv(n, maxConcurrent, q);
    w := SomeoneIsIdle(q.workers);
    OneMore(n, maxConcurrent, q, Hand(w));
    Replaced(q.workers, w, Busy(k), 0);
    p := Next(q, n, Hand(w));
  }

  /** A busy worker completes its target. */
  lemma TakeBack(q: Pool, n: nat, maxConcurrent: nat, w: nat) returns (p: Pool)
    requires Reachable(n, maxConcurrent, q) && w < |q.workers| && q.workers[w].Busy?
    ensures Reachable(n, maxConcurrent, p)
    ensures p == q.(workers := p.workers, results := q.results + [q.workers[w].target])
    ensures InFlight(p.workers) == InFlight(q.workers) - 1
  {
    hide Reachable;
    ReachableInv(n, maxConcurrent, q);
    LoadIsSmall(q.workers);
    OneMore(n, maxConcurrent, q, Finish(w));
    Replaced(q.workers, w, Idle, 0);
    p := Next(q, n, Finish(w));
  }

  /** Each of the first `limit` targets of a kind can be the first of its kind to complete. */
  lemma CanBeFirst(n: nat, maxConcurrent: nat, f: nat -> bool, t: nat) returns (p: Pool, i: nat)
    requires t < n && f(t) && Rank(f, t) < Limit(n, maxConcurrent)
    ensures Complete(n, maxConcurrent, p) && FirstDone(p.results, f, i) && p.results[i] == t
  {
    hide Reachable;
    if t > 0 { RankGrows(f, t - 1, t); }
    var q := CanHoldBack(n, maxConcurrent, f, t);
    var r, w := HandOne(q, n, maxConcurrent, t);
    r := TakeBack(r, n, maxConcurrent, w);
    p := CanFinish(n, maxConcurrent, r);
    i := |q.results|;
    assert p.results[i] == r.results[i] == t;
    assert forall j :: 0 <= j < i ==> p.results[j] == r.results[j] == q.results[j];
  }

  /** With two workers any target can be the last to complete. */
  lemma CanBeLast(n: nat, maxConcurrent: nat, t: nat) returns (p: Pool)
    requires t < n && Limit(n, maxConcurrent) >= 2
    ensures Complete(n, maxConcurrent, p) && |p.results| == n && p.results[n - 1] == t
  {
    hide Reachable;
    var f := (u: nat) => u == t;
    RankOfOne(t, n - 1);
    RankOfOne(t, n);
    var q := CanHoldBack(n, maxConcurrent, f, n);
    ReachableInv(n, maxConcurrent, q);
    assert f(t) && t !in q.results;
    var w := TheBusyOne(q.workers, t);
    var r := TakeBack(q, n, maxConcurrent, w);
    p := CanFinish(n, maxConcurrent, r);
    CompletedOnce(n, maxConcurrent, p);
    assert |r.results| == n && r.results[n - 1] == t;
  }

  lemma {:induction false} RankOfOne(t: nat, k: nat)
    ensures Rank((u: nat) => u == t, k) == if t < k then 1 else 0
  {
    if k > 0 { RankOfOne(t, k - 1); }
  }

  lemma {:induction false} TheBusyOne(workers: seq<Worker>, t: nat) returns (w: nat)
    requires DoingAll(workers, t) > 0
    ensures w < |workers| && workers[w] == Busy(t)
  {
    if workers[0] == Busy(t) {
      w := 0;
    } else {
      w := TheBusyOne(workers[1..], t);
      w := w + 1;
    }
  }

  /** A single worker probes in the order of the targets. */
  ghost predicate InTurn(p: Pool) {
    && |p.workers| <= 1
    && (forall i :: 0 <= i < |p.results| ==> p.results[i] == i)
    && p.next == |p.results| + InFlight(p.workers)
    && (forall w <- p.workers :: w.Busy? ==> w.target == |p.results|)
  }

  lemma {:induction false} OneWorkerInTurn(ps: seq<Pool>, acts: seq<Action>, n: nat, maxConcurrent: nat, i: nat)
    requires Run(ps, acts, n, maxConcurrent) && i < |ps| && Limit(n, maxConcurrent) <= 1
    ensures InTurn(ps[i])
  {
    RunInv(ps, acts, n, maxConcurrent, i);
    if i > 0 {
      OneWorkerInTurn(ps, acts, n, maxConcurrent, i - 1);
      RunInv(ps, acts, n, maxConcurrent, i - 1);
      assert Enabled(ps[i - 1], n, acts[i - 1]);
      StepInTurn(ps[i - 1], n, maxConcurrent, acts[i - 1]);
    }
  }

  lemma StepInTurn(p: Pool, n: nat, maxConcurrent: nat, a: Action)
    requires Inv(p, n, maxConcurrent) && Enabled(p, n, a) && InTurn(p)
    ensures InTurn(Next(p, n, a))
  {
    if p.workers != [] {
      assert p.workers[1..] == [];
      assert InFlight(p.workers) == Load(p.workers[0]);
      assert p.workers[0] in p.workers;
    }
    var q := Next(p, n, a);
    StepKeepsInv(p, n, maxConcurrent, a);
    if q.workers != [] { assert q.workers == [q.workers[0]]; }
  }

  lemma OneWorkerOneOrder(n: nat, maxConcurrent: nat, p: Pool, q: Pool)
    requires Limit(n, maxConcurrent) <= 1 && Complete(n, maxConcurrent, p) && Complete(n, maxConcurrent, q)
    ensures p.results == q.results
  {
    var ps, acts :| Run(ps, acts, n, maxConcurrent) && ps[|acts|] == p;
    var qs, bcts :| Run(qs, bcts, n, maxConcurrent) && qs[|bcts|] == q;
    OneWorkerInTurn(ps, acts, n, maxConcurrent, |acts|);
    OneWorkerInTurn(qs, bcts, n, maxConcurrent, |bcts|);
    CompletedOnce(n, maxConcurrent, p);
    CompletedOnce(n, maxConcurrent, q);
  }

  /** A target can be the first of all to complete exactly if it is handed out at the start, and the
      last of all exactly if it is the last target or another worker can take the rest. */
  lemma ExtremesOfCompletion(n: nat, maxConcurrent: nat, t: nat)
    requires t < n && maxConcurrent > 0
    ensures (exists p :: Complete(n, maxConcurrent, p) && p.results != [] && p.results[0] == t) <==>
            t < Limit(n, maxConcurrent)
    ensures (exists p :: Complete(n, maxConcurrent, p) && p.results != [] && p.results[|p.results| - 1] == t)
            <==> t == n - 1 || Limit(n, maxConcurrent) >= 2
  {
    hide Complete;
    var all := (u: nat) => true;
    RankOfAll(t);
    if p :| Complete(n, maxConcurrent, p) && p.results != [] && p.results[0] == t {
      CompleteIsReachable(n, maxConcurrent, p);
      FirstIsEarly(n, maxConcurrent, p, all, 0);
    }
    if t < Limit(n, maxConcurrent) {
      var p, i := CanBeFirst(n, maxConcurrent, all, t);
      FirstOfAllIsZero(p.results, i);
    }
    if Limit(n, maxConcurrent) >= 2 {
      var p := CanBeLast(n, maxConcurrent, t);
    } else {
      StartIsReachable(n, maxConcurrent);
      var q := CanFinish(n, maxConcurrent, Fresh(n, maxConcurrent));
      LastOfOneWorker(n, maxConcurrent, q);
      if p :| Complete(n, maxConcurrent, p) && p.results != [] && p.results[|p.results| - 1] == t {
        LastOfOneWorker(n, maxConcurrent, p);
      }
    }
  }

  lemma FirstOfAllIsZero(results: seq<nat>, i: nat)
    requires FirstDone(results, (u: nat) => true, i)
    ensures i == 0
  {
    var all := (u: nat) => true;
    assert all(results[0]);
  }

  lemma CompleteIsReachable(n: nat, maxConcurrent: nat, p: Pool)
    requires Complete(n, maxConcurrent, p)
    ensures Reachable(n, maxConcurrent, p)
  {}

  lemma LastOfOneWorker(n: nat, maxConcurrent: nat, p: Pool)
    requires n > 0 && Limit(n, maxConcurrent) <= 1 && Complete(n, maxConcurrent, p)
    ensures |p.results| == n && p.results[n - 1] == n - 1
  {
    var ps, acts :| Run(ps, acts, n, maxConcurrent) && ps[|acts|] == p;
    OneWorkerInTurn(ps, acts, n, maxConcurrent, |acts|);
    CompletedOnce(n, maxConcurrent, p);
  }

  lemma {:induction false} RankOfAll(k: nat)
    ensures Rank((u: nat) => true, k) == k
  {
    if k > 0 { RankOfAll(k - 1); }
  }

  // ---- The records of a schedule -------------------------------------------------------------------

  function Reported(p: Pool, report: nat -> Probe): seq<string> {
    PreferredRecords(Sorted(Collected(p.results, report)))
  }

  /** However the pool is scheduled, a complete check reports the same records. */
  ghost predicate RecordsAreStable(n: nat, maxConcurrent: nat, report: nat -> Probe) {
    forall p, q :: Complete(n, maxConcurrent, p) && Complete(n, maxConcurrent, q) ==>
        Reported(p, report) == Reported(q, report)
  }

  predicate SomeVerify(n: nat, report: nat -> Probe) {
    exists t: nat :: t < n && AuthorityVerified(report(t))
  }

  /** A verifying authoritative server that no other follows in the report's order. */
  predicate Trails(n: nat, report: nat -> Probe, t: nat) {
    && t < n && AuthorityVerified(report(t))
    && forall u: nat :: u < n && AuthorityVerified(report(u)) ==> !Less(report(t), report(u))
  }

  /** A probe with records that no other precedes in the report's order. */
  predicate Leads(n: nat, report: nat -> Probe, t: nat) {
    && t < n && HasRecords(report(t))
    && forall u: nat :: u < n && HasRecords(report(u)) ==> !Less(report(u), report(t))
  }

  predicate Leading(n: nat, maxConcurrent: nat, report: nat -> Probe, t: nat) {
    Leads(n, report, t) && Rank((u: nat) => Leads(n, report, u), t) < Limit(n, maxConcurrent)
  }

  ghost predicate TrailersAgree(n: nat, report: nat -> Probe) {
    forall t: nat, u: nat :: Trails(n, report, t) && Trails(n, report, u) ==> report(t).records == report(u).records
  }

  ghost predicate LeadersAgree(n: nat, maxConcurrent: nat, report: nat -> Probe) {
    forall t: nat, u: nat :: Leading(n, maxConcurrent, report, t) && Leading(n, maxConcurrent, report, u) ==>
                               report(t).records == report(u).records
  }

  /** With a verifying authoritative server, the schedule does not show exactly if the pool has one
      worker or the last verifying servers agree. Without one, exactly if the first probes with
      records agree, as many of them as can be probed at once. */
  lemma RecordsAreStableIff(n: nat, maxConcurrent: nat, report: nat -> Probe)
    requires maxConcurrent > 0
    ensures RecordsAreStable(n, maxConcurrent, report) <==>
            if SomeVerify(n, report) then Limit(n, maxConcurrent) <= 1 || TrailersAgree(n, report)
            else LeadersAgree(n, maxConcurrent, report)
  {
    hide Complete;
    hide Reported;
    if SomeVerify(n, report) {
      VerifiedIff(n, maxConcurrent, report);
    } else {
      UnverifiedIff(n, maxConcurrent, report);
    }
  }

  lemma VerifiedIff(n: nat, maxConcurrent: nat, report: nat -> Probe)
    requires maxConcurrent > 0 && SomeVerify(n, report)
    ensures RecordsAreStable(n, maxConcurrent, report) <==> Limit(n, maxConcurrent) <= 1 || TrailersAgree(n, report)
  {
    hide Complete;
    hide Reported;
    hide Trails;
    if Limit(n, maxConcurrent) <= 1 {
      forall p, q | Complete(n, maxConcurrent, p) && Complete(n, maxConcurrent, q)
        ensures Reported(p, report) == Reported(q, report)
      {
        OneWorkerOneOrder(n, maxConcurrent, p, q);
        SameResultsSameRecords(p, q, report);
      }
    } else if TrailersAgree(n, report) {
      forall p, q | Complete(n, maxConcurrent, p) && Complete(n, maxConcurrent, q)
        ensures Reported(p, report) == Reported(q, report)
      {
        var t := ReportsATrailer(n, maxConcurrent, p, report);
        var u := ReportsATrailer(n, maxConcurrent, q, report);
      }
    } else {
      var t: nat, u: nat :| Trails(n, report, t) && Trails(n, report, u) && report(t).records != report(u).records;
      TrailsIsBelow(n, report, t);
      TrailsIsBelow(n, report, u);
      var p := CanBeLast(n, maxConcurrent, t);
      var q := CanBeLast(n, maxConcurrent, u);
      LastTrailerIsReported(n, maxConcurrent, p, report, n - 1);
      LastTrailerIsReported(n, maxConcurrent, q, report, n - 1);
    }
  }

  lemma TrailsIsBelow(n: nat, report: nat -> Probe, t: nat)
    requires Trails(n, report, t)
    ensures t < n
  {}

  lemma SameResultsSameRecords(p: Pool, q: Pool, report: nat -> Probe)
    requires p.results == q.results
    ensures Reported(p, report) == Reported(q, report)
  {}

  lemma UnverifiedIff(n: nat, maxConcurrent: nat, report: nat -> Probe)
    requires maxConcurrent > 0 && !SomeVerify(n, report)
    ensures RecordsAreStable(n, maxConcurrent, report) <==> LeadersAgree(n, maxConcurrent, report)
  {
    hide Complete;
    hide Reported;
    hide Leading;
    hide SomeVerify;
    if LeadersAgree(n, maxConcurrent, report) {
      forall p, q | Complete(n, maxConcurrent, p) && Complete(n, maxConcurrent, q)
        ensures Reported(p, report) == Reported(q, report)
      {
        if t: nat :| t < n && HasRecords(report(t)) {
          var a := ReportsALeader(n, maxConcurrent, p, report, t);
          var b := ReportsALeader(n, maxConcurrent, q, report, t);
        } else {
          ReportsNothing(n, maxConcurrent, p, report);
          ReportsNothing(n, maxConcurrent, q, report);
        }
      }
    } else {
      var t: nat, u: nat :| Leading(n, maxConcurrent, report, t) && Leading(n, maxConcurrent, report, u)
                            && report(t).records != report(u).records;
      var p := CanReport(n, maxConcurrent, report, t);
      var q := CanReport(n, maxConcurrent, report, u);
    }
  }

  /** Some schedule reports the records of this leading probe. */
  lemma CanReport(n: nat, maxConcurrent: nat, report: nat -> Probe, t: nat) returns (p: Pool)
    requires Leading(n, maxConcurrent, report, t) && !SomeVerify(n, report)
    ensures Complete(n, maxConcurrent, p) && Reported(p, report) == report(t).records
  {
    hide Complete;
    hide Reported;
    hide SomeVerify;
    var f := (u: nat) => Leads(n, report, u);
    var i;
    p, i := CanBeFirst(n, maxConcurrent, f, t);
    FirstLeaderIsReported(n, maxConcurrent, p, report, i);
  }

  /** Where all authoritative servers report under one name, every verifying one trails. */
  lemma OneNameTrails(n: nat, report: nat -> Probe, t: nat)
    requires t < n && AuthorityVerified(report(t))
    requires forall u: nat :: u < n && report(u).authoritative ==> report(u).source == report(t).source
    ensures Trails(n, report, t)
  {
    hide Less;
    forall u: nat | u < n && AuthorityVerified(report(u)) ensures !Less(report(t), report(u)) {
      NamesakesTie(report(t), report(u));
    }
  }

  /** Three servers answer with wrong hosts, two at a time: the third never answers before both others,
      so what it answers never shows, although all three tie. */
  lemma ThirdServerNeverShows(report: nat -> Probe)
    requires forall t: nat :: t < 3 ==>
               report(t).authoritative && report(t).source == report(0).source && !report(t).verified
                 && HasRecords(report(t))
    requires report(0).records == report(1).records != report(2).records
    ensures RecordsAreStable(3, 2, report)
  {
    hide Less;
    hide RecordsAreStable;
    hide Leading;
    forall t: nat, u: nat | t < 3 && u < 3 ensures !Less(report(t), report(u)) { NamesakesTie(report(t), report(u)); }
    assert Leads(3, report, 0) && Leads(3, report, 1);
    hide Leads;
    RecordsAreStableIff(3, 2, report);
    forall t: nat | Leading(3, 2, report, t) ensures t < 2 { TwoBeforeTheThird(report, t); }
  }

  lemma NamesakesTie(a: Probe, b: Probe)
    requires a.authoritative && b.authoritative && a.source == b.source
    ensures !Less(a, b)
  {
    LexIsOrder(a.source, a.source, a.source);
  }

  lemma TwoBeforeTheThird(report: nat -> Probe, t: nat)
    requires Leads(3, report, 0) && Leads(3, report, 1) && Leading(3, 2, report, t)
    ensures t < 2
  {
    hide Leads;
    var f := (u: nat) => Leads(3, report, u);
    assert f(0) && f(1);
    assert Rank(f, 1) == 1 && Rank(f, 2) == 2;
    if t >= 2 { RankGrows(f, 2, t); }
  }

  // ---- Targets and their reports -------------------------------------------------------------------

  /** The results of a complete check list every target once. */
  lemma ResultsAreTargets(n: nat, maxConcurrent: nat, p: Pool)
    requires Complete(n, maxConcurrent, p)
    ensures |p.results| == n && forall t: nat :: t in p.results <==> t < n
  {
    CompletedOnce(n, maxConcurrent, p);
    forall t: nat ensures t in p.results <==> t < n {
      assert t in p.results <==> multiset(p.results)[t] > 0;
    }
  }

  lemma AnyCollected(n: nat, maxConcurrent: nat, p: Pool, report: nat -> Probe, f: Probe -> bool)
    requires Complete(n, maxConcurrent, p)
    ensures Any(Collected(p.results, report), f) <==> exists t: nat :: t < n && f(report(t))
  {
    hide Complete;
    ResultsAreTargets(n, maxConcurrent, p);
    CollectedAt(p.results, report);
    var s := Collected(p.results, report);
    if x :| x in s && f(x) {
      var i :| 0 <= i < |s| && s[i] == x;
      assert p.results[i] in p.results && f(report(p.results[i]));
    }
    if t: nat :| t < n && f(report(t)) {
      assert t in p.results;
      var i :| 0 <= i < |p.results| && p.results[i] == t;
      assert s[i] in s;
    }
    hide Collected;
  }

  /** The last trailing server to complete is the one reported. */
  lemma LastTrailerIsReported(n: nat, maxConcurrent: nat, p: Pool, report: nat -> Probe, i: nat)
    requires Complete(n, maxConcurrent, p) && i < |p.results| && Trails(n, report, p.results[i])
    requires forall j :: i < j < |p.results| ==> !Trails(n, report, p.results[j])
    ensures Reported(p, report) == report(p.results[i]).records
  {
    hide Complete;
    hide Less;
    ResultsAreTargets(n, maxConcurrent, p);
    CollectedAt(p.results, report);
    var s := Collected(p.results, report);
    forall j | 0 <= j < |s| && j != i && AuthorityVerified(s[j])
      ensures if j < i then !Less(s[i], s[j]) else Less(s[j], s[i])
    {
      var t := p.results[j];
      assert t in p.results && p.results[i] in p.results;
      if j > i && !Less(report(t), report(p.results[i])) { TrailsToo(n, report, p.results[i], t); }
    }
    hide Trails;
    LastVerifiedIsReported(s, i);
  }

  /** What ties with a trailing server trails as well. */
  lemma TrailsToo(n: nat, report: nat -> Probe, t: nat, u: nat)
    requires Trails(n, report, t) && u < n && AuthorityVerified(report(u)) && !Less(report(u), report(t))
    ensures Trails(n, report, u)
  {
    hide Less;
    forall v: nat | v < n && AuthorityVerified(report(v)) ensures !Less(report(u), report(v)) {
      LessIsOrder(report(v), report(t), report(u));
    }
  }

  /** The first leading probe to complete is the one reported. */
  lemma FirstLeaderIsReported(n: nat, maxConcurrent: nat, p: Pool, report: nat -> Probe, i: nat)
    requires Complete(n, maxConcurrent, p) && !SomeVerify(n, report)
    requires FirstDone(p.results, (u: nat) => Leads(n, report, u), i)
    ensures Reported(p, report) == report(p.results[i]).records
  {
    hide Complete;
    hide Less;
    ResultsAreTargets(n, maxConcurrent, p);
    CollectedAt(p.results, report);
    AnyCollected(n, maxConcurrent, p, report, AuthorityVerified);
    var s := Collected(p.results, report);
    forall j | 0 <= j < |s| && j != i && HasRecords(s[j])
      ensures if j < i then Less(s[i], s[j]) else !Less(s[j], s[i])
    {
      var t := p.results[j];
      assert t in p.results && p.results[i] in p.results;
      if j < i && !Less(report(p.results[i]), report(t)) { LeadsToo(n, report, p.results[i], t); }
    }
    FirstBearingIsReported(s, i);
  }

  /** What ties with a leading probe leads as well. */
  lemma LeadsToo(n: nat, report: nat -> Probe, t: nat, u: nat)
    requires Leads(n, report, t) && u < n && HasRecords(report(u)) && !Less(report(t), report(u))
    ensures Leads(n, report, u)
  {
    hide Less;
    forall v: nat | v < n && HasRecords(report(v)) ensures !Less(report(v), report(u)) {
      LessIsOrder(report(u), report(t), report(v));
    }
  }

  lemma ReportsNothing(n: nat, maxConcurrent: nat, p: Pool, report: nat -> Probe)
    requires Complete(n, maxConcurrent, p) && forall t: nat :: t < n ==> !HasRecords(report(t))
    ensures Reported(p, report) == []
  {
    AnyCollected(n, maxConcurrent, p, report, HasRecords);
    NothingIsReported(Collected(p.results, report));
  }

  // ---- Extremes exist ----------------------------------------------------------------------------------

  lemma {:induction false} SomeTrails(n: nat, report: nat -> Probe, k: nat) returns (t: nat)
    requires k <= n && exists u: nat :: u < k && AuthorityVerified(report(u))
    ensures t < k && AuthorityVerified(report(t))
    ensures forall u: nat :: u < k && AuthorityVerified(report(u)) ==> !Less(report(t), report(u))
  {
    hide Less;
    if v: nat :| v < k - 1 && AuthorityVerified(report(v)) {
      t := SomeTrails(n, report, k - 1);
      LessIsOrder(report(k - 1), report(t), report(t));
      if AuthorityVerified(report(k - 1)) && Less(report(t), report(k - 1)) {
        forall u: nat | u < k && AuthorityVerified(report(u)) ensures !Less(report(k - 1), report(u)) {
          LessIsOrder(report(u), report(t), report(k - 1));
          LessIsOrder(report(t), report(k - 1), report(k - 1));
          LessIsOrder(report(k - 1), report(k - 1), report(k - 1));
        }
        t := k - 1;
      }
    } else {
      t := k - 1;
      LessIsOrder(report(t), report(t), report(t));
    }
  }

  lemma {:induction false} SomeLeads(n: nat, report: nat -> Probe, k: nat) returns (t: nat)
    requires k <= n && exists u: nat :: u < k && HasRecords(report(u))
    ensures t < k && HasRecords(report(t))
    ensures forall u: nat :: u < k && HasRecords(report(u)) ==> !Less(report(u), report(t))
  {
    hide Less;
    if v: nat :| v < k - 1 && HasRecords(report(v)) {
      t := SomeLeads(n, report, k - 1);
      if HasRecords(report(k - 1)) && Less(report(k - 1), report(t)) {
        forall u: nat | u < k && HasRecords(report(u)) ensures !Less(report(u), report(k - 1)) {
          LessIsOrder(report(k - 1), report(t), report(u));
          LessIsOrder(report(k - 1), report(k - 1), report(k - 1));
          LessIsOrder(report(t), report(k - 1), report(k - 1));
        }
        t := k - 1;
      }
    } else {
      t := k - 1;
      LessIsOrder(report(t), report(t), report(t));
    }
  }

  lemma {:induction false} LastSuch(results: seq<nat>, f: nat -> bool) returns (i: nat)
    requires exists t <- results :: f(t)
    ensures i < |results| && f(results[i]) && forall j :: i < j < |results| ==> !f(results[j])
    decreases |results|
  {
    var rest, x := results[..|results| - 1], results[|results| - 1];
    assert results == rest + [x];
    if f(x) {
      i := |results| - 1;
    } else {
      assert forall t <- results :: t == x || t in rest;
      i := LastSuch(rest, f);
    }
  }

  lemma {:induction false} FirstSuch(results: seq<nat>, f: nat -> bool) returns (i: nat)
    requires exists t <- results :: f(t)
    ensures FirstDone(results, f, i)
  {
    if f(results[0]) {
      i := 0;
    } else {
      assert forall t <- results :: t == results[0] || t in results[1..];
      i := FirstSuch(results[1..], f);
      i := i + 1;
    }
  }

  lemma ReportsATrailer(n: nat, maxConcurrent: nat, p: Pool, report: nat -> Probe) returns (t: nat)
    requires Complete(n, maxConcurrent, p) && SomeVerify(n, report)
    ensures Trails(n, report, t) && Reported(p, report) == report(t).records
  {
    hide Complete;
    hide Reported;
    var u := SomeTrails(n, report, n);
    assert Trails(n, report, u);
    ResultsAreTargets(n, maxConcurrent, p);
    var f := (v: nat) => Trails(n, report, v);
    assert u in p.results && f(u);
    var i := LastSuch(p.results, f);
    hide Trails;
    assert forall j :: i < j < |p.results| ==> !f(p.results[j]);
    LastTrailerIsReported(n, maxConcurrent, p, report, i);
    t := p.results[i];
  }

  lemma ReportsALeader(n: nat, maxConcurrent: nat, p: Pool, report: nat -> Probe, bearing: nat) returns (t: nat)
    requires Complete(n, maxConcurrent, p) && !SomeVerify(n, report) && bearing < n && HasRecords(report(bearing))
    ensures Leading(n, maxConcurrent, report, t) && Reported(p, report) == report(t).records
  {
    hide Complete;
    hide Reported;
    hide SomeVerify;
    var u := SomeLeads(n, report, n);
    assert Leads(n, report, u);
    ResultsAreTargets(n, maxConcurrent, p);
    var f := (v: nat) => Leads(n, report, v);
    assert u in p.results && f(u);
    var i := FirstSuch(p.results, f);
    CompleteIsReachable(n, maxConcurrent, p);
    FirstIsEarly(n, maxConcurrent, p, f, i);
    FirstLeaderIsReported(n, maxConcurrent, p, report, i);
    t := p.results[i];
  }

  // ---- Any order at all ----------------------------------------------------------------------------------

  function Handed(n: nat, k: nat): Pool {
    Pool(seq(n, i requires 0 <= i < n => if i < k then Busy(i) else Idle), k, false, false, [])
  }

  function Returned(n: nat, order: seq<nat>, k: nat): Pool
    requires k <= |order|
  {
    Pool(seq(n, i requires 0 <= i < n => if i in order[..k] then Idle else Busy(i)), n, false, false, order[..k])
  }

  function Left(n: nat, order: seq<nat>, k: nat): Pool {
    Pool(seq(n, i requires 0 <= i < n => if i < k then Gone else Idle), n, true, false, order)
  }

  lemma {:induction false} AllAreHanded(n: nat, maxConcurrent: nat, k: nat)
    requires k <= n <= maxConcurrent
    ensures Reachable(n, maxConcurrent, Handed(n, k))
  {
    if k == 0 {
      assert Handed(n, 0) == Fresh(n, maxConcurrent);
      StartIsReachable(n, maxConcurrent);
    } else {
      AllAreHanded(n, maxConcurrent, k - 1);
      OneMore(n, maxConcurrent, Handed(n, k - 1), Hand(k - 1));
      assert Next(Handed(n, k - 1), n, Hand(k - 1)) == Handed(n, k);
    }
  }

  ghost predicate IsOrder(n: nat, order: seq<nat>) {
    && |order| == n && (forall i :: 0 <= i < n ==> order[i] < n)
    && (forall i, j :: 0 <= i < j < n ==> order[i] != order[j])
  }

  lemma {:induction false} AnyReturns(n: nat, maxConcurrent: nat, order: seq<nat>, k: nat)
    requires IsOrder(n, order) && k <= n <= maxConcurrent
    ensures Reachable(n, maxConcurrent, Returned(n, order, k))
  {
    if k == 0 {
      AllAreHanded(n, maxConcurrent, n);
      assert Handed(n, n) == Returned(n, order, 0);
    } else {
      AnyReturns(n, maxConcurrent, order, k - 1);
      var p, w := Returned(n, order, k - 1), order[k - 1];
      assert order[..k] == order[..k - 1] + [w];
      assert w !in order[..k - 1];
      OneMore(n, maxConcurrent, p, Finish(w));
      assert Next(p, n, Finish(w)).workers == Returned(n, order, k).workers;
    }
  }

  lemma {:induction false} AllLeave(n: nat, maxConcurrent: nat, order: seq<nat>, k: nat)
    requires Reachable(n, maxConcurrent, Left(n, order, 0)) && k <= n <= maxConcurrent
    ensures Reachable(n, maxConcurrent, Left(n, order, k))
  {
    if k > 0 {
      AllLeave(n, maxConcurrent, order, k - 1);
      OneMore(n, maxConcurrent, Left(n, order, k - 1), Leave(k - 1));
      assert Next(Left(n, order, k - 1), n, Leave(k - 1)) == Left(n, order, k);
    }
  }

  /** With a worker for every target, each order of completion is that of some schedule. */
  lemma EveryOrderHappens(n: nat, maxConcurrent: nat, order: seq<nat>) returns (p: Pool)
    requires IsOrder(n, order) && n <= maxConcurrent
    ensures Complete(n, maxConcurrent, p) && p.results == order
  {
    AnyReturns(n, maxConcurrent, order, n);
    EveryIndexIsIn(n, order);
    assert order[..n] == order;
    OneMore(n, maxConcurrent, Returned(n, order, n), Close);
    assert Next(Returned(n, order, n), n, Close) == Left(n, order, 0);
    AllLeave(n, maxConcurrent, order, n);
    p := Left(n, order, n);
    hide Reachable;
  }

  ghost function Below(n: nat): set<nat> { if n == 0 then {} else Below(n - 1) + {n - 1} }

  ghost function Elements(order: seq<nat>): set<nat> { set t | t in order }

  /** An order of `n` distinct targets below `n` lists them all. */
  lemma EveryIndexIsIn(n: nat, order: seq<nat>)
    requires IsOrder(n, order)
    ensures forall t: nat :: t < n ==> t in order
  {
    SizeBelow(n);
    SizeListed(order);
    if t: nat :| t < n && t !in order {
      SubsetIsSmaller(Elements(order), Below(n) - {t});
    }
  }

  lemma {:induction false} SizeBelow(n: nat)
    ensures |Below(n)| == n && forall t: nat :: t in Below(n) <==> t < n
  {
    if n > 0 { SizeBelow(n - 1); }
  }

  lemma {:induction false} SizeListed(order: seq<nat>)
    requires forall i, j :: 0 <= i < j < |order| ==> order[i] != order[j]
    ensures |Elements(order)| == |order|
  {
    if order != [] {
      var rest, x := order[..|order| - 1], order[|order| - 1];
      SizeListed(rest);
      assert order == rest + [x];
      assert Elements(order) == Elements(rest) + {x};
    }
  }

  // ---- Two schedules that report different records -----------------------------------------------------------

  /** Of two probes of one kind and place, the one that completes later is reported if they verify,
      and the one that completes sooner if they only saw records. */
  lemma RecordsFollowTheSchedule(a: Probe, b: Probe)
    requires a.authoritative && b.authoritative && a.source == b.source && HasRecords(a) && HasRecords(b)
    ensures a.verified && b.verified ==> PreferredRecords(Sorted([a, b])) == b.records
    ensures !a.verified && !b.verified ==> PreferredRecords(Sorted([a, b])) == a.records
  {
    LessIsOrder(a, b, b);
    LexIsOrder(a.source, a.source, a.source);
    if a.verified && b.verified {
      LastVerifiedIsReported([a, b], 1);
    } else if !a.verified && !b.verified {
      FirstBearingIsReported([a, b], 0);
    }
    hide Sorted;
  }

  /** Two authoritative servers, both verifying or both answering with a wrong host, checked twice by a
      pool of two: once in each order of completion, with different records reported. */
  lemma TwoSchedulesTwoRecords(report: nat -> Probe) returns (p: Pool, q: Pool)
    requires report(0).authoritative && report(1).authoritative && report(0).source == report(1).source
    requires report(0).verified == report(1).verified && HasRecords(report(0)) && HasRecords(report(1))
    requires report(0).records != report(1).records
    ensures Complete(2, 2, p) && Complete(2, 2, q) && Reported(p, report) != Reported(q, report)
  {
    p := EveryOrderHappens(2, 2, [0, 1]);
    q := EveryOrderHappens(2, 2, [1, 0]);
    CollectedAt([0, 1], report);
    CollectedAt([1, 0], report);
    assert Collected([0, 1], report) == [report(0), report(1)];
    assert Collected([1, 0], report) == [report(1), report(0)];
    RecordsFollowTheSchedule(report(0), report(1));
    RecordsFollowTheSchedule(report(1), report(0));
    hide Sorted;
    hide PreferredRecords;
  }

  /** Two authoritative servers that answer with different wrong hosts: nobody verifies, and which
      host is reported depends on which server answers first. */
  lemma UnverifiedRecordsFollowTheSchedule() returns (report: nat -> Probe, p: Pool, q: Pool)
    ensures !SomeVerify(2, report) && Complete(2, 2, p) && Complete(2, 2, q)
    ensures Reported(p, report) == ["a"] && Reported(q, report) == ["b"]
  {
    hide Sorted;
    hide PreferredRecords;
    hide Collected;
    hide Complete;
    var a: Probe := Report("Authoritative DNS", "1", true, ["a"], "", false);
    var b: Probe := Report("Authoritative DNS", "2", true, ["b"], "", false);
    report := (t: nat) => if t == 0 then a else b;
    p := EveryOrderHappens(2, 2, [0, 1]);
    q := EveryOrderHappens(2, 2, [1, 0]);
    CollectedAt([0, 1], report);
    CollectedAt([1, 0], report);
    assert Collected([0, 1], report) == [a, b];
    assert Collected([1, 0], report) == [b, a];
    RecordsFollowTheSchedule(a, b);
    RecordsFollowTheSchedule(b, a);
  }
}
