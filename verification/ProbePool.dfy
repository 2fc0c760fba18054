/** The pool of workers that probes all targets, under any schedule. */
module ProbePool {
  import opened Propagation

  datatype Worker = Idle | Busy(target: nat) | Gone

  /** `next` targets have been handed out; `results` lists the targets probed, as they completed. */
  datatype Pool = Pool(workers: seq<Worker>, next: nat, closed: bool, cancelled: bool, results: seq<nat>)

  datatype Action = Hand(worker: nat) | Finish(worker: nat) | Close | Leave(worker: nat) | Cancel

  function Limit(n: nat, maxConcurrent: nat): nat { if maxConcurrent > n then n else maxConcurrent }

  function Fresh(n: nat, maxConcurrent: nat): Pool {
    Pool(seq(Limit(n, maxConcurrent), _ => Idle), 0, false, false, [])
  }

  /** The sender meets an idle worker; a worker that finishes needs room in the results channel;
      the sender closes the work channel after the last target or once cancelled. */
  predicate Enabled(p: Pool, n: nat, a: Action) {
    match a
    case Hand(w) => w < |p.workers| && p.workers[w].Idle? && p.next < n && !p.closed
    case Finish(w) => w < |p.workers| && p.workers[w].Busy? && |p.results| < n
    case Close => !p.closed && (p.next == n || p.cancelled)
    case Leave(w) => w < |p.workers| && p.workers[w].Idle? && p.closed
    case Cancel => !p.cancelled
  }

  function Next(p: Pool, n: nat, a: Action): Pool
    requires Enabled(p, n, a)
  {
    match a
    case Hand(w) => p.(workers := p.workers[w := Busy(p.next)], next := p.next + 1)
    case Finish(w) => p.(workers := p.workers[w := Idle], results := p.results + [p.workers[w].target])
    case Close => p.(closed := true)
    case Leave(w) => p.(workers := p.workers[w := Gone])
    case Cancel => p.(cancelled := true)
  }

  ghost predicate Run(ps: seq<Pool>, acts: seq<Action>, n: nat, maxConcurrent: nat) {
    && |ps| == |acts| + 1 && ps[0] == Fresh(n, maxConcurrent)
    && forall i {:trigger acts[i]} :: 0 <= i < |acts| ==>
         Enabled(ps[i], n, acts[i]) && ps[i + 1] == Next(ps[i], n, acts[i])
  }

  /** Everyone has left: the wait group is done and the results can be drained. */
  predicate Done(p: Pool) { p.closed && forall w <- p.workers :: w.Gone? }

  function Doing(w: Worker, t: nat): nat { if w == Busy(t) then 1 else 0 }

  /** How many workers are probing target `t` now. */
  function DoingAll(workers: seq<Worker>, t: nat): nat {
    if workers == [] then 0 else Doing(workers[0], t) + DoingAll(workers[1..], t)
  }

  function Load(w: Worker): nat { if w.Busy? then 1 else 0 }

  /** How many probes are in flight. */
  function InFlight(workers: seq<Worker>): nat {
    if workers == [] then 0 else Load(workers[0]) + InFlight(workers[1..])
  }

  function Here(w: Worker): nat { if w.Gone? then 0 else 1 }

  /** How many workers have still to leave. */
  function Present(workers: seq<Worker>): nat {
    if workers == [] then 0 else Here(workers[0]) + Present(workers[1..])
  }

  /** Every target handed out is in flight or among the results, and only once. */
  ghost predicate Inv(p: Pool, n: nat, maxConcurrent: nat) {
    && |p.workers| == Limit(n, maxConcurrent)
    && p.next <= n
    && |p.results| + InFlight(p.workers) == p.next
    && (forall t: nat :: multiset(p.results)[t] + DoingAll(p.workers, t) == if t < p.next then 1 else 0)
    && (p.closed ==> p.next == n || p.cancelled)
    && (forall w :: 0 <= w < |p.workers| && p.workers[w].Gone? ==> p.closed)
  }

  lemma {:induction false} Replaced(workers: seq<Worker>, w: nat, x: Worker, t: nat)
    requires w < |workers|
    ensures DoingAll(workers[w := x], t) + Doing(workers[w], t) == DoingAll(workers, t) + Doing(x, t)
    ensures InFlight(workers[w := x]) + Load(workers[w]) == InFlight(workers) + Load(x)
    ensures Present(workers[w := x]) + Here(workers[w]) == Present(workers) + Here(x)
  {
    hide Doing;
    hide Load;
    hide Here;
    if w == 0 {
      assert workers[w := x][1..] == workers[1..];
    } else {
      assert workers[w := x][1..] == workers[1..][w - 1 := x];
      Replaced(workers[1..], w - 1, x, t);
    }
  }

  lemma StepKeepsInv(p: Pool, n: nat, maxConcurrent: nat, a: Action)
    requires Enabled(p, n, a) && Inv(p, n, maxConcurrent)
    ensures Inv(Next(p, n, a), n, maxConcurrent)
  {
    hide InFlight;
    hide DoingAll;
    hide Present;
    var q := Next(p, n, a);
    if a.Hand? || a.Finish? || a.Leave? {
      var w := a.worker;
      Replaced(p.workers, w, q.workers[w], 0);
      forall t: nat ensures multiset(q.results)[t] + DoingAll(q.workers, t) == if t < q.next then 1 else 0 {
        Replaced(p.workers, w, q.workers[w], t);
      }
    }
  }

  lemma {:induction false} IdleIsEmpty(k: nat, t: nat)
    ensures var workers := seq(k, _ => Idle);
            DoingAll(workers, t) == 0 && InFlight(workers) == 0 && Present(workers) == k
  {
    if k > 0 {
      var workers := seq(k, _ => Idle);
      assert workers[1..] == seq(k - 1, _ => Idle);
      IdleIsEmpty(k - 1, t);
    }
  }

  lemma {:induction false} RunInv(ps: seq<Pool>, acts: seq<Action>, n: nat, maxConcurrent: nat, i: nat)
    requires Run(ps, acts, n, maxConcurrent) && i < |ps|
    ensures Inv(ps[i], n, maxConcurrent)
  {
    if i == 0 {
      forall t: nat ensures DoingAll(ps[0].workers, t) == 0 { IdleIsEmpty(Limit(n, maxConcurrent), t); }
      IdleIsEmpty(Limit(n, maxConcurrent), 0);
    } else {
      RunInv(ps, acts, n, maxConcurrent, i - 1);
      assert Enabled(ps[i - 1], n, acts[i - 1]);
      StepKeepsInv(ps[i - 1], n, maxConcurrent, acts[i - 1]);
    }
  }

  // ---- Never blocked, never over the limit ---------------------------------------------------------

  lemma {:induction false} LoadIsSmall(workers: seq<Worker>)
    ensures InFlight(workers) <= |workers|
    ensures forall w :: 0 <= w < |workers| && workers[w].Busy? ==> InFlight(workers) > 0
    ensures (forall w :: 0 <= w < |workers| ==> !workers[w].Busy?) ==> InFlight(workers) == 0
  {
    if workers != [] { LoadIsSmall(workers[1..]); }
  }

  /** A worker with a result always finds room for it, at most `limit` probes are in flight, and no
      target is probed twice. */
  lemma NeverBlocked(ps: seq<Pool>, acts: seq<Action>, n: nat, maxConcurrent: nat, i: nat)
    requires Run(ps, acts, n, maxConcurrent) && i < |ps|
    ensures var p := ps[i];
            && |p.workers| == (if n <= maxConcurrent then n else maxConcurrent) && InFlight(p.workers) <= |p.workers|
            && (forall w: nat :: w < |p.workers| && p.workers[w].Busy? ==> Enabled(p, n, Finish(w)))
            && (forall t: nat :: multiset(p.results)[t] + DoingAll(p.workers, t) <= 1)
  {
    RunInv(ps, acts, n, maxConcurrent, i);
    LoadIsSmall(ps[i].workers);
  }

  // ---- Every schedule ends -----------------------------------------------------------------------

  function Work(p: Pool, n: nat): int {
    var left := (if p.closed then 0 else 1) + if p.cancelled then 0 else 1;
    2 * (n - p.next) + InFlight(p.workers) + Present(p.workers) + left
  }

  lemma StepWorks(p: Pool, n: nat, a: Action)
    requires Enabled(p, n, a)
    ensures Work(Next(p, n, a), n) == Work(p, n) - 1
  {
    if a.Hand? || a.Finish? || a.Leave? {
      Replaced(p.workers, a.worker, Next(p, n, a).workers[a.worker], 0);
    }
    hide InFlight;
    hide Present;
  }

  /** No schedule takes more than two steps for each target, one for each worker, and two. */
  lemma {:induction false} ScheduleIsShort(ps: seq<Pool>, acts: seq<Action>, n: nat, maxConcurrent: nat, i: nat)
    requires Run(ps, acts, n, maxConcurrent) && i < |ps|
    ensures i + Work(ps[i], n) == 2 * n + Limit(n, maxConcurrent) + 2
    ensures i <= 2 * n + Limit(n, maxConcurrent) + 2
  {
    RunInv(ps, acts, n, maxConcurrent, i);
    if i == 0 {
      IdleIsEmpty(Limit(n, maxConcurrent), 0);
    } else {
      ScheduleIsShort(ps, acts, n, maxConcurrent, i - 1);
      assert Enabled(ps[i - 1], n, acts[i - 1]);
      StepWorks(ps[i - 1], n, acts[i - 1]);
    }
  }

  /** Until everyone has left, somebody can move without waiting for a cancellation. */
  lemma NeverStuck(ps: seq<Pool>, acts: seq<Action>, n: nat, maxConcurrent: nat, i: nat) returns (a: Action)
    requires Run(ps, acts, n, maxConcurrent) && i < |ps| && maxConcurrent > 0 && !Done(ps[i])
    ensures Enabled(ps[i], n, a) && !a.Cancel?
  {
    var p := ps[i];
    RunInv(ps, acts, n, maxConcurrent, i);
    NeverBlocked(ps, acts, n, maxConcurrent, i);
    if w: nat :| w < |p.workers| && p.workers[w].Busy? {
      a := Finish(w);
    } else if !p.closed {
      a := if p.next == n then Close else Hand(0);
    } else {
      var x :| x in p.workers && !x.Gone?;
      var w :| 0 <= w < |p.workers| && p.workers[w] == x;
      a := Leave(w);
    }
  }

  // ---- The report --------------------------------------------------------------------------------

  /** When everyone has left, every target handed out was probed exactly once; without a
      cancellation, that is every target. */
  lemma ProbedOnce(ps: seq<Pool>, acts: seq<Action>, n: nat, maxConcurrent: nat, i: nat)
    requires Run(ps, acts, n, maxConcurrent) && i < |ps| && Done(ps[i])
    ensures forall t: nat :: multiset(ps[i].results)[t] == if t < ps[i].next then 1 else 0
    ensures !ps[i].cancelled ==> ps[i].next == n
  {
    RunInv(ps, acts, n, maxConcurrent, i);
    var workers := ps[i].workers;
    assert forall w :: 0 <= w < |workers| ==> workers[w] in workers;
    forall t: nat ensures DoingAll(workers, t) == 0 { GoneIsIdle(workers, t); }
  }

  lemma {:induction false} GoneIsIdle(workers: seq<Worker>, t: nat)
    requires forall w :: 0 <= w < |workers| ==> workers[w].Gone?
    ensures DoingAll(workers, t) == 0
  {
    if workers != [] { GoneIsIdle(workers[1..], t); }
  }

  /** The reports in the order they were completed, when each depends on its target alone. */
  function Collected(results: seq<nat>, report: nat -> Probe): seq<Probe>
    decreases |results|
  {
    if results == [] then [] else Collected(results[..|results| - 1], report) + [report(results[|results| - 1])]
  }

  lemma {:induction false} CollectedAt(results: seq<nat>, report: nat -> Probe)
    ensures |Collected(results, report)| == |results|
    ensures forall i :: 0 <= i < |results| ==> Collected(results, report)[i] == report(results[i])
    decreases |results|
  {
    if results != [] { CollectedAt(results[..|results| - 1], report); }
  }

  lemma CollectedOfConcat(a: seq<nat>, b: seq<nat>, report: nat -> Probe)
    ensures Collected(a + b, report) == Collected(a, report) + Collected(b, report)
  {
    CollectedAt(a + b, report);
    CollectedAt(a, report);
    CollectedAt(b, report);
  }

  lemma {:induction false} CollectedIgnoresOrder(s: seq<nat>, t: seq<nat>, report: nat -> Probe)
    requires multiset(s) == multiset(t)
    ensures multiset(Collected(s, report)) == multiset(Collected(t, report))
    decreases |s|
  {
    hide Collected;
    if s == [] {
      assert |t| == |multiset(t)| == 0;
    } else {
      var rest, x := s[..|s| - 1], s[|s| - 1];
      assert s == rest + [x] && x in s;
      var before, after := TakeOut(t, x);
      assert multiset(s) == multiset(rest) + multiset{x};
      forall y ensures multiset(rest)[y] == multiset(before + after)[y] {
        assert multiset(t)[y] == multiset(s)[y];
      }
      CollectedIgnoresOrder(rest, before + after, report);
      CollectedOfConcat(rest, [x], report);
      MovedToEnd(before, x, after, report);
    }
  }

  lemma TakeOut(t: seq<nat>, x: nat) returns (before: seq<nat>, after: seq<nat>)
    requires x in multiset(t)
    ensures t == before + [x] + after && multiset(t) == multiset(before + after) + multiset{x}
  {
    var i :| 0 <= i < |t| && t[i] == x;
    before, after := t[..i], t[i + 1..];
  }

  lemma MovedToEnd(before: seq<nat>, x: nat, after: seq<nat>, report: nat -> Probe)
    ensures multiset(Collected(before + [x] + after, report)) ==
            multiset(Collected(before + after, report) + Collected([x], report))
  {
    hide Collected;
    CollectedOfConcat(before + [x], after, report);
    CollectedOfConcat(before, [x], report);
    CollectedOfConcat(before, after, report);
  }

  /** Whatever the schedule, two complete checks of the same targets come to the same status and the
      same verification, and report the records of a verifying authoritative server if there is one. */
  lemma VerdictIgnoresSchedule(ps: seq<Pool>, acts: seq<Action>, i: nat, qs: seq<Pool>, bcts: seq<Action>, j: nat,
                               n: nat, maxP: nat, maxQ: nat, report: nat -> Probe)
    requires Run(ps, acts, n, maxP) && i < |ps| && Done(ps[i]) && !ps[i].cancelled
    requires Run(qs, bcts, n, maxQ) && j < |qs| && Done(qs[j]) && !qs[j].cancelled
    ensures var s, t := Collected(ps[i].results, report), Collected(qs[j].results, report);
            && StatusOf(Sorted(s)) == StatusOf(Sorted(t)) && IsVerified(Sorted(s)) == IsVerified(Sorted(t))
            && (Any(s, AuthorityVerified) ==>
                  exists p <- s :: AuthorityVerified(p) && PreferredRecords(Sorted(s)) == p.records)
  {
    ProbedOnce(ps, acts, n, maxP, i);
    ProbedOnce(qs, bcts, n, maxQ, j);
    forall t ensures multiset(ps[i].results)[t] == multiset(qs[j].results)[t] {}
    CollectedIgnoresOrder(ps[i].results, qs[j].results, report);
    VerdictIgnoresOrder(Collected(ps[i].results, report), Collected(qs[j].results, report));
    hide Sorted;
    hide StatusOf;
    hide IsVerified;
    hide PreferredRecords;
  }

  // ---- Schedules that can be built ---------------------------------------------------------------

  ghost predicate Reachable(n: nat, maxConcurrent: nat, p: Pool) {
    exists ps, acts :: Run(ps, acts, n, maxConcurrent) && ps[|acts|] == p
  }

  lemma OneMore(n: nat, maxConcurrent: nat, p: Pool, a: Action)
    requires Reachable(n, maxConcurrent, p) && Enabled(p, n, a)
    ensures Reachable(n, maxConcurrent, Next(p, n, a))
  {
    hide Enabled;
    hide Next;
    var ps, acts :| Run(ps, acts, n, maxConcurrent) && ps[|acts|] == p;
    var q := Next(p, n, a);
    var qs, bcts := ps + [q], acts + [a];
    forall i {:trigger bcts[i]} | 0 <= i < |bcts|
      ensures Enabled(qs[i], n, bcts[i]) && qs[i + 1] == Next(qs[i], n, bcts[i])
    {
      if i < |acts| { assert bcts[i] == acts[i] && qs[i] == ps[i] && qs[i + 1] == ps[i + 1]; }
    }
    assert Run(qs, bcts, n, maxConcurrent) && qs[|bcts|] == q;
  }

  /** A check that ran to its end. */
  ghost predicate Complete(n: nat, maxConcurrent: nat, p: Pool) {
    Reachable(n, maxConcurrent, p) && Done(p) && !p.cancelled
  }

  lemma ReachableInv(n: nat, maxConcurrent: nat, p: Pool)
    requires Reachable(n, maxConcurrent, p)
    ensures Inv(p, n, maxConcurrent)
  {
    var ps, acts :| Run(ps, acts, n, maxConcurrent) && ps[|acts|] == p;
    RunInv(ps, acts, n, maxConcurrent, |acts|);
  }

  lemma StartIsReachable(n: nat, maxConcurrent: nat)
    ensures Reachable(n, maxConcurrent, Fresh(n, maxConcurrent))
  {
    var p := Fresh(n, maxConcurrent);
    var none: seq<Action> := [];
    assert Run([p], none, n, maxConcurrent) && [p][|none|] == p;
  }

  /** Any schedule can be carried on to its end, and keeps the results it has. */
  lemma {:induction false} CanFinish(n: nat, maxConcurrent: nat, p: Pool) returns (q: Pool)
    requires Reachable(n, maxConcurrent, p) && !p.cancelled && maxConcurrent > 0
    ensures Complete(n, maxConcurrent, q) && p.results <= q.results
    decreases Work(p, n) + 2 * |p.workers| + 2
  {
    ReachableInv(n, maxConcurrent, p);
    if Done(p) {
      q := p;
    } else {
      var ps, acts :| Run(ps, acts, n, maxConcurrent) && ps[|acts|] == p;
      var a := NeverStuck(ps, acts, n, maxConcurrent, |acts|);
      OneMore(n, maxConcurrent, p, a);
      StepWorks(p, n, a);
      hide Reachable;
      q := CanFinish(n, maxConcurrent, Next(p, n, a));
    }
  }

  lemma CompletedOnce(n: nat, maxConcurrent: nat, p: Pool)
    requires Complete(n, maxConcurrent, p)
    ensures |p.results| == n && forall t: nat :: multiset(p.results)[t] == if t < n then 1 else 0
  {
    var ps, acts :| Run(ps, acts, n, maxConcurrent) && ps[|acts|] == p;
    ProbedOnce(ps, acts, n, maxConcurrent, |acts|);
    RunInv(ps, acts, n, maxConcurrent, |acts|);
    assert forall w :: 0 <= w < |p.workers| ==> p.workers[w] in p.workers;
    LoadIsSmall(p.workers);
  }
}
