/** Many services over one settings table: saves, reads and publications interleave freely,
    so a snapshot may be published long after it was read. */
module SettingsRuns {
  import opened Common
  import opened RateConfig
  import opened Settings

  type Instance = nat

  /** A snapshot on its way from the table to the instance that asked for it. */
  datatype Flight = Flight(instance: Instance, snapshot: Snapshot)

  datatype World = World(store: Store, published: map<Instance, Snapshot>, inflight: map<nat, Flight>)

  datatype Action =
    | Boot(flight: nat, instance: Instance)
    | Fetch(flight: nat, instance: Instance)
    | Save(flight: nat, instance: Instance, revision: int, config: RateLimits, actor: string)
    | Arrive(flight: nat)
    | Lose(flight: nat)

  predicate Enabled(w: World, a: Action) {
    match a
    case Boot(f, i) => f !in w.inflight && i !in w.published
    case Fetch(f, i) => f !in w.inflight && i in w.published
    case Save(f, i, _, _, _) => f !in w.inflight && i in w.published
    case Arrive(f) => f in w.inflight
    case Lose(f) => f in w.inflight
  }

  function Depart(w: World, f: nat, i: Instance, r: Result<Snapshot>): World {
    if r.Ok? then w.(inflight := w.inflight[f := Flight(i, r.value)]) else w
  }

  function Current(w: World, i: Instance): Option<Snapshot> {
    if i in w.published then Some(w.published[i]) else None
  }

  function Next(w: World, a: Action): World
    requires Enabled(w, a)
  {
    match a
    case Boot(f, i) =>
      var v := w.(store := Ensured(w.store));
      Depart(v, f, i, Read(v.store))
    case Fetch(f, i) => Depart(w, f, i, Read(w.store))
    case Save(f, i, revision, config, actor) =>
      if !Validate(config) then w else
        var (store, r) := Saved(w.store, revision, config, actor);
        Depart(w.(store := store), f, i, r)
    case Arrive(f) =>
      var Flight(i, s) := w.inflight[f];
      var now := Publish(Current(w, i), s);
      w.(inflight := w.inflight - {f}, published := if now.Some? then w.published[i := now.value] else w.published)
    case Lose(f) => w.(inflight := w.inflight - {f})
  }

  ghost predicate Run(ws: seq<World>, acts: seq<Action>) {
    && |ws| == |acts| + 1 && ws[0] == World(EMPTY, map[], map[])
    && forall n {:trigger acts[n]} :: 0 <= n < |acts| ==> Enabled(ws[n], acts[n]) && ws[n + 1] == Next(ws[n], acts[n])
  }

  /** The settings that revision `r` stands for, as the audit trail tells it. */
  function At(audits: seq<Audit>, r: int): Snapshot
    requires 1 <= r <= |audits| + 1
  {
    if r == 1 then Snapshot(1, DefaultConfig(), "system") else Snapshot(r, audits[r - 2].after, audits[r - 2].actor)
  }

  /** Each record starts from the settings the one before left, and changes them. */
  predicate Link(audits: seq<Audit>, k: nat)
    requires k < |audits|
  {
    var a := audits[k];
    && a.previousRevision == k + 1 && a.revision == k + 2
    && a.before == At(audits, k + 1).config && a.before != a.after && Validate(a.after)
  }

  ghost predicate Chained(audits: seq<Audit>) {
    forall k :: 0 <= k < |audits| ==> Link(audits, k)
  }

  /** The stored row is where the audit trail ends. */
  ghost predicate Trail(s: Store) {
    && Chained(s.audits)
    && if s.row.Some? then s.row.value == At(s.audits, |s.audits| + 1) else s.audits == []
  }

  ghost predicate Known(audits: seq<Audit>, s: Snapshot) {
    1 <= s.revision <= |audits| + 1 && s == At(audits, s.revision)
  }

  ghost predicate Inv(w: World) {
    && Trail(w.store)
    && (w.store.row.None? ==> w.published == map[] && w.inflight == map[])
    && (forall i <- w.published :: Known(w.store.audits, w.published[i]))
    && (forall f <- w.inflight :: Known(w.store.audits, w.inflight[f].snapshot))
  }

  lemma KnownIsAcceptable(audits: seq<Audit>, s: Snapshot)
    requires Chained(audits) && Known(audits, s)
    ensures Acceptable(s)
  {
    if s.revision > 1 { assert Link(audits, s.revision - 2); }
    hide Validate;
  }

  lemma SaveExtendsTrail(s: Store, revision: int, config: RateLimits, actor: string)
    requires Trail(s) && Validate(config)
    ensures var (t, r) := Saved(s, revision, config, actor);
            && Trail(t) && s.audits <= t.audits
            && (r.Ok? ==> Known(t.audits, r.value) && t.row == Some(r.value))
  {
    hide Validate;
    hide DefaultConfig;
    var (t, r) := Saved(s, revision, config, actor);
    if r.Ok? && t != s {
      forall k | 0 <= k < |s.audits| ensures Link(t.audits, k) {
        assert Link(s.audits, k) && At(t.audits, k + 1) == At(s.audits, k + 1);
      }
      assert Link(t.audits, |s.audits|);
    }
  }

  lemma LaterKnows(audits: seq<Audit>, later: seq<Audit>, s: Snapshot)
    requires audits <= later && Known(audits, s)
    ensures Known(later, s)
  {}

  /** What is stored only grows, and what sets out is what is stored. */
  lemma StoreAdvances(w: World, a: Action)
    requires Enabled(w, a) && Inv(w)
    ensures var v := Next(w, a);
            && Trail(v.store) && w.store.audits <= v.store.audits
            && (w.store.row.Some? ==> v.store.row.Some?)
            && forall f <- v.inflight :: (f in w.inflight && v.inflight[f] == w.inflight[f])
                                         || v.store.row == Some(v.inflight[f].snapshot)
  {
    if a.Save? && Validate(a.config) { SaveExtendsTrail(w.store, a.revision, a.config, a.actor); }
    hide Validate;
    hide DefaultConfig;
    hide Chained;
  }

  lemma StepKeepsInv(w: World, a: Action)
    requires Enabled(w, a) && Inv(w)
    ensures Inv(Next(w, a))
  {
    hide Validate;
    hide DefaultConfig;
    hide Saved;
    hide Chained;
    hide Known;
    hide At;
    hide Next;
    hide Enabled;
    var v := Next(w, a);
    StoreAdvances(w, a);
    PublishedIsKnown(w, a);
    forall s: Snapshot | Known(w.store.audits, s) ensures Known(v.store.audits, s) {
      LaterKnows(w.store.audits, v.store.audits, s);
    }
    forall s: Snapshot | v.store.row == Some(s) ensures Known(v.store.audits, s) { StoredIsKnown(v.store, s); }
  }

  lemma StoredIsKnown(store: Store, s: Snapshot)
    requires Trail(store) && store.row == Some(s)
    ensures Known(store.audits, s)
  {
    hide Chained;
    hide DefaultConfig;
  }

  lemma PublishedIsKnown(w: World, a: Action)
    requires Enabled(w, a) && Inv(w)
    ensures var v := Next(w, a);
            && (forall i <- v.published :: Known(w.store.audits, v.published[i]))
            && (v.store.row.None? ==> v.published == map[] && v.inflight == map[])
            && (forall i <- w.published :: i in v.published && w.published[i].revision <= v.published[i].revision)
  {}

  lemma {:induction false} RunInv(ws: seq<World>, acts: seq<Action>, n: nat)
    requires Run(ws, acts) && n < |ws|
    ensures Inv(ws[n])
  {
    if n > 0 {
      RunInv(ws, acts, n - 1);
      assert Enabled(ws[n - 1], acts[n - 1]);
      StepKeepsInv(ws[n - 1], acts[n - 1]);
    }
  }

  /** The audit trail is an unbroken chain with one record for every revision after the first. */
  lemma AuditChain(ws: seq<World>, acts: seq<Action>, n: nat)
    requires Run(ws, acts) && n < |ws|
    ensures var store := ws[n].store;
            && (store.row.Some? ==> |store.audits| == store.row.value.revision - 1)
            && (forall k :: 0 <= k < |store.audits| ==> store.audits[k].before != store.audits[k].after)
            && (forall k :: 0 < k < |store.audits| ==> store.audits[k].before == store.audits[k - 1].after)
            && (store.audits != [] ==> store.audits[0].before == DefaultConfig()
                                       && store.row.Some?
                                       && store.row.value.config == store.audits[|store.audits| - 1].after)
  {
    RunInv(ws, acts, n);
    hide DefaultConfig;
    var audits := ws[n].store.audits;
    forall k | 0 <= k < |audits|
      ensures audits[k].before != audits[k].after
      ensures audits[k].before == if k == 0 then DefaultConfig() else audits[k - 1].after
    {
      assert Link(audits, k);
    }
    if audits != [] { assert Link(audits, 0); }
  }

  lemma {:induction false} AuditsOnlyGrow(ws: seq<World>, acts: seq<Action>, m: nat, n: nat)
    requires Run(ws, acts) && m <= n < |ws|
    ensures ws[m].store.audits <= ws[n].store.audits
  {
    if m < n {
      AuditsOnlyGrow(ws, acts, m, n - 1);
      assert Enabled(ws[n - 1], acts[n - 1]);
      RunInv(ws, acts, n - 1);
      StoreAdvances(ws[n - 1], acts[n - 1]);
      hide *;
    }
  }

  /** Wherever and whenever two instances publish the same revision, they publish the same settings. */
  lemma EqualRevisionsAreEqualSettings(ws: seq<World>, acts: seq<Action>, m: nat, n: nat, i: Instance, j: Instance)
    requires Run(ws, acts) && m <= n < |ws| && i in ws[m].published && j in ws[n].published
    requires ws[m].published[i].revision == ws[n].published[j].revision
    ensures ws[m].published[i] == ws[n].published[j]
  {
    RunInv(ws, acts, m);
    RunInv(ws, acts, n);
    AuditsOnlyGrow(ws, acts, m, n);
  }

  /** What an instance serves never goes back to an earlier revision, and is always valid. */
  lemma {:induction false} PublishedRevisionsRise(ws: seq<World>, acts: seq<Action>, m: nat, n: nat, i: Instance)
    requires Run(ws, acts) && m <= n < |ws| && i in ws[m].published
    ensures i in ws[n].published && ws[m].published[i].revision <= ws[n].published[i].revision
    ensures Validate(ws[n].published[i].config)
  {
    if m < n {
      PublishedRevisionsRise(ws, acts, m, n - 1, i);
      assert Enabled(ws[n - 1], acts[n - 1]);
      RunInv(ws, acts, n - 1);
      PublishedIsKnown(ws[n - 1], acts[n - 1]);
    }
    RunInv(ws, acts, n);
    KnownIsAcceptable(ws[n].store.audits, ws[n].published[i]);
    hide Validate;
    hide Next;
    hide DefaultConfig;
    hide At;
    hide Known;
    hide Chained;
  }

  /** Whatever an instance serves at any time, the limiter can compute with. */
  lemma PublishedRulesAreSane(ws: seq<World>, acts: seq<Action>, n: nat, i: Instance, r: RateRule)
    requires Run(ws, acts) && n < |ws| && i in ws[n].published && r in Rules(ws[n].published[i].config)
    ensures Sane(r.requestsPerSecond, r.burst)
  {
    PublishedRevisionsRise(ws, acts, n, n, i);
    RuleInBoundsIsSane(r);
    hide Rules;
  }

  predicate Changes(w: World, a: Action) {
    && a.Save? && Validate(a.config) && w.store.row.Some?
    && w.store.row.value.revision == a.revision && w.store.row.value.config != a.config
  }

  /** No step from `m` up to `n` changes the settings. */
  ghost predicate Quiet(ws: seq<World>, acts: seq<Action>, m: nat, n: nat)
    requires |ws| == |acts| + 1 && n < |ws|
  {
    forall k {:trigger acts[k]} :: m <= k < n ==> !Changes(ws[k], acts[k])
  }

  /** A save writes if and only if it is valid, was made against the stored revision and changes
      something; then it adds one revision and one record, and otherwise nothing at all. */
  lemma SaveWritesIff(ws: seq<World>, acts: seq<Action>, n: nat)
    requires Run(ws, acts) && n < |acts| && acts[n].Save?
    ensures Changes(ws[n], acts[n]) <==> ws[n + 1].store != ws[n].store
    ensures Changes(ws[n], acts[n]) ==>
              && ws[n + 1].store.row == Some(Snapshot(acts[n].revision + 1, acts[n].config, acts[n].actor))
              && ws[n + 1].store.audits == ws[n].store.audits + [
                   Audit(acts[n].revision, acts[n].revision + 1, ws[n].store.row.value.config,
                         acts[n].config, acts[n].actor)]
  {}

  /** A save succeeds if and only if it is valid and was made against the stored revision; it then
      brings back the settings asked for, which are the stored ones, and no other save brings anything. */
  lemma SaveAnswersIff(ws: seq<World>, acts: seq<Action>, n: nat)
    requires Run(ws, acts) && n < |acts| && acts[n].Save?
    ensures var a, before, after := acts[n], ws[n], ws[n + 1];
            && (a.flight in after.inflight <==>
                  Validate(a.config) && before.store.row.Some? && before.store.row.value.revision == a.revision)
            && (a.flight in after.inflight ==>
                  var s := after.inflight[a.flight].snapshot;
                  && after.store.row == Some(s) && after.inflight[a.flight].instance == a.instance
                  && s.config == a.config
                  && s.revision == a.revision + if before.store.row.value.config == a.config then 0 else 1)
  {}

  /** Of all the saves made against one revision, at most one changes the settings. */
  lemma NoLostUpdate(ws: seq<World>, acts: seq<Action>, m: nat, n: nat)
    requires Run(ws, acts) && m < n < |acts| && Changes(ws[m], acts[m]) && Changes(ws[n], acts[n])
    ensures acts[m].revision < acts[n].revision
  {
    SaveWritesIff(ws, acts, m);
    RunInv(ws, acts, m + 1);
    RunInv(ws, acts, n);
    AuditsOnlyGrow(ws, acts, m + 1, n);
    hide Validate;
    hide DefaultConfig;
    hide Next;
    hide Chained;
    hide Known;
  }

  /** Between two saves that change something, the table does not move. */
  lemma {:induction false} StoreIsStable(ws: seq<World>, acts: seq<Action>, m: nat, n: nat)
    requires Run(ws, acts) && m <= n < |ws| && ws[m].store.row.Some?
    requires Quiet(ws, acts, m, n)
    ensures ws[n].store == ws[m].store
  {
    if m < n {
      StoreIsStable(ws, acts, m, n - 1);
      assert Enabled(ws[n - 1], acts[n - 1]);
    }
    hide Validate;
  }

  /** A snapshot in flight stays as it was read until it arrives or is lost. */
  lemma {:induction false} FlightIsKept(ws: seq<World>, acts: seq<Action>, m: nat, n: nat, f: nat)
    requires Run(ws, acts) && m <= n < |ws| && f in ws[m].inflight
    requires forall k :: m <= k < n ==> acts[k] != Arrive(f) && acts[k] != Lose(f)
    ensures f in ws[n].inflight && ws[n].inflight[f] == ws[m].inflight[f]
  {
    if m < n {
      FlightIsKept(ws, acts, m, n - 1, f);
      assert Enabled(ws[n - 1], acts[n - 1]);
    }
  }

  /** A refresh that both reads and publishes after the last save, completed by step `n`. */
  ghost predicate Refreshed(ws: seq<World>, acts: seq<Action>, since: nat, n: nat, i: Instance)
    requires |ws| == |acts| + 1 && n < |ws|
  {
    exists p, q :: since <= p < q < n && FreshRefresh(acts, p, q, i)
  }

  ghost predicate FreshRefresh(acts: seq<Action>, p: nat, q: nat, i: Instance)
    requires p < q < |acts|
  {
    && acts[p].Fetch? && acts[p].instance == i && acts[q] == Arrive(acts[p].flight)
    && forall k :: p < k < q ==> acts[k] != acts[q] && acts[k] != Lose(acts[p].flight)
  }

  /** Publishing what is stored leaves an instance with what is stored. */
  lemma ArrivalOfStored(w: World, f: nat)
    requires Inv(w) && f in w.inflight && w.store.row == Some(w.inflight[f].snapshot)
    ensures var v := Next(w, Arrive(f));
            v.store == w.store && Current(v, w.inflight[f].instance) == w.store.row
  {
    KnownIsAcceptable(w.store.audits, w.inflight[f].snapshot);
    hide Acceptable;
    hide Chained;
    hide DefaultConfig;
  }

  /** A fetch that nothing overtakes brings back what is stored. */
  lemma FetchBringsStored(ws: seq<World>, acts: seq<Action>, p: nat, q: nat, i: Instance)
    requires Run(ws, acts) && p < q < |acts| && FreshRefresh(acts, p, q, i)
    requires Quiet(ws, acts, p, q)
    ensures i in ws[p].published && ws[p].store.row.Some? && ws[q].store == ws[p].store
    ensures var f := acts[p].flight; f in ws[q].inflight && Some(ws[q].inflight[f].snapshot) == ws[p].store.row
                                     && ws[q].inflight[f].instance == i
  {
    assert Enabled(ws[p], acts[p]);
    RunInv(ws, acts, p);
    FlightIsKept(ws, acts, p + 1, q, acts[p].flight);
    StoreIsStable(ws, acts, p, q);
    hide Chained;
    hide Changes;
    hide DefaultConfig;
    hide Validate;
  }

  lemma LatestIsStored(w: World, i: Instance)
    requires Inv(w) && i in w.published && w.store.row.Some? && w.published[i].revision >= w.store.row.value.revision
    ensures w.store.row == Some(w.published[i])
  {}

  lemma RefreshCatchesUp(ws: seq<World>, acts: seq<Action>, since: nat, p: nat, q: nat, n: nat, i: Instance)
    requires Run(ws, acts) && since <= p < q < n < |ws| && FreshRefresh(acts, p, q, i)
    requires Quiet(ws, acts, since, n)
    ensures i in ws[n].published && ws[n].store.row == Some(ws[n].published[i])
  {
    hide Next;
    hide Chained;
    hide Changes;
    hide Validate;
    hide DefaultConfig;
    hide Inv;
    FetchBringsStored(ws, acts, p, q, i);
    RunInv(ws, acts, q);
    assert Enabled(ws[q], acts[q]);
    ArrivalOfStored(ws[q], acts[p].flight);
    StoreIsStable(ws, acts, p, n);
    PublishedRevisionsRise(ws, acts, q + 1, n, i);
    RunInv(ws, acts, n);
    LatestIsStored(ws[n], i);
  }

  /** One fresh refresh each after the last save makes all instances agree with the table. */
  lemma FreshRefreshesAgree(ws: seq<World>, acts: seq<Action>, since: nat, n: nat)
    requires Run(ws, acts) && since <= n < |ws|
    requires Quiet(ws, acts, since, n)
    ensures forall i | Refreshed(ws, acts, since, n, i) ::
              i in ws[n].published && ws[n].store.row == Some(ws[n].published[i])
  {
    forall i | Refreshed(ws, acts, since, n, i)
      ensures i in ws[n].published && ws[n].store.row == Some(ws[n].published[i])
    {
      var p, q :| since <= p < q < n && FreshRefresh(acts, p, q, i);
      RefreshCatchesUp(ws, acts, since, p, q, n, i);
    }
  }
}
