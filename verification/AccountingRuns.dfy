/** The counters after any run of creations, roll-backs, deletions and edits. */
module AccountingRuns {
  import opened Common
  import opened SubdomainBoundary
  import opened Accounting

  /** One committed creation. */
  datatype Creation = Creation(user: UserId, domain: string, day: Day, mode: Mode)

  datatype World = World(db: Db, day: Day, history: seq<Creation>)

  datatype Action =
    | Create(request: Request, today: Day)
    | Delete(email: string)
    | Edit(after: Db)

  /** Everything else that happens to the tables: rows are added with empty counters, and
      settings, owners, modes and readiness change; nobody else writes the counters. A user's
      daily limit is never negative. */
  ghost predicate KeepsCounters(before: Db, after: Db) {
    && before.domains.Keys <= after.domains.Keys && before.users.Keys <= after.users.Keys
    && (forall n <- after.domains ::
          after.domains[n].created == if n in before.domains then before.domains[n].created else 0)
    && (forall u <- after.users ::
          SameCounters(after.users[u], if u in before.users then before.users[u] else User(true, 0, 0, 0, 0, None)))
    && (forall u <- after.users :: after.users[u].dailyLimit >= 0)
  }

  predicate SameCounters(a: User, b: User) {
    a.publicCreated == b.publicCreated && a.privateCreated == b.privateCreated && a.today == b.today && a.date == b.date
  }

  /** The calendar does not go back. */
  ghost predicate Enabled(w: World, a: Action) {
    match a
    case Create(_, today) => w.day <= today
    case Delete(_) => true
    case Edit(after) => KeepsCounters(w.db, after)
  }

  function Next(w: World, a: Action): World {
    match a
    case Create(r, today) =>
      if Refusal(w.db, r, today).Some? then w.(day := today)
      else World(Committed(w.db, r, today), today,
                 w.history + [Creation(r.owner, r.domain, today, w.db.domains[r.domain].mode)])
    case Delete(email) => w.(db := w.db.(mailboxes := w.db.mailboxes - {email}))
    case Edit(after) => w.(db := after)
  }

  ghost predicate Run(ws: seq<World>, acts: seq<Action>) {
    && |ws| == |acts| + 1 && ws[0] == World(Db(map[], map[], map[], {}, Quota(false, 0, 0)), 0, [])
    && forall i {:trigger acts[i]} :: 0 <= i < |acts| ==> Enabled(ws[i], acts[i]) && ws[i + 1] == Next(ws[i], acts[i])
  }

  // ---- Tallies ---------------------------------------------------------------------------

  datatype Key =
    | ByDomain(name: string)
    | ByPublicUser(user: UserId)
    | ByPrivateUser(user: UserId)
    | ByDay(user: UserId, day: Day)

  predicate Counts(k: Key, c: Creation) {
    match k
    case ByDomain(name) => c.domain == name
    case ByPublicUser(u) => c.user == u && c.mode == Public
    case ByPrivateUser(u) => c.user == u && c.mode == Private
    case ByDay(u, day) => c.user == u && c.mode == Public && c.day == day
  }

  function Tally(h: seq<Creation>, k: Key): nat {
    if h == [] then 0 else Tally(h[..|h| - 1], k) + if Counts(k, h[|h| - 1]) then 1 else 0
  }

  lemma TallyOfAppend(h: seq<Creation>, c: Creation, k: Key)
    ensures Tally(h + [c], k) == Tally(h, k) + if Counts(k, c) then 1 else 0
  {}

  lemma {:induction false} TallyOfNone(h: seq<Creation>, k: Key)
    requires forall c <- h :: !Counts(k, c)
    ensures Tally(h, k) == 0
  {
    if h != [] { TallyOfNone(h[..|h| - 1], k); }
  }

  // ---- The counters are tallies -----------------------------------------------------------

  predicate UserCounts(u: UserId, row: User, h: seq<Creation>) {
    && row.publicCreated == Tally(h, ByPublicUser(u))
    && row.privateCreated == Tally(h, ByPrivateUser(u))
    && (row.date.Some? ==> row.today == Tally(h, ByDay(u, row.date.value)))
  }

  /** No public mailbox of the user is later than the date in its row. */
  predicate Dated(u: UserId, row: User, c: Creation) {
    c.user == u && c.mode == Public ==> row.date.Some? && c.day <= row.date.value
  }

  ghost predicate Inv(w: World) {
    && (forall n <- w.db.domains :: w.db.domains[n].created == Tally(w.history, ByDomain(n)))
    && (forall u <- w.db.users :: UserCounts(u, w.db.users[u], w.history))
    && (forall c <- w.history :: c.domain in w.db.domains && c.user in w.db.users && c.day <= w.day)
    && (forall u <- w.db.users, c <- w.history :: Dated(u, w.db.users[u], c))
    && (forall u <- w.db.users :: w.db.users[u].date.Some? ==> w.db.users[u].date.value <= w.day)
    && (forall u <- w.db.users :: w.db.users[u].dailyLimit >= 0)
  }

  lemma UserStaysCounted(u: UserId, row: User, h: seq<Creation>, c: Creation)
    requires UserCounts(u, row, h) && c.user != u
    ensures UserCounts(u, row, h + [c])
  {}

  /** Counting a creation in the row of its user is counting it in the history; this needs the
      calendar not to go back. */
  lemma CreationIsCounted(u: UserId, row: User, h: seq<Creation>, c: Creation)
    requires UserCounts(u, row, h) && c.user == u && (row.date.Some? ==> row.date.value <= c.day)
    requires forall e <- h :: Dated(u, row, e)
    ensures UserCounts(u, if c.mode == Public then CountPublic(row, c.day) else CountPrivate(row), h + [c])
  {
    hide Tally;
    TallyOfAppend(h, c, ByPublicUser(u));
    TallyOfAppend(h, c, ByPrivateUser(u));
    TallyOfAppend(h, c, ByDay(u, c.day));
    if row.date.Some? { TallyOfAppend(h, c, ByDay(u, row.date.value)); }
    if row.date != Some(c.day) {
      forall e <- h ensures !Counts(ByDay(u, c.day), e) { assert Dated(u, row, e); }
      TallyOfNone(h, ByDay(u, c.day));
    }
    hide Dated;
  }

  lemma CreateKeepsInv(w: World, a: Action)
    requires Enabled(w, a) && Inv(w) && a.Create? && Refusal(w.db, a.request, a.today).None?
    ensures Inv(Next(w, a))
  {
    var v := Next(w, a);
    var c := v.history[|w.history|];
    assert v.history == w.history + [c];
    forall n <- v.db.domains ensures v.db.domains[n].created == Tally(v.history, ByDomain(n)) {
      TallyOfAppend(w.history, c, ByDomain(n));
    }
    forall u <- v.db.users ensures UserCounts(u, v.db.users[u], v.history) {
      if u == c.user { CreationIsCounted(u, w.db.users[u], w.history, c); }
      else { UserStaysCounted(u, w.db.users[u], w.history, c); }
    }
    hide Refusal;
    hide UserCounts;
    hide Tally;
  }

  lemma EditKeepsInv(w: World, a: Action)
    requires Enabled(w, a) && Inv(w) && a.Edit?
    ensures Inv(Next(w, a))
  {
    forall u <- a.after.users ensures UserCounts(u, a.after.users[u], w.history) {
      if u !in w.db.users {
        TallyOfNone(w.history, ByPublicUser(u));
        TallyOfNone(w.history, ByPrivateUser(u));
      }
    }
    forall n <- a.after.domains | n !in w.db.domains ensures Tally(w.history, ByDomain(n)) == 0 {
      TallyOfNone(w.history, ByDomain(n));
    }
    hide Tally;
  }

  lemma {:induction false} RunInv(ws: seq<World>, acts: seq<Action>, i: nat)
    requires Run(ws, acts) && i < |ws|
    ensures Inv(ws[i])
  {
    if i > 0 {
      RunInv(ws, acts, i - 1);
      var w, a := ws[i - 1], acts[i - 1];
      assert Enabled(w, a);
      if a.Edit? { EditKeepsInv(w, a); }
      else if a.Create? && Refusal(w.db, a.request, a.today).None? { CreateKeepsInv(w, a); }
      hide Refusal;
      hide Tally;
    }
  }

  // ---- Conservation ------------------------------------------------------------------------

  ghost function Sum<K(!new)>(m: map<K, nat>): nat {
    if m == map[] then 0 else var k :| k in m; m[k] + Sum(m - {k})
  }

  lemma {:induction false} SumTakesOut<K(!new)>(m: map<K, nat>, x: K)
    requires x in m
    ensures Sum(m) == m[x] + Sum(m - {x})
    decreases |m|
  {
    var k :| k in m && Sum(m) == m[k] + Sum(m - {k});
    if k != x {
      SumTakesOut(m - {k}, x);
      SumTakesOut(m - {x}, k);
      assert m - {k} - {x} == m - {x} - {k};
    }
  }

  lemma SumAddsOne<K(!new)>(m: map<K, nat>, n: map<K, nat>, x: K)
    requires m.Keys == n.Keys && x in m && n[x] == m[x] + 1
    requires forall k <- m :: k != x ==> n[k] == m[k]
    ensures Sum(n) == Sum(m) + 1
  {
    SumTakesOut(m, x);
    SumTakesOut(n, x);
    assert n - {x} == m - {x};
  }

  lemma {:induction false} SumOfZeros<K(!new)>(m: map<K, nat>)
    requires forall k <- m :: m[k] == 0
    ensures Sum(m) == 0
    decreases |m|
  {
    if m != map[] {
      var k :| k in m;
      SumTakesOut(m, k);
      SumOfZeros(m - {k});
    }
  }

  function DomainTallies(names: set<string>, h: seq<Creation>): map<string, nat> {
    map n | n in names :: Tally(h, ByDomain(n))
  }

  function UserTallies(users: set<UserId>, h: seq<Creation>): map<UserId, nat> {
    map u | u in users :: Tally(h, ByPublicUser(u)) + Tally(h, ByPrivateUser(u))
  }

  /** Every creation is in one domain. */
  lemma {:induction false} DomainTalliesSumUp(names: set<string>, h: seq<Creation>)
    requires forall c <- h :: c.domain in names
    ensures Sum(DomainTallies(names, h)) == |h|
    decreases |h|
  {
    if h == [] {
      SumOfZeros(DomainTallies(names, h));
    } else {
      hide Sum;
      hide Tally;
      var rest, c := h[..|h| - 1], h[|h| - 1];
      assert h == rest + [c];
      DomainTalliesSumUp(names, rest);
      var m, n := DomainTallies(names, rest), DomainTallies(names, h);
      forall d | d in names
        ensures n[d] == m[d] + if d == c.domain then 1 else 0
      {
        TallyOfAppend(rest, c, ByDomain(d));
      }
      SumAddsOne(m, n, c.domain);
    }
  }

  /** Every creation is by one user. */
  lemma {:induction false} UserTalliesSumUp(users: set<UserId>, h: seq<Creation>)
    requires forall c <- h :: c.user in users
    ensures Sum<UserId>(UserTallies(users, h)) == |h|
    decreases |h|
  {
    if h == [] {
      SumOfZeros<UserId>(UserTallies(users, h));
    } else {
      hide Sum;
      hide Tally;
      var rest, c := h[..|h| - 1], h[|h| - 1];
      assert h == rest + [c];
      UserTalliesSumUp(users, rest);
      var m, n := UserTallies(users, rest), UserTallies(users, h);
      forall u: UserId | u in users ensures n[u] == m[u] + if u == c.user then 1 else 0 {
        TallyOfAppend(rest, c, ByPublicUser(u));
        TallyOfAppend(rest, c, ByPrivateUser(u));
      }
      SumAddsOne<UserId>(m, n, c.user);
    }
  }

  function DomainCounters(db: Db): map<string, nat> { map n | n in db.domains :: db.domains[n].created }

  function UserCounters(db: Db): map<UserId, nat> {
    map u | u in db.users :: db.users[u].publicCreated + db.users[u].privateCreated
  }

  /** What the domains have counted and what the users have counted is the same number of
      mailboxes: those whose creation was committed, deleted since or not. */
  lemma CountersAgree(ws: seq<World>, acts: seq<Action>, i: nat)
    requires Run(ws, acts) && i < |ws|
    ensures Sum(DomainCounters(ws[i].db)) == Sum<UserId>(UserCounters(ws[i].db)) == |ws[i].history|
  {
    RunInv(ws, acts, i);
    var db, h := ws[i].db, ws[i].history;
    DomainTalliesSumUp(db.domains.Keys, h);
    UserTalliesSumUp(db.users.Keys, h);
    assert DomainCounters(db) == DomainTallies(db.domains.Keys, h);
    assert UserCounters(db) == UserTallies(db.users.Keys, h);
  }

  /** A creation that is rolled back leaves every table as it was. */
  lemma RollbackChangesNothing(ws: seq<World>, acts: seq<Action>, i: nat)
    requires Run(ws, acts) && i < |acts| && acts[i].Create?
    ensures ws[i + 1].history == ws[i].history ==> ws[i + 1].db == ws[i].db
    ensures |ws[i + 1].db.mailboxes| > |ws[i].db.mailboxes| <==> ws[i + 1].history != ws[i].history
  {}

  // ---- Limits ------------------------------------------------------------------------------

  /** Who creates a public mailbox within the rules has created, that day and with this one, no
      more than each limit in force allows. */
  lemma DailyLimitsHold(ws: seq<World>, acts: seq<Action>, i: nat)
    requires Run(ws, acts) && i < |acts| && acts[i].Create? && ws[i + 1].history != ws[i].history
    requires acts[i].request.domain in ws[i].db.domains && ws[i].db.domains[acts[i].request.domain].mode == Public
    requires !IsAdmin(acts[i].request.actor)
    ensures var r, today, w := acts[i].request, acts[i].today, ws[i];
            var made := Tally(ws[i + 1].history, ByDay(r.owner, today));
            && r.owner in w.db.users && made > 0
            && (w.db.quota.dailyLimit > 0 ==> made <= w.db.quota.dailyLimit)
            && (w.db.users[r.owner].dailyLimit > 0 ==> made <= w.db.users[r.owner].dailyLimit)
            && (ws[i + 1].db.users[r.owner].today == made)
  {
    assert Enabled(ws[i], acts[i]);
    RunInv(ws, acts, i + 1);
    var u := ws[i + 1].db.users[acts[i].request.owner];
    assert UserCounts(acts[i].request.owner, u, ws[i + 1].history);
    hide Tally;
    hide Available;
    hide OwnsCapableDomain;
  }

  /** A limit of zero is none. */
  predicate Allows(limit: int, made: nat) { limit == 0 || made <= limit }

  /** In every reachable state the guard on the user's row admits one more public mailbox exactly if,
      with it, the user has made no more that day than each limit allows: the columns it reads are
      as good as the whole history. */
  lemma DailyGuardIsExact(ws: seq<World>, acts: seq<Action>, i: nat, u: UserId, today: Day)
    requires Run(ws, acts) && i < |ws| && u in ws[i].db.users && ws[i].day <= today
    ensures var row, made := ws[i].db.users[u], Tally(ws[i].history, ByDay(u, today));
            WithinDay(row, ws[i].db.quota, today) <==>
              Allows(row.dailyLimit, made + 1)
                && (ws[i].db.quota.dailyLimit > 0 ==> made + 1 <= ws[i].db.quota.dailyLimit)
  {
    RunInv(ws, acts, i);
    var row, h := ws[i].db.users[u], ws[i].history;
    assert UserCounts(u, row, h);
    if row.date != Some(today) {
      forall c <- h ensures !Counts(ByDay(u, today), c) { assert Dated(u, row, c); }
      TallyOfNone(h, ByDay(u, today));
    }
    hide Tally;
  }

  /** Nobody but its owner and administrators takes a public domain past its limit. */
  lemma DomainLimitHolds(ws: seq<World>, acts: seq<Action>, i: nat)
    requires Run(ws, acts) && i < |acts| && acts[i].Create? && ws[i + 1].history != ws[i].history
    requires acts[i].request.domain in ws[i].db.domains && !IsAdmin(acts[i].request.actor)
    requires !IsOwner(ws[i].db.domains[acts[i].request.domain], acts[i].request.actor)
    requires ws[i].db.domains[acts[i].request.domain].mode == Public && ws[i].db.quota.domainLimit > 0
    ensures Tally(ws[i + 1].history, ByDomain(acts[i].request.domain)) <= ws[i].db.quota.domainLimit
  {
    assert Enabled(ws[i], acts[i]);
    RunInv(ws, acts, i + 1);
    hide Tally;
    hide Available;
    hide OwnsCapableDomain;
  }
}
