/** Which creations are committed, told by the history of what was created before. */
module AccountingRules {
  import opened Common
  import opened SubdomainBoundary
  import opened Accounting
  import opened AccountingRuns

  /** The rules, in words of the tables and the history; what was counted is not looked at. */
  ghost predicate Violates(w: World, r: Request, today: Day, e: Error) {
    match e
    case NoDomain => r.domain !in w.db.domains
    case NotReady => r.domain in w.db.domains && !Serves(w.db.domains[r.domain], r.wildcard)
    case HostTaken =>
      r.domain in w.db.domains && r.wildcard
      && !Available(RegistryOf(w.db.domains), r.host, Some(w.db.domains[r.domain].info))
    case NotOwner =>
      r.domain in w.db.domains && w.db.domains[r.domain].mode == Private
      && w.db.domains[r.domain].owner != Some(r.owner)
    case NoUser => r.owner !in w.db.users
    case DuplicateEmail => r.email in w.db.mailboxes
    case NeedsPublicDomain =>
      OnPublic(w, r) && !Administers(r) && w.db.quota.requirePublicDomain
      && forall n <- w.db.domains :: w.db.domains[n].owner == Some(r.owner) ==> !Contributes(w.db.domains[n])
    case DomainFull =>
      OnPublic(w, r) && !Administers(r) && !ActsForOwner(r, w.db.domains[r.domain])
      && 0 < w.db.quota.domainLimit <= Tally(w.history, ByDomain(r.domain))
    case DailyQuota =>
      OnPublic(w, r) && r.owner in w.db.users
      && (!w.db.users[r.owner].enabled
          || (!Administers(r) && OverDay(w.db.users[r.owner].dailyLimit, w.db.quota.dailyLimit,
                                         Tally(w.history, ByDay(r.owner, today)) + 1)))
    case DuplicateShare => r.share.Some? && r.share.value in w.db.shares
  }

  predicate Serves(d: DomainRow, wildcard: bool) {
    d.info.active && if wildcard then d.info.wildcardEnabled else d.info.mxVerified
  }

  /** A public domain that is of use to others. */
  predicate Contributes(d: DomainRow) {
    d.mode == Public && d.info.active && (d.info.mxVerified || d.info.wildcardEnabled)
  }

  predicate OnPublic(w: World, r: Request) { r.domain in w.db.domains && w.db.domains[r.domain].mode == Public }

  predicate Administers(r: Request) { r.actor.Some? && r.actor.value.admin }

  predicate ActsForOwner(r: Request, d: DomainRow) {
    r.actor.Some? && r.actor.value.owner.Some? && d.owner == r.actor.value.owner
  }

  /** Limits of zero are none. */
  predicate OverDay(own: int, general: int, made: int) { (own > 0 && made > own) || (general > 0 && made > general) }

  function Rank(e: Error): nat {
    match e
    case NoDomain => 0
    case NotReady => 1
    case HostTaken => 2
    case NotOwner => 3
    case NoUser => 4
    case DuplicateEmail => 5
    case NeedsPublicDomain => 6
    case DomainFull => 7
    case DailyQuota => 8
    case DuplicateShare => 9
  }

  ghost predicate First(w: World, r: Request, today: Day, e: Error) {
    Violates(w, r, today, e) && forall f :: Rank(f) < Rank(e) ==> !Violates(w, r, today, f)
  }

  /** In every reachable state a creation is refused for the first rule that it violates, if it
      violates one. */
  lemma RefusedForTheFirst(ws: seq<World>, acts: seq<Action>, i: nat, r: Request, today: Day)
    requires Run(ws, acts) && i < |ws| && ws[i].day <= today
    ensures forall e :: Refusal(ws[i].db, r, today) == Some(e) <==> First(ws[i], r, today, e)
  {
    RunInv(ws, acts, i);
    if r.owner in ws[i].db.users { DailyGuardIsExact(ws, acts, i, r.owner, today); }
    hide Run;
    FirstOfAll(ws[i], r, today);
  }

  lemma FirstOfAll(w: World, r: Request, today: Day)
    requires Inv(w)
    requires r.owner in w.db.users ==>
               var row, made := w.db.users[r.owner], Tally(w.history, ByDay(r.owner, today)) + 1;
               WithinDay(row, w.db.quota, today) <==> !OverDay(row.dailyLimit, w.db.quota.dailyLimit, made)
    ensures forall e :: Refusal(w.db, r, today) == Some(e) <==> First(w, r, today, e)
  {
    hide Refusal;
    hide Violates;
    forall e ensures Refusal(w.db, r, today) == Some(e) ==> First(w, r, today, e) {
      if Refusal(w.db, r, today) == Some(e) { RefusalIsFirst(w, r, today); }
    }
    if Refusal(w.db, r, today).None? { RefusalIsFirst(w, r, today); }
    forall e | First(w, r, today, e) ensures Refusal(w.db, r, today) == Some(e) {
      if Refusal(w.db, r, today).Some? {
        OneIsFirst(w, r, today, e, Refusal(w.db, r, today).value);
      }
    }
  }

  lemma OneIsFirst(w: World, r: Request, today: Day, e: Error, f: Error)
    requires First(w, r, today, e) && First(w, r, today, f)
    ensures e == f
  {
    hide Violates;
    SameRank(e, f);
  }

  lemma SameRank(e: Error, f: Error)
    requires Rank(e) == Rank(f)
    ensures e == f
  {}

  lemma RefusalIsFirst(w: World, r: Request, today: Day)
    requires Inv(w)
    requires r.owner in w.db.users ==>
               var row, made := w.db.users[r.owner], Tally(w.history, ByDay(r.owner, today)) + 1;
               WithinDay(row, w.db.quota, today) <==> !OverDay(row.dailyLimit, w.db.quota.dailyLimit, made)
    ensures match Refusal(w.db, r, today)
            case Some(e) => First(w, r, today, e)
            case None => forall e :: !Violates(w, r, today, e)
  {
    hide Tally;
    hide Available;
    hide WithinDay;
    hide OverDay;
    if r.domain in w.db.domains { CapableOwners(w, r); }
    hide OwnsCapableDomain;
  }

  lemma CapableOwners(w: World, r: Request)
    ensures OwnsCapableDomain(w.db.domains, r.owner) <==>
            exists n <- w.db.domains :: w.db.domains[n].owner == Some(r.owner) && Contributes(w.db.domains[n])
  {
    forall n <- w.db.domains ensures Contributes(w.db.domains[n]) == Capable(w.db.domains[n]) {}
    hide Contributes;
    hide Capable;
  }

  /** A creation is committed if and only if it violates no rule. */
  lemma CommitsIff(ws: seq<World>, acts: seq<Action>, i: nat)
    requires Run(ws, acts) && i < |acts| && acts[i].Create?
    ensures ws[i + 1].history != ws[i].history <==>
            forall e :: !Violates(ws[i], acts[i].request, acts[i].today, e)
  {
    var r, today := acts[i].request, acts[i].today;
    assert Enabled(ws[i], acts[i]);
    RefusedForTheFirst(ws, acts, i, r, today);
    FirstExists(ws[i], r, today);
    hide Refusal;
    hide Violates;
  }

  /** If any rule is violated, one is violated first. */
  lemma FirstExists(w: World, r: Request, today: Day)
    ensures (exists e :: Violates(w, r, today, e)) ==> exists e :: First(w, r, today, e)
  {
    hide Violates;
    if e :| Violates(w, r, today, e) {
      var first := Descend(w, r, today, e);
    }
  }

  lemma {:induction false} Descend(w: World, r: Request, today: Day, e: Error) returns (first: Error)
    requires Violates(w, r, today, e)
    ensures First(w, r, today, first)
    decreases Rank(e)
  {
    hide Violates;
    first := e;
    if f :| Rank(f) < Rank(e) && Violates(w, r, today, f) { first := Descend(w, r, today, f); }
  }

  /** A committed creation adds its mailbox, its share and its place in the history, and changes nothing
      but the counters of the two rows that count it. */
  lemma CommitAddsMailbox(ws: seq<World>, acts: seq<Action>, i: nat)
    requires Run(ws, acts) && i < |acts| && acts[i].Create? && ws[i + 1].history != ws[i].history
    ensures var r, before, after := acts[i].request, ws[i].db, ws[i + 1].db;
            && r.domain in before.domains && r.owner in before.users && r.email !in before.mailboxes
            && after.mailboxes == before.mailboxes[r.email := Mailbox(r.owner, r.local, r.host, r.domain)]
            && after.shares == (if r.share.Some? then before.shares + {r.share.value} else before.shares)
            && after.quota == before.quota
            && after.domains.Keys == before.domains.Keys && after.users.Keys == before.users.Keys
            && (forall n <- before.domains ::
                  after.domains[n] == before.domains[n].(created := after.domains[n].created))
            && (forall u <- before.users :: u != r.owner ==> after.users[u] == before.users[u])
            && after.users[r.owner].enabled == before.users[r.owner].enabled
            && after.users[r.owner].dailyLimit == before.users[r.owner].dailyLimit
            && ws[i + 1].history == ws[i].history + [
                 Creation(r.owner, r.domain, acts[i].today, before.domains[r.domain].mode)]
  {
    assert Enabled(ws[i], acts[i]);
    hide Available;
    hide OwnsCapableDomain;
    hide WithinDay;
  }

  /** A private domain serves its owner and nobody else, administrators included. */
  lemma PrivateDomainsServeTheirOwners(ws: seq<World>, acts: seq<Action>, i: nat)
    requires Run(ws, acts) && i < |acts| && acts[i].Create? && ws[i + 1].history != ws[i].history
    requires acts[i].request.domain in ws[i].db.domains && ws[i].db.domains[acts[i].request.domain].mode == Private
    ensures ws[i].db.domains[acts[i].request.domain].owner == Some(acts[i].request.owner)
  {
    CommitsIff(ws, acts, i);
    assert !Violates(ws[i], acts[i].request, acts[i].today, NotOwner);
  }

  /** A disabled user gets no public mailbox, not even from an administrator. */
  lemma DisabledUsersGetNone(ws: seq<World>, acts: seq<Action>, i: nat)
    requires Run(ws, acts) && i < |acts| && acts[i].Create? && ws[i + 1].history != ws[i].history
    requires acts[i].request.domain in ws[i].db.domains && ws[i].db.domains[acts[i].request.domain].mode == Public
    ensures acts[i].request.owner in ws[i].db.users && ws[i].db.users[acts[i].request.owner].enabled
  {
    CommitsIff(ws, acts, i);
    assert !Violates(ws[i], acts[i].request, acts[i].today, NoUser);
    assert !Violates(ws[i], acts[i].request, acts[i].today, DailyQuota);
  }

  /** Where the rule is in force, who takes from the public domains has put one there that works. */
  lemma TakersContribute(ws: seq<World>, acts: seq<Action>, i: nat)
    requires Run(ws, acts) && i < |acts| && acts[i].Create? && ws[i + 1].history != ws[i].history
    requires acts[i].request.domain in ws[i].db.domains && ws[i].db.domains[acts[i].request.domain].mode == Public
    requires ws[i].db.quota.requirePublicDomain
    ensures Administers(acts[i].request)
            || exists n <- ws[i].db.domains ::
                 ws[i].db.domains[n].owner == Some(acts[i].request.owner) && Contributes(ws[i].db.domains[n])
  {
    CommitsIff(ws, acts, i);
    assert !Violates(ws[i], acts[i].request, acts[i].today, NeedsPublicDomain);
    hide Contributes;
  }

  /** A share token is handed out once. */
  lemma SharesAreHandedOutOnce(ws: seq<World>, acts: seq<Action>, i: nat)
    requires Run(ws, acts) && i < |acts| && acts[i].Create? && acts[i].request.share.Some?
    ensures ws[i + 1].history != ws[i].history ==>
              acts[i].request.share.value !in ws[i].db.shares && acts[i].request.share.value in ws[i + 1].db.shares
    ensures acts[i].request.share.value in ws[i].db.shares ==> ws[i + 1].db == ws[i].db
  {
    CommitsIff(ws, acts, i);
    assert Violates(ws[i], acts[i].request, acts[i].today, DuplicateShare)
           <==> acts[i].request.share.value in ws[i].db.shares;
    RollbackChangesNothing(ws, acts, i);
    if ws[i + 1].history != ws[i].history { CommitAddsMailbox(ws, acts, i); }
    hide Violates;
    hide Run;
  }

  // ---- The list of domains to choose from ------------------------------------------------------------

  /** A public domain of the list is offered exactly if a creation on it would be refused neither for the
      public-domain rule nor for the domain's limit. */
  lemma OfferedIff(w: World, rows: seq<DomainRow>, r: Request, today: Day)
    requires Inv(w) && OnPublic(w, r) && w.db.domains[r.domain] in rows
    requires r.actor.Some? && (r.actor.value.admin || r.actor.value.owner == Some(r.owner))
    ensures w.db.domains[r.domain] in Offered(rows, w.db.domains, r.actor, w.db.quota) <==>
            !Violates(w, r, today, NeedsPublicDomain) && !Violates(w, r, today, DomainFull)
  {
    RoomyIff(rows, r.actor, w.db.quota, w.db.domains[r.domain]);
    hide Roomy;
    hide Tally;
    hide WithinDay;
  }

  /** Where nobody is signed in, the public-domain rule keeps nothing back: the limit alone decides. */
  lemma NobodyIsOfferedWhatHasRoom(rows: seq<DomainRow>, domains: map<string, DomainRow>, quota: Quota, d: DomainRow)
    requires d.mode == Public
    ensures d in Offered(rows, domains, None, quota) <==>
            d in rows && (quota.domainLimit > 0 ==> d.created < quota.domainLimit)
  {
    RoomyIff(rows, None, quota, d);
    hide Roomy;
  }

  lemma {:induction false} RoomyIff(rows: seq<DomainRow>, actor: Option<Actor>, quota: Quota, d: DomainRow)
    ensures d in Roomy(rows, actor, quota) <==> d in rows && HasRoom(d, actor, quota)
    decreases |rows|
  {
    hide HasRoom;
    if rows != [] {
      var rest, last := rows[..|rows| - 1], rows[|rows| - 1];
      RoomyIff(rest, actor, quota, d);
      assert rows == rest + [last];
    }
  }

  /** The order of the list is kept. */
  lemma {:induction false} RoomyInOrder(rows: seq<DomainRow>, more: seq<DomainRow>, actor: Option<Actor>, quota: Quota)
    ensures Roomy(rows + more, actor, quota) == Roomy(rows, actor, quota) + Roomy(more, actor, quota)
    decreases |more|
  {
    if more == [] {
      assert rows + more == rows;
    } else {
      var rest := more[..|more| - 1];
      assert (rows + more)[..|rows + more| - 1] == rows + rest;
      RoomyInOrder(rows, rest, actor, quota);
    }
    hide HasRoom;
  }
}
