/** Creating a mailbox in one transaction with the counters of its domain and its owner. */
module Accounting {
  import opened Common
  import opened Resolver
  import opened SubdomainBoundary

  type UserId = nat

  type Day = nat

  datatype Mode = Public | Private

  datatype DomainRow = DomainRow(info: Domain, mode: Mode, owner: Option<UserId>, created: nat)

  /** `date` is the day that `today` counts; it is empty before the first public mailbox. */
  datatype User = User(enabled: bool, dailyLimit: int, publicCreated: nat, privateCreated: nat, today: nat,
                       date: Option<Day>)

  datatype Quota = Quota(requirePublicDomain: bool, domainLimit: int, dailyLimit: int)

  datatype Mailbox = Mailbox(owner: UserId, local: string, host: string, domain: string)

  /** Domains are keyed by their unique names, mailboxes by their unique addresses. */
  datatype Db = Db(domains: map<string, DomainRow>, users: map<UserId, User>, mailboxes: map<string, Mailbox>,
                   shares: set<string>, quota: Quota)

  /** Who asks; a bound user makes an owner, and an administrator's session has both. */
  datatype Actor = Actor(admin: bool, owner: Option<UserId>)

  predicate IsAdmin(actor: Option<Actor>) { actor.Some? && actor.value.admin }

  function OwnerOf(actor: Option<Actor>): Option<UserId> { if actor.Some? then actor.value.owner else None }

  datatype Request = Request(owner: UserId, domain: string, email: string, local: string, host: string,
                             wildcard: bool, actor: Option<Actor>, share: Option<string>)

  datatype Error = NoDomain | NotReady | HostTaken | NotOwner | NoUser | DuplicateEmail | NeedsPublicDomain
                 | DomainFull | DailyQuota | DuplicateShare

  function RegistryOf(domains: map<string, DomainRow>): Registry { map name | name in domains :: domains[name].info }

  predicate Capable(d: DomainRow) { d.mode == Public && d.info.active && (d.info.mxVerified || d.info.wildcardEnabled) }

  predicate OwnsCapableDomain(domains: map<string, DomainRow>, u: UserId) {
    exists name <- domains :: domains[name].owner == Some(u) && Capable(domains[name])
  }

  predicate IsOwner(d: DomainRow, actor: Option<Actor>) { OwnerOf(actor).Some? && d.owner == OwnerOf(actor) }

  /** The domain's limit binds whoever is neither an administrator nor its owner. */
  predicate HasRoom(d: DomainRow, actor: Option<Actor>, quota: Quota) {
    d.mode == Public && !IsAdmin(actor) && !IsOwner(d, actor) && quota.domainLimit > 0 ==> d.created < quota.domainLimit
  }

  predicate WithinDay(u: User, quota: Quota, today: Day) {
    && (quota.dailyLimit > 0 ==> u.date != Some(today) || u.today < quota.dailyLimit)
    && (u.dailyLimit == 0 || u.date != Some(today) || u.today < u.dailyLimit)
  }

  function CountPublic(u: User, today: Day): User {
    u.(publicCreated := u.publicCreated + 1,
       today := if u.date == Some(today) then u.today + 1 else 1,
       date := Some(today))
  }

  function CountPrivate(u: User): User { u.(privateCreated := u.privateCreated + 1) }

  /** The rule on counting a mailbox that is violated first, if any. */
  function CountingRefusal(domains: map<string, DomainRow>, d: DomainRow, u: User, r: Request, quota: Quota,
                           today: Day): Option<Error> {
    if d.mode == Private then None
    else if !IsAdmin(r.actor) && quota.requirePublicDomain && !OwnsCapableDomain(domains, r.owner) then
      Some(NeedsPublicDomain)
    else if !HasRoom(d, r.actor, quota) then Some(DomainFull)
    else if !u.enabled || (!IsAdmin(r.actor) && !WithinDay(u, quota, today)) then Some(DailyQuota)
    else None
  }

  /** Why the transaction is rolled back, if it is. */
  function Refusal(db: Db, r: Request, today: Day): Option<Error> {
    if r.domain !in db.domains then Some(NoDomain)
    else
      var d := db.domains[r.domain];
      if r.wildcard && !WildcardReady(d.info) then Some(NotReady)
      else if r.wildcard && !Available(RegistryOf(db.domains), r.host, Some(d.info)) then Some(HostTaken)
      else if !r.wildcard && !RootMailboxReady(d.info) then Some(NotReady)
      else if d.mode == Private && d.owner != Some(r.owner) then Some(NotOwner)
      else if r.owner !in db.users then Some(NoUser)
      else if r.email in db.mailboxes then Some(DuplicateEmail)
      else if CountingRefusal(db.domains, d, db.users[r.owner], r, db.quota, today).Some? then
        CountingRefusal(db.domains, d, db.users[r.owner], r, db.quota, today)
      else if r.share.Some? && r.share.value in db.shares then Some(DuplicateShare)
      else None
  }

  /** What the transaction commits when nothing refuses it. */
  function Committed(db: Db, r: Request, today: Day): Db
    requires Refusal(db, r, today).None?
  {
    var d, u := db.domains[r.domain], db.users[r.owner];
    db.(domains := db.domains[r.domain := d.(created := d.created + 1)],
        users := db.users[r.owner := if d.mode == Public then CountPublic(u, today) else CountPrivate(u)],
        mailboxes := db.mailboxes[r.email := Mailbox(r.owner, r.local, r.host, r.domain)],
        shares := if r.share.Some? then db.shares + {r.share.value} else db.shares)
  }

  /** The tables, changed statement by statement and rolled back on an error. */
  class Tables {
    var domains: map<string, DomainRow>
    var users: map<UserId, User>
    var mailboxes: map<string, Mailbox>
    var shares: set<string>
    var quota: Quota

    function Value(): Db reads this { Db(domains, users, mailboxes, shares, quota) }

    constructor (db: Db)
      ensures Value() == db
    {
      domains, users, mailboxes, shares, quota := db.domains, db.users, db.mailboxes, db.shares, db.quota;
    }

    method CreateMailboxWithAccounting(r: Request, today: Day) returns (error: Option<Error>)
      modifies this
      ensures error == Refusal(old(Value()), r, today)
      ensures Value() == if error.None? then Committed(old(Value()), r, today) else old(Value())
    {
      hide Available;
      hide OwnsCapableDomain;
      var before := Value();
      error := CreateInTransaction(r, today);
      if error.Some? {
        domains, users, mailboxes, shares := before.domains, before.users, before.mailboxes, before.shares;
      }
    }

    method CreateInTransaction(r: Request, today: Day) returns (error: Option<Error>)
      modifies this
      ensures error == Refusal(old(Value()), r, today)
      ensures error.None? ==> Value() == Committed(old(Value()), r, today)
      ensures quota == old(quota)
    {
      hide Available;
      hide OwnsCapableDomain;
      if r.domain !in domains {
        return Some(NoDomain);
      }
      var d := domains[r.domain];
      if r.wildcard {
        if !WildcardReady(d.info) {
          return Some(NotReady);
        }
        var available := EnsureSubdomainHostAvailable(RegistryOf(domains), r.host, Some(d.info));
        if !available {
          return Some(HostTaken);
        }
      } else if !RootMailboxReady(d.info) {
        return Some(NotReady);
      }
      if d.mode == Private && d.owner != Some(r.owner) {
        return Some(NotOwner);
      }
      if r.owner !in users {
        return Some(NoUser);
      }
      if r.email in mailboxes {
        return Some(DuplicateEmail);
      }
      mailboxes := mailboxes[r.email := Mailbox(r.owner, r.local, r.host, r.domain)];
      error := ApplyMailboxAccounting(r, today);
      if error.Some? {
        return;
      }
      if r.share.Some? {
        if r.share.value in shares {
          return Some(DuplicateShare);
        }
        shares := shares + {r.share.value};
      }
    }

    method ApplyMailboxAccounting(r: Request, today: Day) returns (error: Option<Error>)
      requires r.domain in domains && r.owner in users
      modifies this`domains, this`users
      ensures var d, u := old(domains)[r.domain], old(users)[r.owner];
              && error == CountingRefusal(old(domains), d, u, r, quota, today)
              && (error.None? ==>
                    && domains == old(domains)[r.domain := d.(created := d.created + 1)]
                    && var counted := if d.mode == Public then CountPublic(u, today) else CountPrivate(u);
                       users == old(users)[r.owner := counted])
    {
      hide OwnsCapableDomain;
      var d := domains[r.domain];
      if d.mode == Public {
        if !IsAdmin(r.actor) && quota.requirePublicDomain && !OwnsCapableDomain(domains, r.owner) {
          return Some(NeedsPublicDomain);
        }
        if !HasRoom(d, r.actor, quota) {
          return Some(DomainFull);
        }
        domains := domains[r.domain := d.(created := d.created + 1)];
        var counted := IncrementUserPublicMailboxCount(r.owner, today, !IsAdmin(r.actor));
        return if counted then None else Some(DailyQuota);
      }
      domains := domains[r.domain := d.(created := d.created + 1)];
      users := users[r.owner := CountPrivate(users[r.owner])];
      return None;
    }

    /** A conditional update: it fails when no row matches. */
    method IncrementUserPublicMailboxCount(user: UserId, today: Day, enforceDailyLimit: bool) returns (affected: bool)
      requires user in users
      modifies this`users
      ensures affected == (old(users)[user].enabled
              && (enforceDailyLimit ==> WithinDay(old(users)[user], quota, today)))
      ensures users == if affected then old(users)[user := CountPublic(old(users)[user], today)] else old(users)
    {
      var u := users[user];
      affected := u.enabled && (!enforceDailyLimit || WithinDay(u, quota, today));
      if affected {
        users := users[user := CountPublic(u, today)];
      }
    }
  }

  // ---- The list of domains to choose from ------------------------------------------------------

  /** The rows that have room, in their order. */
  function Roomy(rows: seq<DomainRow>, actor: Option<Actor>, quota: Quota): seq<DomainRow> {
    if rows == [] then [] else
      var last := rows[|rows| - 1];
      Roomy(rows[..|rows| - 1], actor, quota) + if HasRoom(last, actor, quota) then [last] else []
  }

  /** An actor that the public-domain rule keeps from every public domain; nobody at all is not one. */
  predicate Barred(domains: map<string, DomainRow>, actor: Option<Actor>, quota: Quota) {
    && actor.Some? && !IsAdmin(actor) && quota.requirePublicDomain
    && (OwnerOf(actor).None? || !OwnsCapableDomain(domains, OwnerOf(actor).value))
  }

  function Offered(rows: seq<DomainRow>, domains: map<string, DomainRow>, actor: Option<Actor>, quota: Quota)
    : seq<DomainRow>
  {
    if Barred(domains, actor, quota) then [] else Roomy(rows, actor, quota)
  }

  /** Offers exactly the public domains that creation has room in, for this actor. */
  method FilterAvailablePublicDomains(rows: seq<DomainRow>, domains: map<string, DomainRow>, actor: Option<Actor>,
                                      quota: Quota)
    returns (out: seq<DomainRow>)
    requires forall d <- rows :: d.mode == Public
    ensures out == Offered(rows, domains, actor, quota)
  {
    hide OwnsCapableDomain;
    if actor.Some? && !IsAdmin(actor) && quota.requirePublicDomain {
      if OwnerOf(actor).None? || !OwnsCapableDomain(domains, OwnerOf(actor).value) {
        return [];
      }
    }
    if quota.domainLimit <= 0 {
      AllRoomy(rows, actor, quota);
      return rows;
    }
    out := [];
    for i := 0 to |rows|
      invariant out == Roomy(rows[..i], actor, quota)
    {
      assert rows[..i + 1][..i] == rows[..i];
      var d := rows[i];
      if (actor.Some? && (IsAdmin(actor) || IsOwner(d, actor))) || d.created < quota.domainLimit {
        out := out + [d];
      }
    }
    assert rows[..|rows|] == rows;
  }

  lemma {:induction false} AllRoomy(rows: seq<DomainRow>, actor: Option<Actor>, quota: Quota)
    requires quota.domainLimit <= 0
    ensures Roomy(rows, actor, quota) == rows
  {
    if rows != [] { AllRoomy(rows[..|rows| - 1], actor, quota); }
  }

  // ---- Mail finds its way back -----------------------------------------------------------------

  /** A mailbox on the domain itself resolves to it; one below a wildcard domain does exactly if the
      domain is not above the host's registrable root, which creation does not look at. */
  lemma CommittedMailboxResolvesIff(db: Db, r: Request, today: Day, rule: RootRule)
    requires Refusal(db, r, today).None? && WellFormed(RegistryOf(db.domains)) && CleanHost(r.domain)
    requires if r.wildcard then CleanHost(r.host) && Text.HasSuffix(r.host, "." + r.domain) else r.host == r.domain
    ensures Resolve(RegistryOf(db.domains), rule, r.host) == Some(db.domains[r.domain].info)
            <==> (r.wildcard ==> WithinRoot(r.host, r.domain, rule))
  {
    var registry := RegistryOf(db.domains);
    assert r.domain in registry && registry[r.domain].name == r.domain;
    if r.wildcard { ResolvesToParentIff(registry, rule, r.host, db.domains[r.domain].info); }
    hide Available;
    hide WithinRoot;
    hide CountingRefusal;
    hide CleanHost;
    hide WellFormed;
  }
}
