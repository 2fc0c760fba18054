/** The stored rate limit settings, and the services that publish copies of them. */
module Settings {
  import opened Common
  import opened RateConfig

  datatype Error = NotFound | Conflict | Invalid

  datatype Result<T> = Ok(value: T) | Err(error: Error)

  datatype Snapshot = Snapshot(revision: int, config: RateLimits, updatedBy: string)

  datatype Audit = Audit(previousRevision: int, revision: int, before: RateLimits, after: RateLimits, actor: string)

  /** The settings table holds at most one row. */
  datatype Store = Store(row: Option<Snapshot>, audits: seq<Audit>)

  const EMPTY := Store(None, [])

  function Ensured(s: Store): Store {
    if s.row.None? then s.(row := Some(Snapshot(1, DefaultConfig(), "system"))) else s
  }

  function Read(s: Store): Result<Snapshot> {
    if s.row.Some? then Ok(s.row.value) else Err(NotFound)
  }

  /** The whole save transaction: compare the revision, bump it, and write the audit record. */
  function Saved(s: Store, revision: int, config: RateLimits, actor: string): (Store, Result<Snapshot>) {
    if s.row.None? || s.row.value.revision != revision then (s, Err(Conflict))
    else if s.row.value.config == config then (s, Ok(s.row.value))
    else
      var next := Snapshot(revision + 1, config, actor);
      (Store(Some(next), s.audits + [Audit(revision, revision + 1, s.row.value.config, config, actor)]), Ok(next))
  }

  predicate Acceptable(s: Snapshot) { s.revision >= 1 && Validate(s.config) }

  /** What a service publishes once it is handed `s`. */
  function Publish(current: Option<Snapshot>, s: Snapshot): Option<Snapshot> {
    if !Acceptable(s) then current
    else if current.Some? && current.value.revision >= s.revision then current
    else Some(s)
  }

  /** What a successful save reports: the settings asked for, one revision on if they are new. */
  predicate Answers(saved: Snapshot, previous: Snapshot, config: RateLimits, actor: string) {
    && saved.config == config
    && if previous.config == config
       then saved.revision == previous.revision && saved.updatedBy == previous.updatedBy
       else saved.revision == previous.revision + 1 && saved.updatedBy == actor
  }

  class Database {
    var row: Option<Snapshot>
    var audits: seq<Audit>

    function Value(): Store reads this { Store(row, audits) }

    constructor () ensures Value() == EMPTY { row, audits := None, []; }

    method EnsureSettings() returns (r: Result<Snapshot>)
      modifies this
      ensures Value() == Ensured(old(Value())) && r == Read(Value()) && r.Ok?
    {
      if row.None? {
        row := Some(Snapshot(1, DefaultConfig(), "system"));
      }
      r := ReadSettings();
    }

    method ReadSettings() returns (r: Result<Snapshot>)
      ensures r == Read(Value())
      ensures r == if row.Some? then Ok(row.value) else Err(NotFound)
    {
      r := if row.Some? then Ok(row.value) else Err(NotFound);
    }

    method SaveSettings(revision: int, config: RateLimits, actor: string) returns (r: Result<Snapshot>)
      modifies this
      ensures (Value(), r) == Saved(old(Value()), revision, config, actor)
      ensures r.Ok? <==> old(row).Some? && old(row).value.revision == revision
      ensures r.Err? ==> r == Err(Conflict) && row == old(row) && audits == old(audits)
      ensures r.Ok? ==> Answers(r.value, old(row).value, config, actor) && row == Some(r.value)
      ensures r.Ok? && r.value.revision == revision ==> audits == old(audits)
      ensures r.Ok? && r.value.revision != revision ==>
                audits == old(audits) + [Audit(revision, r.value.revision, old(row).value.config, config, actor)]
    {
      if row.None? || row.value.revision != revision {
        return Err(Conflict);
      }
      var previous := row.value;
      var saved := previous;
      if previous.config == config {
        return Ok(saved);
      }
      saved := saved.(config := config);
      saved := saved.(revision := saved.revision + 1);
      saved := saved.(updatedBy := actor);
      row := Some(saved);
      audits := audits + [Audit(previous.revision, saved.revision, previous.config, saved.config, actor)];
      return Ok(saved);
    }
  }

  class Service {
    const database: Database
    var current: Option<Snapshot>

    constructor (database: Database)
      ensures this.database == database && current == None
    {
      this.database := database;
      current := None;
    }

    /** A service starts with whatever is stored, storing the defaults first if nothing is. */
    static method New(database: Database) returns (r: Result<Service>)
      modifies database
      ensures database.Value() == Ensured(old(database.Value()))
      ensures var s := Read(Ensured(old(database.Value()))).value;
              if Acceptable(s) then r.Ok? && fresh(r.value) && r.value.database == database
                 && r.value.current == Some(s)
              else r == Err(Invalid)
    {
      var settings := database.EnsureSettings();
      var service := new Service(database);
      var applied := service.Apply(settings.value);
      r := if applied then Ok(service) else Err(Invalid);
    }

    method Apply(s: Snapshot) returns (ok: bool)
      modifies this
      ensures ok == Acceptable(s) && current == Publish(old(current), s)
      ensures ok <==> s.revision >= 1 && Validate(s.config)
      ensures current == if ok && (old(current).Some? ==> old(current).value.revision < s.revision)
                         then Some(s) else old(current)
    {
      if s.revision < 1 || !Validate(s.config) {
        return false;
      }
      if current.Some? && current.value.revision >= s.revision {
        return true;
      }
      current := Some(s);
      return true;
    }

    method Refresh() returns (ok: bool)
      modifies this
      ensures var r := Read(database.Value());
              && ok == (r.Ok? && Acceptable(r.value))
              && current == if r.Ok? then Publish(old(current), r.value) else old(current)
    {
      var r := database.ReadSettings();
      ok := r.Ok?;
      if ok { ok := Apply(r.value); }
    }

    method Save(revision: int, config: RateLimits, actor: string) returns (r: Result<Snapshot>)
      modifies this, database
      ensures !Validate(config) ==>
                r == Err(Invalid) && database.Value() == old(database.Value()) && current == old(current)
      ensures Validate(config) ==>
                var (store, saved) := Saved(old(database.Value()), revision, config, actor);
                && database.Value() == store
                && current == (if saved.Ok? then Publish(old(current), saved.value) else old(current))
                && r == if saved.Ok? && !Acceptable(saved.value) then Err(Invalid) else saved
      // The same without `Saved`:
      ensures r == Err(Conflict) <==>
              Validate(config) && (old(database.row).Some? ==> old(database.row).value.revision != revision)
      ensures r.Ok? ==>
                && old(database.row).Some? && old(database.row).value.revision == revision
                && Answers(r.value, old(database.row).value, config, actor)
                && database.row == Some(r.value) && r.value.revision >= 1
                && current.Some? && current.value.revision >= r.value.revision
      ensures r.Err? ==> current == old(current)
      ensures r == Err(Conflict) ==> database.row == old(database.row) && database.audits == old(database.audits)
      ensures Validate(config) && old(database.row).Some? && old(database.row).value.revision == revision >= 1 ==> r.Ok?
    {
      if !Validate(config) {
        return Err(Invalid);
      }
      r := database.SaveSettings(revision, config, actor);
      if r.Ok? {
        var ok := Apply(r.value);
        if !ok { return Err(Invalid); }
      }
    }
  }
}
