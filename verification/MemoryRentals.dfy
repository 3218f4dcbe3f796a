/** The in-memory rental adapter with its job queue, and the service operations that run on it
    step by step with snapshot and rollback (packages/core/src/domain-rentals.ts,
    apps/api/src/raibitserver.service.ts). Each public method is one queued job and is proved to
    be the atomic transition `Apply`. */
module MemoryRentals {
  import opened Text
  import opened RentalNames
  import opened RentalRows
  import opened RentalJobs

  class MemoryDomainRentalRepository {
    var rows: seq<Rental>
    var events: seq<Event>
    var domains: map<string, string>
    const config: Config

    ghost function State(): Store
      reads this
    {
      Store(rows, events, domains)
    }

    constructor (config: Config, domains: map<string, string>)
      ensures State() == Start(domains) && this.config == config
    {
      this.rows, this.events, this.domains, this.config := [], [], domains, config;
    }

    // ---------------------------------------------------------------- table primitives

    method Insert(r: Rental) returns (taken: bool)
      modifies this`rows
      ensures taken <==> FindHost(old(rows), r.hostname).Some?
      ensures rows == if taken then old(rows) else Put(old(rows), r)
    {
      taken := FindHost(rows, r.hostname).Some?;
      if !taken {
        rows := Put(rows, r);
      }
    }

    method Replace(r: Rental)
      modifies this`rows
      ensures rows == Put(old(rows), r)
    {
      rows := Put(rows, r);
    }

    method Delete(id: string)
      modifies this`rows
      ensures rows == Drop(old(rows), id)
    {
      rows := Drop(rows, id);
    }

    method Audit(e: Event, fails: bool) returns (failed: bool)
      modifies this`events
      ensures failed == fails
      ensures events == if failed then old(events) else old(events) + [e]
    {
      failed := fails;
      if !failed {
        events := events + [e];
      }
    }

    /** What the queue does when a job throws: the snapshot comes back, the log is cut. */
    method Rollback(before: seq<Rental>, auditLength: nat)
      requires auditLength <= |events|
      modifies this`rows, this`events
      ensures rows == before && events == old(events)[..auditLength]
    {
      rows := before;
      events := events[..auditLength];
    }

    // ---------------------------------------------------------------- job bodies

    method CreateWork(owner: string, n: NewRental, env: Env) returns (r: Result<Rental>)
      modifies this`rows, this`events
      ensures r == match CreateRefusal(old(State()), owner, n, env)
                   case None => Ok(NewRow(owner, n, env))
                   case Some(c) => Err(c)
      ensures r.Ok? ==> State() == Record(old(State()), Event(owner, Created, r.value))
      ensures old(events) <= events
    {
      if env.user.Err? { return Err(env.user.code); }
      if !Allowed(env.user.value, env.clock) { return Err(AccountUnavailable); }
      if |OwnedBy(rows, owner)| >= Limit(env.user.value.value.accountType) { return Err(QuotaExceeded); }
      if FindHost(rows, n.hostname).Some? { return Err(NameTaken); }
      if env.occupiedFails { return Err(Fault); }
      if Occupied(domains, n.hostname) { return Err(NameTaken); }
      var rental := NewRow(owner, n, env);
      var taken := Insert(rental);
      if taken { return Err(NameTaken); }
      var failed := Audit(Event(owner, Created, rental), env.auditFails);
      if failed { return Err(Fault); }
      return Ok(rental);
    }

    method UpdateWork(owner: string, id: string, c: Changes, env: Env) returns (r: Result<Rental>)
      modifies this`rows, this`events
      ensures r == match UpdateRefusal(old(State()), owner, id, c, env)
                   case None => Ok(Revised(Find(old(rows), id).value, c, env))
                   case Some(code) => Err(code)
      ensures r.Ok? ==> State() == Record(old(State()), Event(owner, Updated, r.value))
      ensures old(events) <= events
    {
      if env.user.Err? { return Err(env.user.code); }
      if !Allowed(env.user.value, env.clock) { return Err(AccountUnavailable); }
      var current := Find(rows, id);
      if current.None? || current.value.owner != owner { return Err(NotFound); }
      if current.value.version != c.version { return Err(VersionConflict); }
      if c.hostname.Some? && c.hostname.value != current.value.hostname {
        if FindHost(rows, c.hostname.value).Some? { return Err(NameTaken); }
        if env.occupiedFails { return Err(Fault); }
        if Occupied(domains, c.hostname.value) { return Err(NameTaken); }
      }
      var rental := Revised(current.value, c, env);
      Replace(rental);
      var failed := Audit(Event(owner, Updated, rental), env.auditFails);
      if failed { return Err(Fault); }
      return Ok(rental);
    }

    method RemoveWork(owner: string, id: string, version: int, env: Env) returns (r: Result<Rental>)
      modifies this`rows, this`events
      ensures r == match TargetRefusal(old(State()), owner, id, version, env)
                   case None => if env.auditFails then Err(Fault) else Ok(Find(old(rows), id).value)
                   case Some(code) => Err(code)
      ensures r.Ok? ==> State() == Record(old(State()), Event(owner, Deleted, r.value))
      ensures old(events) <= events
    {
      if env.user.Err? { return Err(env.user.code); }
      if !Allowed(env.user.value, env.clock) { return Err(AccountUnavailable); }
      var rental := Find(rows, id);
      if rental.None? || rental.value.owner != owner { return Err(NotFound); }
      if rental.value.version != version { return Err(VersionConflict); }
      Delete(id);
      var failed := Audit(Event(owner, Deleted, rental.value), env.auditFails);
      if failed { return Err(Fault); }
      return Ok(rental.value);
    }

    // ---------------------------------------------------------------- queued jobs

    /** `create`, one queued job: all of it happens or none of it. */
    method Create(owner: string, body: Body, env: Env) returns (r: Result<Rental>)
      modifies this
      ensures State() == Apply(old(State()), Job.Create(owner, body, env), config)
      ensures r.Err? ==> State() == old(State())
      ensures r.Ok? <==> Succeeds(old(State()), Job.Create(owner, body, env), config)
      ensures r.Ok? ==> r.value in rows && events == old(events) + [Event(owner, Created, r.value)]
      ensures r.Err? ==> Verdict(old(State()), Job.Create(owner, body, env), config) == Err(r.code)
    {
      var n := ParseCreate(body, config);
      if n.Err? { return Err(n.code); }
      var before, auditLength := rows, |events|;
      r := CreateWork(owner, n.value, env);
      if r.Err? {
        Rollback(before, auditLength);
      } else {
        PutHolds(before, r.value);
      }
    }

    method Update(owner: string, id: string, body: Body, env: Env) returns (r: Result<Rental>)
      modifies this
      ensures State() == Apply(old(State()), Job.Update(owner, id, body, env), config)
      ensures r.Err? ==> State() == old(State())
      ensures r.Ok? <==> Succeeds(old(State()), Job.Update(owner, id, body, env), config)
      ensures r.Ok? ==> r.value.id == id && r.value in rows && events == old(events) + [Event(owner, Updated, r.value)]
      ensures r.Err? ==> Verdict(old(State()), Job.Update(owner, id, body, env), config) == Err(r.code)
    {
      var c := ParseUpdate(body, config);
      if c.Err? { return Err(c.code); }
      var before, auditLength := rows, |events|;
      r := UpdateWork(owner, id, c.value, env);
      if r.Err? {
        Rollback(before, auditLength);
      } else {
        PutHolds(before, r.value);
      }
    }

    method Remove(owner: string, id: string, body: Body, env: Env) returns (r: Result<Rental>)
      modifies this
      ensures State() == Apply(old(State()), Job.Remove(owner, id, body, env), config)
      ensures r.Err? ==> State() == old(State())
      ensures r.Ok? <==> Succeeds(old(State()), Job.Remove(owner, id, body, env), config)
      ensures r.Ok? ==> Find(old(rows), id) == Some(r.value) && events == old(events) + [Event(owner, Deleted, r.value)]
      ensures r.Err? ==> Verdict(old(State()), Job.Remove(owner, id, body, env), config) == Err(r.code)
    {
      var version := ParseRemove(body);
      if version.Err? { return Err(version.code); }
      var before, auditLength := rows, |events|;
      r := RemoveWork(owner, id, version.value, env);
      if r.Err? {
        Rollback(before, auditLength);
      }
    }

    /** A custom-domain registration on the same queue: the rental table is checked, then the
        domain store's own checks run and the record is written. */
    method ClaimDomain(hostname: Result<string>, scope: Option<Code>, recordId: string) returns (r: Result<string>)
      modifies this
      ensures State() == Apply(old(State()), Job.ClaimDomain(hostname, scope, recordId), config)
      ensures r.Ok? <==> Succeeds(old(State()), Job.ClaimDomain(hostname, scope, recordId), config)
      ensures r.Ok? ==> FindHost(rows, r.value).None? && recordId in domains && domains[recordId] == r.value
      ensures r.Err? ==> Verdict(old(State()), Job.ClaimDomain(hostname, scope, recordId), config) == Err(r.code)
    {
      var before, auditLength := rows, |events|;
      if hostname.Err? {
        r := Err(hostname.code);
      } else if FindHost(rows, hostname.value).Some? {
        r := Err(HostnameConflict);
      } else if scope.Some? {
        r := Err(scope.value);
      } else if exists k :: k in domains && Lower(domains[k]) == hostname.value {
        r := Err(HostnameConflict);
      } else {
        domains := domains[recordId := hostname.value];
        r := hostname;
      }
      if r.Err? {
        Rollback(before, auditLength);
      }
    }
  }
}
