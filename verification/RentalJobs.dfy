/** The queued jobs of the rental store as guarded, atomic transitions, and what every run of
    them keeps (packages/core/src/domain-rentals.ts, apps/api/src/raibitserver.service.ts). */
module RentalJobs {
  import opened Text
  import opened RentalNames
  import opened RentalRows

  datatype Action = Created | Updated | Deleted

  datatype Event = Event(actor: string, action: Action, rental: Rental)

  /** `domains` holds the custom-domain records, keyed by record id. */
  datatype Store = Store(rows: seq<Rental>, events: seq<Event>, domains: map<string, string>)

  type Body = Option<map<string, Value>>

  /** What a job meets while it runs: the account it reads, the clock, the fresh id, and which
      adapter calls are rejected. */
  datatype Env = Env(
    user: Result<Option<User>>, clock: int, now: string, newId: string,
    occupiedFails: bool, auditFails: bool)

  datatype Job =
    | Create(owner: string, body: Body, env: Env)
    | Update(owner: string, id: string, body: Body, env: Env)
    | Remove(owner: string, id: string, body: Body, env: Env)
    | ClaimDomain(hostname: Result<string>, scope: Option<Code>, recordId: string)

  // ---------------------------------------------------------------- request bodies

  function Member(body: map<string, Value>, key: string): Value {
    if key in body then body[key] else Undefined
  }

  function ParseObject(body: Body, allowed: set<string>): Result<map<string, Value>> {
    if body.None? || !(body.value.Keys <= allowed) then Err(InputInvalid) else Ok(body.value)
  }

  function ExpectedVersion(input: map<string, Value>): Result<int> {
    var v := Member(input, "expectedVersion");
    if v.Number? && 1 <= v.number < 0x20_0000_0000_0000 then Ok(v.number) else Err(VersionRequired)
  }

  datatype NewRental = NewRental(hostname: string, targetUrl: string, enabled: bool)

  function ParseCreate(body: Body, config: Config): (r: Result<NewRental>)
    ensures r.Ok? ==> Rentable(r.value.hostname, config)
    ensures r.Ok? && LawfulParser(config) ==> Servable(r.value.targetUrl, config)
  {
    var input := ParseObject(body, {"name", "targetUrl", "enabled"});
    if input.Err? then Err(input.code)
    else
      var name := NormalizeName(Member(input.value, "name"), config);
      if name.Err? then Err(name.code)
      else
        var value := Member(input.value, "targetUrl");
        var target := NormalizeTarget(value, config);
        if target.Err? then Err(target.code)
        else
          var enabled := Member(input.value, "enabled");
          if !(enabled.Undefined? || enabled.Flag?) then Err(InputInvalid)
          else
            RentableShape(name.value, config);
            assert LawfulParser(config) ==> Servable(target.value, config) by {
              if LawfulParser(config) { NormalizeTargetIdempotent(value, config); }
            }
            Ok(NewRental(name.value + "." + config.baseDomain, target.value, enabled != Flag(false)))
  }

  datatype Changes = Changes(version: int, hostname: Option<string>, targetUrl: Option<string>, enabled: Option<bool>)

  function ParseUpdate(body: Body, config: Config): (r: Result<Changes>)
    ensures r.Ok? && r.value.hostname.Some? ==> Rentable(r.value.hostname.value, config)
    ensures r.Ok? && r.value.targetUrl.Some? && LawfulParser(config) ==> Servable(r.value.targetUrl.value, config)
  {
    var input := ParseObject(body, {"name", "targetUrl", "enabled", "expectedVersion"});
    if input.Err? then Err(input.code)
    else
      var version := ExpectedVersion(input.value);
      if version.Err? then Err(version.code)
      else if input.value.Keys !! {"name", "targetUrl", "enabled"} then Err(InputInvalid)
      else
        var hostname := ParseHostname(Member(input.value, "name"), config);
        if hostname.Err? then Err(hostname.code)
        else
          var target := ParseTarget(Member(input.value, "targetUrl"), config);
          if target.Err? then Err(target.code)
          else
            match Member(input.value, "enabled")
            case Undefined => Ok(Changes(version.value, hostname.value, target.value, None))
            case Flag(b) => Ok(Changes(version.value, hostname.value, target.value, Some(b)))
            case _ => Err(InputInvalid)
  }

  function ParseHostname(value: Value, config: Config): (r: Result<Option<string>>)
    ensures r.Ok? && r.value.Some? ==> Rentable(r.value.value, config)
  {
    if value.Undefined? then Ok(None)
    else
      var name := NormalizeName(value, config);
      if name.Err? then Err(name.code)
      else RentableShape(name.value, config); Ok(Some(name.value + "." + config.baseDomain))
  }

  function ParseTarget(value: Value, config: Config): (r: Result<Option<string>>)
    ensures r.Ok? && r.value.Some? && LawfulParser(config) ==> Servable(r.value.value, config)
  {
    if value.Undefined? then Ok(None)
    else
      var target := NormalizeTarget(value, config);
      if target.Err? then Err(target.code)
      else
        assert LawfulParser(config) ==> Servable(target.value, config) by {
          if LawfulParser(config) { NormalizeTargetIdempotent(value, config); }
        }
        Ok(Some(target.value))
  }

  function ParseRemove(body: Body): Result<int> {
    var input := ParseObject(body, {"expectedVersion"});
    if input.Err? then Err(input.code) else ExpectedVersion(input.value)
  }

  /** A stored target that serving normalizes to itself. */
  predicate Servable(targetUrl: string, config: Config) {
    NormalizeTarget(Text(targetUrl), config) == Ok(targetUrl)
  }

  // ---------------------------------------------------------------- guards

  /** A custom-domain record stands in the way of `hostname`. */
  predicate Occupied(domains: map<string, string>, hostname: string) {
    exists k :: k in domains && StripDot(Lower(domains[k])) == hostname
  }

  function UserRefusal(env: Env): Option<Code> {
    if env.user.Err? then Some(env.user.code)
    else if !Allowed(env.user.value, env.clock) then Some(AccountUnavailable)
    else None
  }

  function HostRefusal(s: Store, hostname: string, env: Env): Option<Code> {
    if FindHost(s.rows, hostname).Some? then Some(NameTaken)
    else if env.occupiedFails then Some(Fault)
    else if Occupied(s.domains, hostname) then Some(NameTaken)
    else None
  }

  function AuditRefusal(env: Env): Option<Code> {
    if env.auditFails then Some(Fault) else None
  }

  function CreateRefusal(s: Store, owner: string, n: NewRental, env: Env): Option<Code> {
    if UserRefusal(env).Some? then UserRefusal(env)
    else if |OwnedBy(s.rows, owner)| >= Limit(env.user.value.value.accountType) then Some(QuotaExceeded)
    else if HostRefusal(s, n.hostname, env).Some? then HostRefusal(s, n.hostname, env)
    else AuditRefusal(env)
  }

  /** The checks `update` and `remove` share. */
  function TargetRefusal(s: Store, owner: string, id: string, version: int, env: Env): Option<Code> {
    if UserRefusal(env).Some? then UserRefusal(env)
    else if Find(s.rows, id).None? || Find(s.rows, id).value.owner != owner then Some(NotFound)
    else if Find(s.rows, id).value.version != version then Some(VersionConflict)
    else None
  }

  function UpdateRefusal(s: Store, owner: string, id: string, c: Changes, env: Env): Option<Code> {
    var refusal := TargetRefusal(s, owner, id, c.version, env);
    if refusal.Some? then refusal
    else if c.hostname.Some? && c.hostname.value != Find(s.rows, id).value.hostname
            && HostRefusal(s, c.hostname.value, env).Some?
    then HostRefusal(s, c.hostname.value, env)
    else AuditRefusal(env)
  }

  function ClaimRefusal(s: Store, hostname: string, scope: Option<Code>): Option<Code> {
    if FindHost(s.rows, hostname).Some? then Some(HostnameConflict)
    else if scope.Some? then scope
    else if exists k :: k in s.domains && Lower(s.domains[k]) == hostname then Some(HostnameConflict)
    else None
  }

  // ---------------------------------------------------------------- transitions

  function NewRow(owner: string, n: NewRental, env: Env): Rental {
    Rental(env.newId, owner, n.hostname, n.targetUrl, n.enabled, 1, env.now, env.now)
  }

  function Revised(r: Rental, c: Changes, env: Env): Rental {
    Amended(r, c.hostname, c.targetUrl, c.enabled, env.now)
  }

  /** What an audit event says happened to the table. */
  function ApplyEvent(rows: seq<Rental>, e: Event): seq<Rental> {
    match e.action
    case Created => Put(rows, e.rental)
    case Updated => Put(rows, e.rental)
    case Deleted => Drop(rows, e.rental.id)
  }

  function Record(s: Store, e: Event): Store {
    Store(ApplyEvent(s.rows, e), s.events + [e], s.domains)
  }

  /** The event a job records, or why it is refused; a claim records none here. */
  function Verdict(s: Store, job: Job, config: Config): Result<Option<Event>> {
    match job
    case Create(owner, body, env) =>
      var n := ParseCreate(body, config);
      if n.Err? then Err(n.code)
      else if CreateRefusal(s, owner, n.value, env).Some? then Err(CreateRefusal(s, owner, n.value, env).value)
      else Ok(Some(Event(owner, Created, NewRow(owner, n.value, env))))
    case Update(owner, id, body, env) =>
      var c := ParseUpdate(body, config);
      if c.Err? then Err(c.code)
      else if UpdateRefusal(s, owner, id, c.value, env).Some? then Err(UpdateRefusal(s, owner, id, c.value, env).value)
      else Ok(Some(Event(owner, Updated, Revised(Find(s.rows, id).value, c.value, env))))
    case Remove(owner, id, body, env) =>
      var version := ParseRemove(body);
      if version.Err? then Err(version.code)
      else if TargetRefusal(s, owner, id, version.value, env).Some?
      then Err(TargetRefusal(s, owner, id, version.value, env).value)
      else if env.auditFails then Err(Fault)
      else Ok(Some(Event(owner, Deleted, Find(s.rows, id).value)))
    case ClaimDomain(hostname, scope, recordId) =>
      if hostname.Err? then Err(hostname.code)
      else if ClaimRefusal(s, hostname.value, scope).Some? then Err(ClaimRefusal(s, hostname.value, scope).value)
      else Ok(None)
  }

  predicate Succeeds(s: Store, job: Job, config: Config) {
    Verdict(s, job, config).Ok?
  }

  /** A refused job changes nothing; an accepted one makes exactly its recorded change. */
  function Apply(s: Store, job: Job, config: Config): Store {
    match Verdict(s, job, config)
    case Err(_) => s
    case Ok(Some(e)) => Record(s, e)
    case Ok(None) =>
      if job.ClaimDomain? && job.hostname.Ok? then s.(domains := s.domains[job.recordId := job.hostname.value]) else s
  }

  // ---------------------------------------------------------------- runs

  /** Ids come from a generator that never repeats one, and a claimed host name is in the form
      the custom-domain normalizer produces. */
  ghost predicate Admissible(s: Store, job: Job) {
    && (job.Create? ==> forall e :: e in s.events ==> e.rental.id != job.env.newId)
    && (job.ClaimDomain? && job.hostname.Ok? ==> StripDot(Lower(job.hostname.value)) == job.hostname.value)
  }

  function Run(s: Store, jobs: seq<Job>, config: Config): Store {
    if jobs == [] then s
    else Apply(Run(s, jobs[..|jobs| - 1], config), jobs[|jobs| - 1], config)
  }

  ghost predicate AdmissibleRun(s: Store, jobs: seq<Job>, config: Config) {
    forall i :: 0 <= i < |jobs| ==> Admissible(Run(s, jobs[..i], config), jobs[i])
  }

  /** The table the audit log describes. */
  function Replay(events: seq<Event>): seq<Rental> {
    if events == [] then []
    else ApplyEvent(Replay(events[..|events| - 1]), events[|events| - 1])
  }

  /** How many create and update events the log holds for `id`. */
  function Revisions(events: seq<Event>, id: string): nat {
    if events == [] then 0
    else
      var e := events[|events| - 1];
      Revisions(events[..|events| - 1], id) + (if e.rental.id == id && !e.action.Deleted? then 1 else 0)
  }

  ghost predicate Ended(events: seq<Event>, id: string) {
    exists i :: 0 <= i < |events| && events[i].action.Deleted? && events[i].rental.id == id
  }

  ghost predicate Mentioned(events: seq<Event>, id: string) {
    exists e :: e in events && e.rental.id == id
  }

  // ---------------------------------------------------------------- the invariant

  ghost predicate GoodRow(domains: map<string, string>, r: Rental, config: Config) {
    Rentable(r.hostname, config) && !Occupied(domains, r.hostname)
  }

  /** Ids and host names are unique, every row is well formed and clear of the custom domains,
      and nobody holds more than five names. */
  ghost predicate TableInv(s: Store, config: Config) {
    && DistinctIds(s.rows) && DistinctHosts(s.rows)
    && (forall r :: r in s.rows ==> GoodRow(s.domains, r, config))
    && (forall owner :: |OwnedBy(s.rows, owner)| <= 5)
  }

  ghost predicate LoggedRow(events: seq<Event>, r: Rental) {
    r.version == Revisions(events, r.id) && !Ended(events, r.id) && Mentioned(events, r.id)
  }

  /** The audit log rebuilds the table, and a row's version counts its events. */
  ghost predicate LogInv(rows: seq<Rental>, events: seq<Event>) {
    && Replay(events) == rows
    && forall r :: r in rows ==> LoggedRow(events, r)
  }

  ghost predicate Inv(s: Store, config: Config) {
    TableInv(s, config) && LogInv(s.rows, s.events)
  }

  function Start(domains: map<string, string>): Store {
    Store([], [], domains)
  }

  lemma RevisionsAppend(events: seq<Event>, e: Event, id: string)
    ensures Revisions(events + [e], id)
         == Revisions(events, id) + (if e.rental.id == id && !e.action.Deleted? then 1 else 0)
    ensures Ended(events + [e], id) <==> Ended(events, id) || (e.action.Deleted? && e.rental.id == id)
    ensures Mentioned(events, id) || e.rental.id == id ==> Mentioned(events + [e], id)
  {
    var all := events + [e];
    assert all[..|all| - 1] == events && all[|all| - 1] == e;
    assert forall i :: 0 <= i < |events| ==> all[i] == events[i];
    if Ended(events, id) {
      var i :| 0 <= i < |events| && events[i].action.Deleted? && events[i].rental.id == id;
      assert all[i].action.Deleted?;
    }
    if e.rental.id == id {
      assert e in all;
    }
  }

  lemma {:induction false} UnmentionedHasNoRevisions(events: seq<Event>, id: string)
    requires !Mentioned(events, id)
    ensures Revisions(events, id) == 0 && !Ended(events, id)
  {
    if events != [] {
      assert events[|events| - 1] in events;
      assert forall e :: e in events[..|events| - 1] ==> e in events;
      UnmentionedHasNoRevisions(events[..|events| - 1], id);
    }
    assert forall i :: 0 <= i < |events| ==> events[i] in events;
  }

  lemma ReplayAppend(events: seq<Event>, e: Event)
    ensures Replay(events + [e]) == ApplyEvent(Replay(events), e)
  {
    assert (events + [e])[..|events|] == events;
  }

  lemma CreateKeepsLog(rows: seq<Rental>, events: seq<Event>, e: Event)
    requires DistinctIds(rows) && LogInv(rows, events)
    requires e.action.Created? && e.rental.version == 1 && !Mentioned(events, e.rental.id)
    ensures LogInv(Put(rows, e.rental), events + [e])
  {
    ReplayAppend(events, e);
    PutTable(rows, e.rental);
    UnmentionedHasNoRevisions(events, e.rental.id);
    forall r | r in Put(rows, e.rental) ensures LoggedRow(events + [e], r) {
      RevisionsAppend(events, e, r.id);
    }
  }

  lemma UpdateKeepsLog(rows: seq<Rental>, events: seq<Event>, e: Event, current: Rental)
    requires DistinctIds(rows) && LogInv(rows, events)
    requires e.action.Updated? && current in rows && e.rental.id == current.id
    requires e.rental.version == current.version + 1
    ensures LogInv(Put(rows, e.rental), events + [e])
  {
    ReplayAppend(events, e);
    PutTable(rows, e.rental);
    assert LoggedRow(events, current);
    forall r | r in Put(rows, e.rental) ensures LoggedRow(events + [e], r) {
      RevisionsAppend(events, e, r.id);
    }
  }

  lemma RemoveKeepsLog(rows: seq<Rental>, events: seq<Event>, e: Event)
    requires DistinctIds(rows) && LogInv(rows, events)
    requires e.action.Deleted?
    ensures LogInv(Drop(rows, e.rental.id), events + [e])
  {
    ReplayAppend(events, e);
    DropTable(rows, e.rental.id);
    forall r | r in Drop(rows, e.rental.id) ensures LoggedRow(events + [e], r) {
      RevisionsAppend(events, e, r.id);
      assert LoggedRow(events, r);
    }
  }

  lemma CreateKeepsTable(s: Store, r: Rental, config: Config)
    requires TableInv(s, config)
    requires IndexOf(s.rows, r.id) == |s.rows|
    requires GoodRow(s.domains, r, config) && FindHost(s.rows, r.hostname).None?
    requires |OwnedBy(s.rows, r.owner)| < 5
    ensures TableInv(s.(rows := Put(s.rows, r)), config)
  {
    PutTable(s.rows, r);
    PutHosts(s.rows, r);
    forall owner ensures |OwnedBy(Put(s.rows, r), owner)| <= 5 {
      HoldingsAfterInsertion(s.rows, r, owner);
    }
  }

  lemma UpdateKeepsTable(s: Store, r: Rental, config: Config)
    requires TableInv(s, config)
    requires Find(s.rows, r.id).Some? && r.owner == Find(s.rows, r.id).value.owner
    requires GoodRow(s.domains, r, config)
    requires r.hostname == Find(s.rows, r.id).value.hostname || FindHost(s.rows, r.hostname).None?
    ensures TableInv(s.(rows := Put(s.rows, r)), config)
  {
    var current := Find(s.rows, r.id).value;
    assert current in s.rows;
    FindHostUnique(s.rows, current);
    PutTable(s.rows, r);
    PutHosts(s.rows, r);
    forall owner ensures |OwnedBy(Put(s.rows, r), owner)| <= 5 {
      HoldingsAfterReplacement(s.rows, r, owner);
    }
  }

  lemma RemoveKeepsTable(s: Store, id: string, config: Config)
    requires TableInv(s, config)
    ensures TableInv(s.(rows := Drop(s.rows, id)), config)
  {
    DropTable(s.rows, id);
    forall owner ensures |OwnedBy(Drop(s.rows, id), owner)| <= 5 {
      HoldingsAfterRemoval(s.rows, id, owner);
    }
  }

  lemma ClaimKeepsTable(s: Store, recordId: string, hostname: string, config: Config)
    requires TableInv(s, config)
    requires FindHost(s.rows, hostname).None? && StripDot(Lower(hostname)) == hostname
    ensures TableInv(s.(domains := s.domains[recordId := hostname]), config)
  {
    var domains := s.domains[recordId := hostname];
    forall r | r in s.rows ensures GoodRow(domains, r, config) {
      assert GoodRow(s.domains, r, config);
      var i :| 0 <= i < |s.rows| && s.rows[i] == r;
    }
  }

  lemma CreateKeepsInv(s: Store, owner: string, n: NewRental, env: Env, config: Config)
    requires Inv(s, config) && !Mentioned(s.events, env.newId)
    requires Rentable(n.hostname, config)
    requires CreateRefusal(s, owner, n, env).None?
    ensures Inv(Record(s, Event(owner, Created, NewRow(owner, n, env))), config)
  {
    var r := NewRow(owner, n, env);
    assert forall x :: x in s.rows ==> LoggedRow(s.events, x);
    assert forall i :: 0 <= i < |s.rows| ==> s.rows[i] in s.rows;
    CreateKeepsTable(s, r, config);
    CreateKeepsLog(s.rows, s.events, Event(owner, Created, r));
  }

  lemma UpdateKeepsInv(s: Store, owner: string, id: string, c: Changes, env: Env, config: Config)
    requires Inv(s, config)
    requires c.hostname.Some? ==> Rentable(c.hostname.value, config)
    requires UpdateRefusal(s, owner, id, c, env).None?
    ensures Inv(Record(s, Event(owner, Updated, Revised(Find(s.rows, id).value, c, env))), config)
  {
    var current := Find(s.rows, id).value;
    assert current in s.rows && GoodRow(s.domains, current, config);
    var r := Revised(current, c, env);
    UpdateKeepsTable(s, r, config);
    UpdateKeepsLog(s.rows, s.events, Event(owner, Updated, r), current);
  }

  lemma ApplyKeepsInv(s: Store, job: Job, config: Config)
    requires Inv(s, config) && Admissible(s, job)
    ensures Inv(Apply(s, job, config), config)
  {
    if Succeeds(s, job, config) {
      if job.ClaimDomain? {
        ClaimKeepsTable(s, job.recordId, job.hostname.value, config);
      } else {
        RecordKeepsInv(s, job, config);
      }
    }
  }

  lemma RecordKeepsInv(s: Store, job: Job, config: Config)
    requires Inv(s, config) && Admissible(s, job) && Succeeds(s, job, config) && !job.ClaimDomain?
    ensures Verdict(s, job, config).value.Some? && Inv(Record(s, Verdict(s, job, config).value.value), config)
  {
    match job
    case Create(owner, body, env) => CreateKeepsInv(s, owner, ParseCreate(body, config).value, env, config);
    case Update(owner, id, body, env) => UpdateKeepsInv(s, owner, id, ParseUpdate(body, config).value, env, config);
    case Remove(owner, id, body, env) => RemoveKeepsInv(s, owner, Find(s.rows, id).value, config);
  }

  lemma RemoveKeepsInv(s: Store, owner: string, r: Rental, config: Config)
    requires Inv(s, config)
    ensures Inv(Record(s, Event(owner, Deleted, r)), config)
  {
    RemoveKeepsTable(s, r.id, config);
    RemoveKeepsLog(s.rows, s.events, Event(owner, Deleted, r));
  }

  lemma {:induction false} RunKeepsInv(domains: map<string, string>, jobs: seq<Job>, config: Config)
    requires AdmissibleRun(Start(domains), jobs, config)
    ensures Inv(Run(Start(domains), jobs, config), config)
  {
    if jobs != [] {
      var init := jobs[..|jobs| - 1];
      assert forall i :: 0 <= i < |init| ==> init[..i] == jobs[..i];
      RunKeepsInv(domains, init, config);
      ApplyKeepsInv(Run(Start(domains), init, config), jobs[|jobs| - 1], config);
    }
  }

  // ---------------------------------------------------------------- main results

  /** Over every run of jobs by any owners, with any custom domains present at the start and any
      adapter failures on the way: host names stay unique, rentable and clear of the custom
      domains, and no owner ever holds more than five names. */
  lemma HostnamesStaySafe(domains: map<string, string>, jobs: seq<Job>, config: Config)
    requires AdmissibleRun(Start(domains), jobs, config)
    ensures var s := Run(Start(domains), jobs, config);
      && (forall i, j :: 0 <= i < j < |s.rows| ==> s.rows[i].hostname != s.rows[j].hostname)
      && (forall r :: r in s.rows ==> Rentable(r.hostname, config))
      && (forall r, k :: r in s.rows && k in s.domains ==> StripDot(Lower(s.domains[k])) != r.hostname)
      && (forall owner :: |OwnedBy(s.rows, owner)| <= 5)
  {
    RunKeepsInv(domains, jobs, config);
    var s := Run(Start(domains), jobs, config);
    forall r | r in s.rows ensures Rentable(r.hostname, config) && !Occupied(s.domains, r.hostname) {
      assert GoodRow(s.domains, r, config);
    }
  }

  /** In every state between jobs the audit log, replayed from empty, is the table, and every
      row's version is the number of create and update events for its id. */
  lemma LogRebuildsTable(domains: map<string, string>, jobs: seq<Job>, config: Config)
    requires AdmissibleRun(Start(domains), jobs, config)
    ensures var s := Run(Start(domains), jobs, config);
      && Replay(s.events) == s.rows
      && (forall r :: r in s.rows ==> r.version == Revisions(s.events, r.id))
  {
    RunKeepsInv(domains, jobs, config);
    var s := Run(Start(domains), jobs, config);
    assert forall r :: r in s.rows ==> LoggedRow(s.events, r);
  }

  // ---------------------------------------------------------------- stored targets

  /** Every stored target is served unchanged. */
  ghost predicate TargetsServable(rows: seq<Rental>, config: Config) {
    forall r :: r in rows ==> Servable(r.targetUrl, config)
  }

  lemma ApplyKeepsTargets(s: Store, job: Job, config: Config)
    requires LawfulParser(config) && Inv(s, config) && TargetsServable(s.rows, config)
    ensures TargetsServable(Apply(s, job, config).rows, config)
  {
    match Verdict(s, job, config)
    case Ok(Some(e)) =>
      if e.action.Deleted? {
        DropTable(s.rows, e.rental.id);
      } else {
        PutTable(s.rows, e.rental);
        RecordedTarget(s, job, config);
      }
    case _ =>
  }

  lemma RecordedTarget(s: Store, job: Job, config: Config)
    requires LawfulParser(config) && TargetsServable(s.rows, config)
    requires Succeeds(s, job, config) && (job.Create? || job.Update?)
    ensures Verdict(s, job, config).value.Some?
    ensures Servable(Verdict(s, job, config).value.value.rental.targetUrl, config)
  {
    if job.Update? {
      assert Find(s.rows, job.id).value in s.rows;
    }
  }

  /** Whatever is stored in any reachable state is served as stored: resolving never fails on it. */
  lemma {:induction false} StoredTargetsServe(domains: map<string, string>, jobs: seq<Job>, config: Config)
    requires LawfulParser(config) && AdmissibleRun(Start(domains), jobs, config)
    ensures TargetsServable(Run(Start(domains), jobs, config).rows, config)
  {
    if jobs != [] {
      var init := jobs[..|jobs| - 1];
      assert forall i :: 0 <= i < |init| ==> init[..i] == jobs[..i];
      StoredTargetsServe(domains, init, config);
      RunKeepsInv(domains, init, config);
      ApplyKeepsTargets(Run(Start(domains), init, config), jobs[|jobs| - 1], config);
    }
  }

  // ---------------------------------------------------------------- consumed versions

  /** The job asks to change or remove exactly this version of this rental. */
  predicate Targets(job: Job, id: string, version: int, config: Config) {
    match job
    case Update(_, i, body, _) =>
      i == id && ParseUpdate(body, config).Ok? && ParseUpdate(body, config).value.version == version
    case Remove(_, i, body, _) => i == id && ParseRemove(body) == Ok(version)
    case _ => false
  }

  ghost predicate Consumed(events: seq<Event>, id: string, version: int) {
    version < Revisions(events, id) || Ended(events, id)
  }

  lemma ConsumedStays(s: Store, job: Job, id: string, version: int, config: Config)
    requires Consumed(s.events, id, version)
    ensures Consumed(Apply(s, job, config).events, id, version)
  {
    match Verdict(s, job, config)
    case Ok(Some(e)) => RevisionsAppend(s.events, e, id);
    case _ =>
  }

  lemma TargetVerdict(s: Store, job: Job, id: string, version: int, config: Config)
    requires Targets(job, id, version, config) && Succeeds(s, job, config)
    ensures Find(s.rows, id).Some? && Find(s.rows, id).value.version == version
    ensures var e := Verdict(s, job, config).value; e.Some? && e.value.rental.id == id && !e.value.action.Created?
  {
  }

  lemma ConsumingJob(s: Store, job: Job, id: string, version: int, config: Config)
    requires Inv(s, config)
    requires Targets(job, id, version, config) && Succeeds(s, job, config)
    ensures !Consumed(s.events, id, version)
    ensures Consumed(Apply(s, job, config).events, id, version)
  {
    TargetVerdict(s, job, id, version, config);
    var current, e := Find(s.rows, id).value, Verdict(s, job, config).value.value;
    assert current in s.rows && LoggedRow(s.events, current);
    RevisionsAppend(s.events, e, id);
    assert Apply(s, job, config).events == s.events + [e];
  }

  lemma RunStep(s: Store, jobs: seq<Job>, i: nat, config: Config)
    requires i < |jobs|
    ensures Run(s, jobs[..i + 1], config) == Apply(Run(s, jobs[..i], config), jobs[i], config)
  {
    assert jobs[..i + 1][..i] == jobs[..i];
  }

  lemma {:induction false} ConsumedLater(s: Store, jobs: seq<Job>, i: nat, j: nat, id: string, version: int,
                                         config: Config)
    requires i <= j <= |jobs|
    requires Consumed(Run(s, jobs[..i], config).events, id, version)
    ensures Consumed(Run(s, jobs[..j], config).events, id, version)
    decreases j
  {
    if i < j {
      ConsumedLater(s, jobs, i, j - 1, id, version, config);
      ConsumedNext(s, jobs, j - 1, id, version, config);
    }
  }

  lemma ConsumedNext(s: Store, jobs: seq<Job>, i: nat, id: string, version: int, config: Config)
    requires i < |jobs| && Consumed(Run(s, jobs[..i], config).events, id, version)
    ensures Consumed(Run(s, jobs[..i + 1], config).events, id, version)
  {
    RunStep(s, jobs, i, config);
    ConsumedStays(Run(s, jobs[..i], config), jobs[i], id, version, config);
  }

  /** Each (rental id, version) pair is consumed by at most one successful update or removal. */
  lemma ConsumedOnce(domains: map<string, string>, jobs: seq<Job>, i: nat, j: nat, id: string, version: int,
                     config: Config)
    requires AdmissibleRun(Start(domains), jobs, config)
    requires i < j < |jobs|
    requires Targets(jobs[i], id, version, config) && Targets(jobs[j], id, version, config)
    ensures !(Succeeds(Run(Start(domains), jobs[..i], config), jobs[i], config) &&
              Succeeds(Run(Start(domains), jobs[..j], config), jobs[j], config))
  {
    var s := Start(domains);
    var before, after := Run(s, jobs[..i], config), Run(s, jobs[..j], config);
    if Succeeds(before, jobs[i], config) {
      PrefixAdmissible(domains, jobs, i, config);
      PrefixAdmissible(domains, jobs, j, config);
      ConsumingJob(before, jobs[i], id, version, config);
      RunStep(s, jobs, i, config);
      ConsumedLater(s, jobs, i + 1, j, id, version, config);
      if Succeeds(after, jobs[j], config) {
        ConsumingJob(after, jobs[j], id, version, config);
      }
    }
  }

  lemma PrefixAdmissible(domains: map<string, string>, jobs: seq<Job>, i: nat, config: Config)
    requires i <= |jobs| && AdmissibleRun(Start(domains), jobs, config)
    ensures Inv(Run(Start(domains), jobs[..i], config), config)
  {
    assert forall k :: 0 <= k < i ==> jobs[..i][..k] == jobs[..k];
    RunKeepsInv(domains, jobs[..i], config);
  }
}
