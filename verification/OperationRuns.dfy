/** Retry and redeploy over whole runs: idempotency keys, their workflow jobs, and the deployments
    that are active (packages/core/src/persistence.ts, packages/core/src/store.ts). */
module OperationRuns {
  import opened Text
  import opened Json
  import opened DeploymentOperations
  import opened HistoryPages
  import opened HistoryActions
  import DomainRouter

  /** What identifies a request behind its key. */
  datatype Request = Request(kind: OperationKind, sourceDeploymentId: Option<string>, snapshotVersion: int)

  /** A workflow job of a deployment; only operations record a request in it. */
  datatype Job = Job(targetId: string, request: Option<Request>)

  datatype Store = Store(rows: seq<Deployment>, jobs: seq<Job>)

  datatype Answer = Created(deployment: Deployment) | Replayed(deployment: Deployment) | Denied(why: Refusal)

  function RequestOf(input: Operation): Request {
    Request(input.kind, input.sourceDeploymentId, input.snapshotVersion)
  }

  predicate HasKey(row: Deployment, serviceId: string, key: string) {
    row.serviceId == serviceId && row.requestIdempotencyKey == Some(key)
  }

  function Keyed(rows: seq<Deployment>, serviceId: string, key: string): Option<Deployment> {
    if rows == [] then None
    else if HasKey(rows[0], serviceId, key) then Some(rows[0])
    else Keyed(rows[1..], serviceId, key)
  }

  function JobOf(jobs: seq<Job>, targetId: string): Option<Job> {
    if jobs == [] then None else if jobs[0].targetId == targetId then Some(jobs[0]) else JobOf(jobs[1..], targetId)
  }

  // ---------------------------------------------------------------- the steps of a run

  /** The answer to a request: a used key is answered from its deployment, a new one is decided. */
  function Answered(s: Store, input: Operation, id: string, at: string, guards: Guards, lifecycle: Lifecycle,
                    lib: Library): Answer {
    var existing := Keyed(s.rows, input.serviceId, input.requestIdempotencyKey);
    if guards.service.Missing? then Denied(SourceNotFound)
    else if existing.Some? then
      var job := JobOf(s.jobs, existing.value.id);
      if job.None? then Denied(LineageJobMissing)
      else if job.value.request != Some(RequestOf(input)) then Denied(IdempotencyConflict)
      else Replayed(existing.value)
    else
      match Decide(s.rows, input, id, at, guards, lifecycle, lib)
      case Refused(why) => Denied(why)
      case Accepted(d) => Created(d)
  }

  function IndexOfId(rows: seq<Deployment>, id: string): (k: nat)
    ensures k <= |rows|
    ensures forall i :: 0 <= i < k ==> rows[i].id != id
    ensures k < |rows| ==> rows[k].id == id
  {
    if rows == [] || rows[0].id == id then 0 else 1 + IndexOfId(rows[1..], id)
  }

  /** Storing under an id: the row that has the id is replaced where it stands. */
  function Placed(rows: seq<Deployment>, row: Deployment): seq<Deployment> {
    var k := IndexOfId(rows, row.id);
    if k < |rows| then rows[k := row] else rows + [row]
  }

  function Stored(s: Store, answer: Answer, input: Operation): Store {
    match answer
    case Created(d) => Store(Placed(s.rows, d), s.jobs + [Job(d.id, Some(RequestOf(input)))])
    case _ => s
  }

  /** The fields an update leaves alone. */
  datatype Lineage = Lineage(
    id: string, serviceId: string, snapshotVersion: Option<int>, desiredSpecSnapshot: Option<Json>,
    sourceDeploymentId: Option<string>, retryOfDeploymentId: Option<string>, requestIdempotencyKey: Option<string>,
    requestedByUserId: Option<string>)

  function LineageOf(d: Deployment): Lineage {
    Lineage(d.id, d.serviceId, d.snapshotVersion, d.desiredSpecSnapshot, d.sourceDeploymentId, d.retryOfDeploymentId,
            d.requestIdempotencyKey, d.requestedByUserId)
  }

  function Updated(rows: seq<Deployment>, next: Deployment): seq<Deployment> {
    var k := IndexOfId(rows, next.id);
    if k < |rows| && LineageOf(rows[k]) == LineageOf(next) then rows[k := next] else rows
  }

  /** A request; an update of one deployment, its status included; a deployment that some other route
      stores under the stable id of `parts`, with its job; a job that some other route enqueues. */
  datatype Step =
    | Ask(input: Operation, id: string, at: string, guards: Guards)
    | Update(next: Deployment)
    | Create(parts: seq<string>, row: Deployment)
    | Enqueue(job: Job)

  function Next(s: Store, step: Step, lifecycle: Lifecycle, lib: Library): Store {
    match step
    case Ask(input, id, at, guards) => Stored(s, Answered(s, input, id, at, guards, lifecycle, lib), input)
    case Update(next) => s.(rows := Updated(s.rows, next))
    case Create(_, row) => Store(Placed(s.rows, row), s.jobs + [Job(row.id, None)])
    case Enqueue(job) => s.(jobs := s.jobs + [job])
  }

  function Run(s: Store, steps: seq<Step>, lifecycle: Lifecycle, lib: Library): Store
    decreases |steps|
  {
    if steps == [] then s else Run(Next(s, steps[0], lifecycle, lib), steps[1..], lifecycle, lib)
  }

  /** An id no deployment and no job has. */
  predicate Unused(s: Store, id: string) {
    && (forall i :: 0 <= i < |s.rows| ==> s.rows[i].id != id)
    && (forall i :: 0 <= i < |s.jobs| ==> s.jobs[i].targetId != id)
  }

  const DEPLOYMENT := "dep"

  function DeploymentId(parts: seq<string>, names: DomainRouter.Library): string {
    DomainRouter.StableId(DEPLOYMENT, parts, names)
  }

  /** A request gets a new random id; other routes use stable ids, new or not, and set no keys. */
  predicate Admissible(s: Store, step: Step, names: DomainRouter.Library) {
    match step
    case Ask(_, id, _, _) => "dep_" <= id && Unused(s, id)
    case Create(parts, row) => row.id == DeploymentId(parts, names) && row.requestIdempotencyKey.None?
    case _ => true
  }

  predicate AdmissibleRun(s: Store, steps: seq<Step>, lifecycle: Lifecycle, lib: Library, names: DomainRouter.Library)
    decreases |steps|
  {
    steps != [] ==>
      && Admissible(s, steps[0], names)
      && AdmissibleRun(Next(s, steps[0], lifecycle, lib), steps[1..], lifecycle, lib, names)
  }

  // ---------------------------------------------------------------- the store in place

  /** The stored deployments and jobs, updated in place. */
  class OperationStore {
    var rows: seq<Deployment>
    var jobs: seq<Job>

    function Contents(): Store
      reads this
    {
      Store(rows, jobs)
    }

    method FindKeyed(serviceId: string, key: string) returns (found: Option<Deployment>)
      ensures found == Keyed(rows, serviceId, key)
    {
      var i := 0;
      while i < |rows| && !HasKey(rows[i], serviceId, key)
        invariant i <= |rows| && Keyed(rows, serviceId, key) == Keyed(rows[i..], serviceId, key)
      {
        assert rows[i..][1..] == rows[i + 1..];
        i := i + 1;
      }
      found := if i < |rows| then Some(rows[i]) else None;
    }

    method FindJob(targetId: string) returns (found: Option<Job>)
      ensures found == JobOf(jobs, targetId)
    {
      var i := 0;
      while i < |jobs| && jobs[i].targetId != targetId
        invariant i <= |jobs| && JobOf(jobs, targetId) == JobOf(jobs[i..], targetId)
      {
        assert jobs[i..][1..] == jobs[i + 1..];
        i := i + 1;
      }
      found := if i < |jobs| then Some(jobs[i]) else None;
    }

    method Locate(id: string) returns (k: nat)
      ensures k == IndexOfId(rows, id)
    {
      k := 0;
      while k < |rows| && rows[k].id != id
        invariant k <= |rows| && IndexOfId(rows, id) == k + IndexOfId(rows[k..], id)
      {
        assert rows[k..][1..] == rows[k + 1..];
        k := k + 1;
      }
    }

    method HasActive(serviceId: string, lifecycle: Lifecycle) returns (active: bool)
      ensures var serviceRows := ServiceRows(rows, serviceId);
        active <==> exists i :: 0 <= i < |serviceRows| && !lifecycle.terminal(serviceRows[i].status)
    {
      var i := 0;
      active := false;
      while i < |rows| && !active
        invariant i <= |rows|
        invariant active <==> ActiveAmong(rows[..i], serviceId, lifecycle)
      {
        assert rows[..i + 1] == rows[..i] + [rows[i]];
        active := rows[i].serviceId == serviceId && !lifecycle.terminal(rows[i].status);
        i := i + 1;
      }
      assert rows[..|rows|] == rows;
      ActiveOfService(rows, serviceId, lifecycle);
    }

    method Place(row: Deployment)
      modifies this`rows
      ensures rows == Placed(old(rows), row)
    {
      var k := Locate(row.id);
      rows := if k < |rows| then rows[k := row] else rows + [row];
    }

    method FindSource(input: Operation, lib: Library) returns (source: Option<Deployment>)
      ensures source == SourceOf(rows, input, lib)
    {
      if input.kind.Redeploy? { return EligibleSource(ServiceRows(rows, input.serviceId), lib); }
      var named := if input.sourceDeploymentId.Some? then input.sourceDeploymentId.value else [];
      var k := Locate(named);
      FoundAt(rows, named);
      source := if k < |rows| then Some(rows[k]) else None;
    }

    /** The guards, for a service that is there. */
    method Guarded(guards: Guards, user: string, deploymentType: Option<string>) returns (refusal: Option<Refusal>)
      requires !guards.service.Missing?
      ensures refusal == Obstacle(guards, user, deploymentType)
    {
      if guards.service.Deleting? { return Some(ServiceDeleting); }
      if guards.project.Missing? { return Some(SourceNotFound); }
      if guards.project.Deleting? { return Some(ProjectDeleting); }
      if user != "system" && user != [] && !guards.quota(user, deploymentType) { return Some(QuotaExceeded); }
      refusal := None;
    }

    /** One request, check by check. */
    method CreateDeploymentOperation(input: Operation, id: string, at: string, guards: Guards, lifecycle: Lifecycle,
                                     lib: Library) returns (answer: Answer)
      modifies this
      ensures answer == old(Answered(Contents(), input, id, at, guards, lifecycle, lib))
      ensures Contents() == old(Next(Contents(), Ask(input, id, at, guards), lifecycle, lib))
      ensures !answer.Created? ==> Contents() == old(Contents())
    {
      if guards.service.Missing? { return Denied(SourceNotFound); }
      var existing := FindKeyed(input.serviceId, input.requestIdempotencyKey);
      if existing.Some? {
        var job := FindJob(existing.value.id);
        if job.None? { return Denied(LineageJobMissing); }
        if job.value.request != Some(RequestOf(input)) { return Denied(IdempotencyConflict); }
        return Replayed(existing.value);
      }
      var source := FindSource(input, lib);
      var candidate := Successor(source, input, id, at);
      if candidate.Refused? { return Denied(candidate.why); }
      var active := HasActive(input.serviceId, lifecycle);
      if active { return Denied(ActiveDeployment); }
      var refusal := Guarded(guards, input.requestedByUserId, candidate.value.deploymentType);
      if refusal.Some? { return Denied(refusal.value); }
      Place(candidate.value);
      jobs := jobs + [Job(candidate.value.id, Some(RequestOf(input)))];
      answer := Created(candidate.value);
    }

    /** A deployment from another route, with its job. */
    method CreateDeployment(parts: seq<string>, row: Deployment, names: DomainRouter.Library) returns (id: string)
      modifies this
      ensures id == DeploymentId(parts, names) && exists i :: 0 <= i < |rows| && rows[i] == row.(id := id)
      ensures forall lifecycle, lib ::
        Contents() == old(Next(Contents(), Create(parts, row.(id := id)), lifecycle, lib))
    {
      id := DeploymentId(parts, names);
      ghost var k := IndexOfId(rows, id);
      Place(row.(id := id));
      jobs := jobs + [Job(id, None)];
      assert rows[k] == row.(id := id);
    }

    /** Refused when the lineage would change. */
    method UpdateDeployment(next: Deployment) returns (updated: bool)
      modifies this`rows
      ensures rows == Updated(old(rows), next)
      ensures updated <==> old(Has(rows, LineageOf(next)))
      ensures updated ==> exists i :: 0 <= i < |rows| && rows[i] == next
    {
      var k := Locate(next.id);
      updated := k < |rows| && LineageOf(rows[k]) == LineageOf(next);
      if updated {
        rows := rows[k := next];
        assert rows[k] == next;
      }
    }
  }

  predicate ActiveAmong(rows: seq<Deployment>, serviceId: string, lifecycle: Lifecycle) {
    exists i :: 0 <= i < |rows| && rows[i].serviceId == serviceId && !lifecycle.terminal(rows[i].status)
  }

  lemma ActiveOfService(rows: seq<Deployment>, serviceId: string, lifecycle: Lifecycle)
    ensures var serviceRows := ServiceRows(rows, serviceId);
      ActiveAmong(rows, serviceId, lifecycle)
      <==> exists i :: 0 <= i < |serviceRows| && !lifecycle.terminal(serviceRows[i].status)
  {
    var serviceRows := ServiceRows(rows, serviceId);
    forall i | 0 <= i < |rows| ensures rows[i].serviceId == serviceId ==> rows[i] in serviceRows {
      FilterMembers(rows, OfService(serviceId), rows[i]);
    }
    forall i | 0 <= i < |serviceRows| ensures serviceRows[i] in rows && serviceRows[i].serviceId == serviceId {
      FilterMembers(rows, OfService(serviceId), serviceRows[i]);
    }
  }

  lemma {:induction false} FoundAt(rows: seq<Deployment>, id: string)
    ensures var k := IndexOfId(rows, id); FindById(rows, id) == if k < |rows| then Some(rows[k]) else None
  {
    if rows != [] && rows[0].id != id {
      FoundAt(rows[1..], id);
    }
  }

  // ---------------------------------------------------------------- what every step keeps

  /** No deployment disappears or moves, and jobs are only added. */
  ghost predicate Grows(a: Store, b: Store) {
    SamePlaces(a.rows, b.rows) && a.jobs <= b.jobs
  }

  ghost predicate SamePlaces(a: seq<Deployment>, b: seq<Deployment>) {
    |a| <= |b| && forall i :: 0 <= i < |a| ==> b[i].id == a[i].id
  }

  /** In every run each deployment id stays where it is, and jobs are only added. What stands under an
      id may change. */
  lemma {:induction false} RunGrows(s: Store, steps: seq<Step>, lifecycle: Lifecycle, lib: Library)
    ensures Grows(s, Run(s, steps, lifecycle, lib))
    decreases |steps|
  {
    if steps != [] {
      var next := Next(s, steps[0], lifecycle, lib);
      StepGrows(s, steps[0], lifecycle, lib);
      RunGrows(next, steps[1..], lifecycle, lib);
    }
  }

  lemma StepGrows(s: Store, step: Step, lifecycle: Lifecycle, lib: Library)
    ensures Grows(s, Next(s, step, lifecycle, lib))
  {
  }

  lemma IndexKept(a: seq<Deployment>, b: seq<Deployment>, id: string)
    requires SamePlaces(a, b) && IndexOfId(a, id) < |a|
    ensures IndexOfId(b, id) == IndexOfId(a, id)
  {
    var k := IndexOfId(a, id);
    assert b[k].id == id;
    assert forall i :: 0 <= i < k ==> b[i].id == a[i].id;
  }

  // ---------------------------------------------------------------- lineages

  /** The deployment stored under the id has this lineage. */
  predicate Has(rows: seq<Deployment>, line: Lineage) {
    var k := IndexOfId(rows, line.id);
    k < |rows| && LineageOf(rows[k]) == line
  }

  /** A creation that stores another lineage under the id. */
  predicate Rival(step: Step, line: Lineage) {
    step.Create? && step.row.id == line.id && LineageOf(step.row) != line
  }

  predicate LineageLasts(s: Store, steps: seq<Step>, line: Lineage, lifecycle: Lifecycle, lib: Library)
    decreases |steps|
  {
    && Has(s.rows, line)
    && (steps != [] ==> LineageLasts(Next(s, steps[0], lifecycle, lib), steps[1..], line, lifecycle, lib))
  }

  lemma StepKeepsLineageIff(s: Store, step: Step, line: Lineage, lifecycle: Lifecycle, lib: Library,
                            names: DomainRouter.Library)
    requires Has(s.rows, line) && Admissible(s, step, names)
    ensures Has(Next(s, step, lifecycle, lib).rows, line) <==> !Rival(step, line)
  {
    StepGrows(s, step, lifecycle, lib);
    IndexKept(s.rows, Next(s, step, lifecycle, lib).rows, line.id);
    if step.Ask? {
      AskAppends(s, step, lifecycle, lib);
    }
  }

  lemma AskAppends(s: Store, step: Step, lifecycle: Lifecycle, lib: Library)
    requires step.Ask? && Unused(s, step.id)
    ensures s.rows <= Next(s, step, lifecycle, lib).rows
  {
    var answer := Answered(s, step.input, step.id, step.at, step.guards, lifecycle, lib);
    if answer.Created? {
      DecidedKey(s, step.input, step.id, step.at, step.guards, lifecycle, lib);
      NewIsLast(s.rows, answer.deployment);
    }
  }

  lemma NewIsLast(rows: seq<Deployment>, row: Deployment)
    requires forall i :: 0 <= i < |rows| ==> rows[i].id != row.id
    ensures Placed(rows, row) == rows + [row]
  {
  }

  /** The lineage stored under an id lasts through a run exactly when no creation on the way stores
      another one under the id. */
  lemma {:induction false} LineageLastsIff(s: Store, steps: seq<Step>, line: Lineage, lifecycle: Lifecycle,
                                           lib: Library, names: DomainRouter.Library)
    requires Has(s.rows, line) && AdmissibleRun(s, steps, lifecycle, lib, names)
    ensures LineageLasts(s, steps, line, lifecycle, lib)
       <==> forall i :: 0 <= i < |steps| ==> !Rival(steps[i], line)
    decreases |steps|
  {
    if steps != [] {
      StepKeepsLineageIff(s, steps[0], line, lifecycle, lib, names);
      if !Rival(steps[0], line) {
        LineageLastsIff(Next(s, steps[0], lifecycle, lib), steps[1..], line, lifecycle, lib, names);
        assert forall i :: 0 <= i < |steps[1..]| ==> steps[1..][i] == steps[i + 1];
        assert forall i :: 0 < i < |steps| ==> steps[i] == steps[1..][i - 1];
      }
    }
  }

  /** The failing case: two deployments of one commit of a service get one id, and the second takes
      the place of the first. */
  lemma SameCommitReplaces(s: Store, serviceId: string, commit: string, first: Deployment, second: Deployment,
                           lifecycle: Lifecycle, lib: Library, names: DomainRouter.Library)
    requires first.id == second.id == DeploymentId([serviceId, commit], names)
    requires first.requestIdempotencyKey.None? && second.requestIdempotencyKey.None?
    requires LineageOf(first) != LineageOf(second)
    ensures var parts := [serviceId, commit];
      var t := Next(s, Create(parts, first), lifecycle, lib);
      var t' := Next(t, Create(parts, second), lifecycle, lib);
      && Admissible(s, Create(parts, first), names) && Admissible(t, Create(parts, second), names)
      && Has(t.rows, LineageOf(first)) && !Has(t'.rows, LineageOf(first)) && |t'.rows| == |t.rows|
  {
    var rows := Placed(s.rows, first);
    PlacedAt(s.rows, first);
    PlacedAt(rows, second);
  }

  /** Of a service whose id has a slug of 59 characters or more, all deployments get one id. */
  lemma LongServiceSharesId(serviceId: string, a: string, b: string, names: DomainRouter.Library)
    requires DomainRouter.Lawful(names) && |DomainRouter.SlugOr(serviceId, "x", names)| >= 59
    ensures DeploymentId([serviceId, a], names) == DeploymentId([serviceId, b], names)
  {
    IdCutsService(serviceId, a, names);
    IdCutsService(serviceId, b, names);
  }

  lemma IdCutsService(serviceId: string, part: string, names: DomainRouter.Library)
    requires DomainRouter.Lawful(names) && |DomainRouter.SlugOr(serviceId, "x", names)| >= 59
    ensures DeploymentId([serviceId, part], names) == "dep-" + DomainRouter.SlugOr(serviceId, "x", names)[..59]
  {
    var slug, last := DomainRouter.SlugOr(serviceId, "x", names), DomainRouter.SlugOr(part, "x", names);
    DomainRouter.SlugShape(serviceId, "x", names);
    DomainRouter.SlugShape(part, "x", names);
    DomainRouter.JoinTwo(serviceId, part, names);
    CutService(slug, last);
    DomainRouter.LongSlugCut("dep-" + slug[..59], slug[59..] + "-" + last, DEPLOYMENT, names);
  }

  lemma CutService(slug: string, last: string)
    requires DomainRouter.LabelText(slug) && DomainRouter.NoDoubleHyphen(slug) && |slug| >= 59 && IsLowerAlnum(slug[0])
    requires DomainRouter.LabelText(last) && last != [] && IsLowerAlnum(last[0])
    ensures var x, y := "dep-" + slug[..59], slug[59..] + "-" + last;
      && DEPLOYMENT + "-" + (slug + "-" + last) == x + y
      && DomainRouter.LabelText(x) && DomainRouter.NoDoubleHyphen(x) && |x| == 63 && IsLowerAlnum(x[0])
      && DomainRouter.LabelText(y) && DomainRouter.HasAlnum(y)
  {
    var x, y := "dep-" + slug[..59], slug[59..] + "-" + last;
    assert slug == slug[..59] + slug[59..];
    assert y[|slug| - 59 + 1] == last[0];
    assert forall i :: 4 <= i < |x| ==> x[i] == slug[i - 4];
  }

  lemma PlacedAt(rows: seq<Deployment>, row: Deployment)
    ensures var k := IndexOfId(rows, row.id); IndexOfId(Placed(rows, row), row.id) == k && Placed(rows, row)[k] == row
  {
    var k := IndexOfId(rows, row.id);
    var placed := Placed(rows, row);
    assert placed[k].id == row.id && forall i :: 0 <= i < k ==> placed[i].id == rows[i].id;
  }

  // ---------------------------------------------------------------- keyed deployments

  /** A keyed deployment has an id that no stable id equals. */
  ghost predicate Marked(rows: seq<Deployment>) {
    forall i :: 0 <= i < |rows| && rows[i].requestIdempotencyKey.Some? ==> '_' in rows[i].id
  }

  lemma StableIdUnmarked(parts: seq<string>, names: DomainRouter.Library)
    ensures '_' !in DeploymentId(parts, names)
  {
    DomainRouter.SlugHasNoUnderscore(DEPLOYMENT + "-" + DomainRouter.JoinSlugs(parts, names), DEPLOYMENT, names);
  }

  /** Keys stay as they are, and keyed deployments keep their lineage. */
  ghost predicate KeysKept(a: seq<Deployment>, b: seq<Deployment>) {
    && |a| <= |b|
    && (forall i :: 0 <= i < |a| ==> b[i].requestIdempotencyKey == a[i].requestIdempotencyKey)
    && (forall i :: 0 <= i < |a| && a[i].requestIdempotencyKey.Some? ==> LineageOf(b[i]) == LineageOf(a[i]))
  }

  lemma StepKeepsKeys(s: Store, step: Step, lifecycle: Lifecycle, lib: Library, names: DomainRouter.Library)
    requires Marked(s.rows) && Admissible(s, step, names)
    ensures KeysKept(s.rows, Next(s, step, lifecycle, lib).rows) && Marked(Next(s, step, lifecycle, lib).rows)
  {
    match step
    case Ask(input, id, at, guards) => AskKeepsKeys(s, step, lifecycle, lib);
    case Create(parts, row) =>
      StableIdUnmarked(parts, names);
      PlacedKeepsKeys(s.rows, row);
    case _ =>
  }

  lemma AskKeepsKeys(s: Store, step: Step, lifecycle: Lifecycle, lib: Library)
    requires Marked(s.rows) && step.Ask? && "dep_" <= step.id && Unused(s, step.id)
    ensures KeysKept(s.rows, Next(s, step, lifecycle, lib).rows) && Marked(Next(s, step, lifecycle, lib).rows)
  {
    var answer := Answered(s, step.input, step.id, step.at, step.guards, lifecycle, lib);
    if answer.Created? {
      DecidedKey(s, step.input, step.id, step.at, step.guards, lifecycle, lib);
      NewIsLast(s.rows, answer.deployment);
      assert step.id[3] == '_';
    }
  }

  /** A creation without a key only ever replaces a deployment without one. */
  lemma PlacedKeepsKeys(rows: seq<Deployment>, row: Deployment)
    requires Marked(rows) && '_' !in row.id && row.requestIdempotencyKey.None?
    ensures KeysKept(rows, Placed(rows, row)) && Marked(Placed(rows, row))
  {
  }

  /** Keyed deployments last: in every run, every deployment that a request created keeps its lineage. */
  lemma {:induction false} KeyedRowsLast(s: Store, steps: seq<Step>, lifecycle: Lifecycle, lib: Library,
                                         names: DomainRouter.Library)
    requires Marked(s.rows) && AdmissibleRun(s, steps, lifecycle, lib, names)
    ensures KeysKept(s.rows, Run(s, steps, lifecycle, lib).rows) && Marked(Run(s, steps, lifecycle, lib).rows)
    decreases |steps|
  {
    if steps != [] {
      var next := Next(s, steps[0], lifecycle, lib);
      StepKeepsKeys(s, steps[0], lifecycle, lib, names);
      KeyedRowsLast(next, steps[1..], lifecycle, lib, names);
    }
  }

  lemma {:induction false} KeyedKept(a: seq<Deployment>, b: seq<Deployment>, serviceId: string, key: string)
    requires KeysKept(a, b) && Keyed(a, serviceId, key).Some?
    ensures Keyed(b, serviceId, key).Some?
    ensures LineageOf(Keyed(b, serviceId, key).value) == LineageOf(Keyed(a, serviceId, key).value)
  {
    assert HasKey(b[0], serviceId, key) <==> HasKey(a[0], serviceId, key);
    if !HasKey(a[0], serviceId, key) {
      KeyedKept(a[1..], b[1..], serviceId, key);
    }
  }

  lemma {:induction false} KeyedNone(rows: seq<Deployment>, serviceId: string, key: string)
    ensures Keyed(rows, serviceId, key).None? <==> forall i :: 0 <= i < |rows| ==> !HasKey(rows[i], serviceId, key)
  {
    if rows != [] {
      KeyedNone(rows[1..], serviceId, key);
      assert rows == [rows[0]] + rows[1..];
    }
  }

  lemma {:induction false} KeyedMember(rows: seq<Deployment>, serviceId: string, key: string)
    requires Keyed(rows, serviceId, key).Some?
    ensures var row := Keyed(rows, serviceId, key).value;
      HasKey(row, serviceId, key) && exists i :: 0 <= i < |rows| && rows[i] == row
  {
    if !HasKey(rows[0], serviceId, key) {
      KeyedMember(rows[1..], serviceId, key);
    } else {
      assert rows[0] == Keyed(rows, serviceId, key).value;
    }
  }

  lemma {:induction false} KeyedLast(rows: seq<Deployment>, row: Deployment, serviceId: string, key: string)
    requires Keyed(rows, serviceId, key).None? && HasKey(row, serviceId, key)
    ensures Keyed(rows + [row], serviceId, key) == Some(row)
  {
    if rows != [] {
      KeyedLast(rows[1..], row, serviceId, key);
      assert (rows + [row])[1..] == rows[1..] + [row];
    }
  }

  lemma {:induction false} JobKept(jobs: seq<Job>, more: seq<Job>, id: string)
    requires jobs <= more && JobOf(jobs, id).Some?
    ensures JobOf(more, id) == JobOf(jobs, id)
  {
    assert jobs[0] == more[0];
    if jobs[0].targetId != id {
      JobKept(jobs[1..], more[1..], id);
    }
  }

  lemma {:induction false} JobLast(jobs: seq<Job>, job: Job)
    requires forall i :: 0 <= i < |jobs| ==> jobs[i].targetId != job.targetId
    ensures JobOf(jobs + [job], job.targetId) == Some(job)
  {
    if jobs != [] {
      JobLast(jobs[1..], job);
      assert (jobs + [job])[1..] == jobs[1..] + [job];
    }
  }

  // ---------------------------------------------------------------- keys

  /** What a successor carries of the request that made it. */
  lemma DecidedKey(s: Store, input: Operation, id: string, at: string, guards: Guards, lifecycle: Lifecycle,
                   lib: Library)
    requires Decide(s.rows, input, id, at, guards, lifecycle, lib).Accepted?
    ensures var d := Decide(s.rows, input, id, at, guards, lifecycle, lib).value;
      d.id == id && HasKey(d, input.serviceId, input.requestIdempotencyKey) && d.status.Queued?
  {
  }

  /** A key is answered once and for all: after the request that created a deployment, and after any
      further steps, the same request gets that deployment back, another request with the key is
      refused, and neither stores anything. */
  lemma KeyAnsweredForever(s: Store, input: Operation, id: string, at: string, guards: Guards, steps: seq<Step>,
                           again: Operation, id': string, at': string, guards': Guards, lifecycle: Lifecycle,
                           lib: Library, names: DomainRouter.Library)
    requires Marked(s.rows) && Answered(s, input, id, at, guards, lifecycle, lib).Created?
    requires AdmissibleRun(s, [Ask(input, id, at, guards)] + steps, lifecycle, lib, names)
    requires again.serviceId == input.serviceId && again.requestIdempotencyKey == input.requestIdempotencyKey
    requires !guards'.service.Missing?
    ensures var first := Answered(s, input, id, at, guards, lifecycle, lib).deployment;
      var t := Run(Next(s, Ask(input, id, at, guards), lifecycle, lib), steps, lifecycle, lib);
      var answer := Answered(t, again, id', at', guards', lifecycle, lib);
      && (RequestOf(again) == RequestOf(input) ==>
            answer.Replayed? && answer.deployment in t.rows && LineageOf(answer.deployment) == LineageOf(first))
      && (RequestOf(again) != RequestOf(input) ==> answer == Denied(IdempotencyConflict))
      && Next(t, Ask(again, id', at', guards'), lifecycle, lib) == t
  {
    var serviceId, key, ask := input.serviceId, input.requestIdempotencyKey, Ask(input, id, at, guards);
    var first := Answered(s, input, id, at, guards, lifecycle, lib).deployment;
    var next := Next(s, ask, lifecycle, lib);
    var t := Run(next, steps, lifecycle, lib);
    assert ([ask] + steps)[1..] == steps;
    DecidedKey(s, input, id, at, guards, lifecycle, lib);
    NewIsLast(s.rows, first);
    KeyedLast(s.rows, first, serviceId, key);
    JobLast(s.jobs, Job(id, Some(RequestOf(input))));
    StepKeepsKeys(s, ask, lifecycle, lib, names);
    RunGrows(next, steps, lifecycle, lib);
    KeyedRowsLast(next, steps, lifecycle, lib, names);
    KeyedKept(next.rows, t.rows, serviceId, key);
    KeyedMember(t.rows, serviceId, key);
    JobKept(next.jobs, t.jobs, id);
  }

  /** No two deployments of a service share a key. */
  ghost predicate OnePerKey(rows: seq<Deployment>) {
    forall i, j :: 0 <= i < j < |rows| && rows[i].requestIdempotencyKey.Some? && rows[i].serviceId == rows[j].serviceId
      ==> rows[i].requestIdempotencyKey != rows[j].requestIdempotencyKey
  }

  /** Every deployment that a keyed request created has its job. */
  ghost predicate Tracked(s: Store) {
    forall i :: 0 <= i < |s.rows| && s.rows[i].requestIdempotencyKey.Some? ==> JobOf(s.jobs, s.rows[i].id).Some?
  }

  ghost predicate Inv(s: Store) {
    UniqueIds(s.rows) && Marked(s.rows) && OnePerKey(s.rows) && Tracked(s)
  }

  lemma AskedKeeps(s: Store, d: Deployment, job: Job)
    requires Inv(s) && Unused(s, d.id) && job.targetId == d.id && d.requestIdempotencyKey.Some? && '_' in d.id
    requires Keyed(s.rows, d.serviceId, d.requestIdempotencyKey.value).None?
    ensures Inv(Store(s.rows + [d], s.jobs + [job]))
  {
    KeyedNone(s.rows, d.serviceId, d.requestIdempotencyKey.value);
    assert forall i :: 0 <= i < |s.rows| ==> !HasKey(s.rows[i], d.serviceId, d.requestIdempotencyKey.value);
    JobLast(s.jobs, job);
    JobsKept(s, s.jobs + [job]);
  }

  lemma CreatedKeeps(s: Store, row: Deployment, job: Job)
    requires Inv(s) && '_' !in row.id && row.requestIdempotencyKey.None?
    ensures Inv(Store(Placed(s.rows, row), s.jobs + [job]))
  {
    JobsKept(s, s.jobs + [job]);
    PlacedKeepsKeys(s.rows, row);
    PlacedKeepsTable(s.rows, row);
    var placed := Placed(s.rows, row);
    assert forall i :: 0 <= i < |placed| && placed[i].requestIdempotencyKey.Some? ==>
        i < |s.rows| && placed[i] == s.rows[i];
  }

  lemma PlacedKeepsTable(rows: seq<Deployment>, row: Deployment)
    requires UniqueIds(rows) && OnePerKey(rows) && row.requestIdempotencyKey.None?
    ensures UniqueIds(Placed(rows, row)) && OnePerKey(Placed(rows, row))
  {
    var placed := Placed(rows, row);
    assert forall i :: 0 <= i < |placed| ==>
        (i == IndexOfId(rows, row.id) && placed[i] == row) || (i < |rows| && placed[i] == rows[i]);
  }

  lemma JobsKept(s: Store, more: seq<Job>)
    requires Tracked(s) && s.jobs <= more
    ensures Tracked(s.(jobs := more))
  {
    forall i | 0 <= i < |s.rows| && s.rows[i].requestIdempotencyKey.Some? ensures JobOf(more, s.rows[i].id).Some? {
      JobKept(s.jobs, more, s.rows[i].id);
    }
  }

  lemma StepKeeps(s: Store, step: Step, lifecycle: Lifecycle, lib: Library, names: DomainRouter.Library)
    requires Inv(s) && Admissible(s, step, names)
    ensures Inv(Next(s, step, lifecycle, lib))
  {
    match step
    case Ask(input, id, at, guards) =>
      var answer := Answered(s, input, id, at, guards, lifecycle, lib);
      if answer.Created? {
        DecidedKey(s, input, id, at, guards, lifecycle, lib);
        NewIsLast(s.rows, answer.deployment);
        assert id[3] == '_';
        AskedKeeps(s, answer.deployment, Job(id, Some(RequestOf(input))));
      }
    case Update(next) =>
      var rows := Updated(s.rows, next);
      assert forall i :: 0 <= i < |rows| ==> LineageOf(rows[i]) == LineageOf(s.rows[i]);
      LineageDecides(s, rows);
    case Create(parts, row) =>
      StableIdUnmarked(parts, names);
      CreatedKeeps(s, row, Job(row.id, None));
    case Enqueue(job) => JobsKept(s, s.jobs + [job]);
  }

  lemma LineageDecides(s: Store, rows: seq<Deployment>)
    requires Inv(s) && |rows| == |s.rows|
    requires forall i :: 0 <= i < |rows| ==> LineageOf(rows[i]) == LineageOf(s.rows[i])
    ensures Inv(s.(rows := rows))
  {
    assert forall i :: 0 <= i < |rows| ==> rows[i].id == s.rows[i].id && rows[i].serviceId == s.rows[i].serviceId
                                           && rows[i].requestIdempotencyKey == s.rows[i].requestIdempotencyKey;
  }

  /** In every run there is at most one deployment per service and key, and the job of a used key is
      never missing. */
  lemma {:induction false} RunKeeps(s: Store, steps: seq<Step>, lifecycle: Lifecycle, lib: Library,
                                    names: DomainRouter.Library)
    requires Inv(s) && AdmissibleRun(s, steps, lifecycle, lib, names)
    ensures var t := Run(s, steps, lifecycle, lib);
      && Inv(t)
      && forall input, id, at, guards :: Answered(t, input, id, at, guards, lifecycle, lib) != Denied(LineageJobMissing)
    decreases |steps|
  {
    if steps == [] {
      forall input, id, at, guards
        ensures Answered(s, input, id, at, guards, lifecycle, lib) != Denied(LineageJobMissing)
      {
        JobNeverMissing(s, input, id, at, guards, lifecycle, lib);
      }
    } else {
      StepKeeps(s, steps[0], lifecycle, lib, names);
      RunKeeps(Next(s, steps[0], lifecycle, lib), steps[1..], lifecycle, lib, names);
    }
  }

  lemma JobNeverMissing(s: Store, input: Operation, id: string, at: string, guards: Guards, lifecycle: Lifecycle,
                        lib: Library)
    requires Tracked(s)
    ensures Answered(s, input, id, at, guards, lifecycle, lib) != Denied(LineageJobMissing)
  {
    var existing := Keyed(s.rows, input.serviceId, input.requestIdempotencyKey);
    if existing.Some? {
      KeyedMember(s.rows, input.serviceId, input.requestIdempotencyKey);
      assert JobOf(s.jobs, existing.value.id).Some?;
    } else {
      DecisionReasons(s.rows, input, id, at, guards, lifecycle, lib);
    }
  }

  /** A decision never blames a missing job. */
  lemma DecisionReasons(rows: seq<Deployment>, input: Operation, id: string, at: string, guards: Guards,
                        lifecycle: Lifecycle, lib: Library)
    ensures Decide(rows, input, id, at, guards, lifecycle, lib) != Refused(LineageJobMissing)
  {
  }

  // ---------------------------------------------------------------- active deployments

  /** No service has two active deployments. */
  ghost predicate OneActive(rows: seq<Deployment>, lifecycle: Lifecycle) {
    forall i, j :: 0 <= i < j < |rows| && rows[i].serviceId == rows[j].serviceId
      ==> lifecycle.terminal(rows[i].status) || lifecycle.terminal(rows[j].status)
  }

  /** No other deployment of the service is active. */
  predicate Quiet(rows: seq<Deployment>, row: Deployment, lifecycle: Lifecycle) {
    forall i :: 0 <= i < |rows| && rows[i].serviceId == row.serviceId && rows[i].id != row.id
      ==> lifecycle.terminal(rows[i].status)
  }

  /** Whether a step leaves at most one active deployment; to be known before it is taken. */
  predicate Orderly(s: Store, step: Step, lifecycle: Lifecycle) {
    match step
    case Update(next) =>
      Has(s.rows, LineageOf(next)) ==> lifecycle.terminal(next.status) || Quiet(s.rows, next, lifecycle)
    case Create(_, row) => lifecycle.terminal(row.status) || Quiet(s.rows, row, lifecycle)
    case _ => true
  }

  lemma AddedActive(rows: seq<Deployment>, row: Deployment, lifecycle: Lifecycle)
    requires OneActive(rows, lifecycle) && forall i :: 0 <= i < |rows| ==> rows[i].id != row.id
    ensures OneActive(rows + [row], lifecycle) <==> lifecycle.terminal(row.status) || Quiet(rows, row, lifecycle)
  {
    var more := rows + [row];
    if OneActive(more, lifecycle) && !lifecycle.terminal(row.status) {
      forall i | 0 <= i < |rows| && rows[i].serviceId == row.serviceId ensures lifecycle.terminal(rows[i].status) {
        assert more[i] == rows[i] && more[|rows|] == row;
      }
    }
  }

  lemma ReplacedActive(rows: seq<Deployment>, row: Deployment, k: nat, lifecycle: Lifecycle)
    requires UniqueIds(rows) && OneActive(rows, lifecycle) && k < |rows| && rows[k].id == row.id
    ensures OneActive(rows[k := row], lifecycle) <==> lifecycle.terminal(row.status) || Quiet(rows, row, lifecycle)
  {
    var after := rows[k := row];
    assert forall i :: 0 <= i < |rows| && i != k ==> rows[i].id != row.id;
    if OneActive(after, lifecycle) && !lifecycle.terminal(row.status) {
      forall i | 0 <= i < |rows| && rows[i].serviceId == row.serviceId && rows[i].id != row.id
        ensures lifecycle.terminal(rows[i].status)
      {
        assert i != k && after[i] == rows[i] && after[k] == row;
      }
    }
  }

  lemma PlacedActive(rows: seq<Deployment>, row: Deployment, lifecycle: Lifecycle)
    requires UniqueIds(rows) && OneActive(rows, lifecycle)
    ensures OneActive(Placed(rows, row), lifecycle) <==> lifecycle.terminal(row.status) || Quiet(rows, row, lifecycle)
  {
    var k := IndexOfId(rows, row.id);
    if k < |rows| {
      ReplacedActive(rows, row, k, lifecycle);
    } else {
      AddedActive(rows, row, lifecycle);
    }
  }

  /** A request is only accepted for a service without an active deployment. */
  lemma AcceptedQuiet(s: Store, input: Operation, id: string, at: string, guards: Guards, lifecycle: Lifecycle,
                      lib: Library)
    requires Decide(s.rows, input, id, at, guards, lifecycle, lib).Accepted?
    ensures Quiet(s.rows, Decide(s.rows, input, id, at, guards, lifecycle, lib).value, lifecycle)
  {
    var serviceRows := ServiceRows(s.rows, input.serviceId);
    var d := Decide(s.rows, input, id, at, guards, lifecycle, lib).value;
    forall i | 0 <= i < |s.rows| && s.rows[i].serviceId == d.serviceId ensures lifecycle.terminal(s.rows[i].status) {
      FilterMembers(s.rows, OfService(input.serviceId), s.rows[i]);
      var k :| 0 <= k < |serviceRows| && serviceRows[k] == s.rows[i];
    }
  }

  lemma StepActive(s: Store, step: Step, lifecycle: Lifecycle, lib: Library, names: DomainRouter.Library)
    requires Inv(s) && Admissible(s, step, names) && OneActive(s.rows, lifecycle)
    ensures OneActive(Next(s, step, lifecycle, lib).rows, lifecycle) <==> Orderly(s, step, lifecycle)
  {
    match step
    case Ask(input, id, at, guards) =>
      var answer := Answered(s, input, id, at, guards, lifecycle, lib);
      if answer.Created? {
        DecidedKey(s, input, id, at, guards, lifecycle, lib);
        AcceptedQuiet(s, input, id, at, guards, lifecycle, lib);
        PlacedActive(s.rows, answer.deployment, lifecycle);
      }
    case Update(next) =>
      if Has(s.rows, LineageOf(next)) {
        ReplacedActive(s.rows, next, IndexOfId(s.rows, next.id), lifecycle);
      }
    case Create(_, row) => PlacedActive(s.rows, row, lifecycle);
    case Enqueue(job) =>
  }

  ghost predicate AlwaysOneActive(s: Store, steps: seq<Step>, lifecycle: Lifecycle, lib: Library)
    decreases |steps|
  {
    && OneActive(s.rows, lifecycle)
    && (steps != [] ==> AlwaysOneActive(Next(s, steps[0], lifecycle, lib), steps[1..], lifecycle, lib))
  }

  predicate OrderlyRun(s: Store, steps: seq<Step>, lifecycle: Lifecycle, lib: Library)
    decreases |steps|
  {
    steps != [] ==>
      Orderly(s, steps[0], lifecycle) && OrderlyRun(Next(s, steps[0], lifecycle, lib), steps[1..], lifecycle, lib)
  }

  /** A service has at most one active deployment throughout a run exactly when no update and no other
      route makes a deployment active beside another one. Requests never do. */
  lemma {:induction false} OneActiveIff(s: Store, steps: seq<Step>, lifecycle: Lifecycle, lib: Library,
                                        names: DomainRouter.Library)
    requires Inv(s) && AdmissibleRun(s, steps, lifecycle, lib, names) && OneActive(s.rows, lifecycle)
    ensures AlwaysOneActive(s, steps, lifecycle, lib) <==> OrderlyRun(s, steps, lifecycle, lib)
    decreases |steps|
  {
    if steps != [] {
      StepKeeps(s, steps[0], lifecycle, lib, names);
      StepActive(s, steps[0], lifecycle, lib, names);
      if Orderly(s, steps[0], lifecycle) {
        OneActiveIff(Next(s, steps[0], lifecycle, lib), steps[1..], lifecycle, lib, names);
      }
    }
  }

  /** The failing case: a FAILED deployment is retried, and then moves on to BUILDING itself, which the
      lifecycle allows by `RevivalAllowed`. */
  lemma RevivedBesideRetry(failed: Deployment, retry: Deployment, ask: Step, lib: Library,
                           names: DomainRouter.Library)
    requires ask.Ask? && "dep_" <= ask.id && ask.id != failed.id && failed.status.Failed?
    requires retry.id == ask.id && retry.serviceId == failed.serviceId && retry.status.Queued?
    requires Next(Store([failed], []), ask, Contract(), lib).rows == [failed, retry]
    ensures DoublesActive(Store([failed], []), [ask, Update(failed.(status := Building))], lib, names)
  {
    TwoSteps(Store([failed], []), ask, Update(failed.(status := Building)), Contract(), lib, names);
    BothActive(failed, retry);
  }

  lemma RevivalAllowed()
    ensures Building in Contract().next(Failed) && !Contract().terminal(Building)
  {
  }

  /** Every accepted retry is stored that way. */
  lemma RetryStored(failed: Deployment, ask: Step, lib: Library) returns (retry: Deployment)
    requires ask.Ask? && ask.id != failed.id
    requires Answered(Store([failed], []), ask.input, ask.id, ask.at, ask.guards, Contract(), lib).Created?
    ensures retry.id == ask.id && retry.serviceId == ask.input.serviceId && retry.status.Queued?
    ensures Next(Store([failed], []), ask, Contract(), lib).rows == [failed, retry]
  {
    var s := Store([failed], []);
    retry := Answered(s, ask.input, ask.id, ask.at, ask.guards, Contract(), lib).deployment;
    DecidedKey(s, ask.input, ask.id, ask.at, ask.guards, Contract(), lib);
    NewIsLast(s.rows, retry);
  }

  lemma BothActive(failed: Deployment, retry: Deployment)
    requires retry.id != failed.id && retry.serviceId == failed.serviceId && retry.status.Queued?
    ensures !OneActive(Updated([failed, retry], failed.(status := Building)), Contract())
  {
    var after := Updated([failed, retry], failed.(status := Building));
    assert after[0] == failed.(status := Building) && after[1] == retry;
  }

  lemma TwoSteps(s: Store, a: Step, b: Step, lifecycle: Lifecycle, lib: Library, names: DomainRouter.Library)
    ensures Run(s, [a, b], lifecycle, lib) == Next(Next(s, a, lifecycle, lib), b, lifecycle, lib)
    ensures AdmissibleRun(s, [a, b], lifecycle, lib, names)
       <==> Admissible(s, a, names) && Admissible(Next(s, a, lifecycle, lib), b, names)
  {
    var next := Next(s, a, lifecycle, lib);
    assert [a, b][1..] == [b] && [b][1..] == [];
    assert Run(next, [b], lifecycle, lib) == Run(Next(next, b, lifecycle, lib), [b][1..], lifecycle, lib);
    assert AdmissibleRun(next, [b], lifecycle, lib, names)
      == (Admissible(next, b, names) && AdmissibleRun(Next(next, b, lifecycle, lib), [b][1..], lifecycle, lib, names));
  }

  /** And a retry is accepted whenever the deployment can be replayed and no guard stands in the way. */
  lemma RetryAccepted(failed: Deployment, input: Operation, id: string, at: string, guards: Guards, lib: Library)
    requires failed.status.Failed? && failed.requestIdempotencyKey.None? && CanReplay(failed, Retry)
    requires input.kind.Retry? && input.serviceId == failed.serviceId && input.sourceDeploymentId == Some(failed.id)
    requires input.snapshotVersion == 1 && Obstacle(guards, input.requestedByUserId, TypeOf(failed)).None?
    ensures Answered(Store([failed], []), input, id, at, guards, Contract(), lib).Created?
  {
    assert [failed][1..] == [];
    assert Keyed([failed][1..], input.serviceId, input.requestIdempotencyKey) == None;
    assert Filter([failed][1..], OfService(failed.serviceId)) == [];
    assert ServiceRows([failed], failed.serviceId) == [failed];
    assert FindById([failed], failed.id) == Some(failed);
    ReplayAcceptance(failed, input, id, at);
  }

  /** Altogether: every FAILED deployment that can be replayed and that no guard protects has a run of
      two steps after which its service has two active deployments. */
  lemma FailedCanDouble(failed: Deployment, ask: Step, lib: Library, names: DomainRouter.Library)
    returns (steps: seq<Step>)
    requires failed.status.Failed? && failed.requestIdempotencyKey.None? && CanReplay(failed, Retry)
    requires ask.Ask? && "dep_" <= ask.id && ask.id != failed.id
    requires ask.input.kind.Retry? && ask.input.serviceId == failed.serviceId && ask.input.snapshotVersion == 1
    requires ask.input.sourceDeploymentId == Some(failed.id)
    requires Obstacle(ask.guards, ask.input.requestedByUserId, TypeOf(failed)).None?
    ensures |steps| == 2 && DoublesActive(Store([failed], []), steps, lib, names)
  {
    RetryAccepted(failed, ask.input, ask.id, ask.at, ask.guards, lib);
    steps := RetryDoubles(failed, ask, lib, names);
  }

  lemma RetryDoubles(failed: Deployment, ask: Step, lib: Library, names: DomainRouter.Library)
    returns (steps: seq<Step>)
    requires failed.status.Failed? && ask.Ask? && "dep_" <= ask.id && ask.id != failed.id
    requires ask.input.serviceId == failed.serviceId
    requires Answered(Store([failed], []), ask.input, ask.id, ask.at, ask.guards, Contract(), lib).Created?
    ensures |steps| == 2 && DoublesActive(Store([failed], []), steps, lib, names)
  {
    var retry := RetryStored(failed, ask, lib);
    steps := [ask, Update(failed.(status := Building))];
    RevivedBesideRetry(failed, retry, ask, lib, names);
  }

  ghost predicate DoublesActive(s: Store, steps: seq<Step>, lib: Library, names: DomainRouter.Library) {
    && AdmissibleRun(s, steps, Contract(), lib, names)
    && OneActive(s.rows, Contract()) && !OneActive(Run(s, steps, Contract(), lib).rows, Contract())
  }

  // ---------------------------------------------------------------- answers, told by the fields

  /** The first deployment of a service that was requested with a key. */
  predicate FirstWithKey(rows: seq<Deployment>, i: nat, serviceId: string, key: string) {
    && i < |rows| && rows[i].serviceId == serviceId && rows[i].requestIdempotencyKey == Some(key)
    && forall j :: 0 <= j < i ==> rows[j].serviceId != serviceId || rows[j].requestIdempotencyKey != Some(key)
  }

  /** The first job of a deployment. */
  predicate FirstJob(jobs: seq<Job>, j: nat, id: string) {
    j < |jobs| && jobs[j].targetId == id && forall k :: 0 <= k < j ==> jobs[k].targetId != id
  }

  lemma {:induction false} KeyedIsFirst(rows: seq<Deployment>, i: nat, serviceId: string, key: string)
    requires FirstWithKey(rows, i, serviceId, key)
    ensures Keyed(rows, serviceId, key) == Some(rows[i])
  {
    if i > 0 {
      KeyedIsFirst(rows[1..], i - 1, serviceId, key);
    }
  }

  lemma {:induction false} JobIsFirst(jobs: seq<Job>, j: nat, id: string)
    requires FirstJob(jobs, j, id)
    ensures JobOf(jobs, id) == Some(jobs[j])
  {
    if j > 0 {
      JobIsFirst(jobs[1..], j - 1, id);
    }
  }

  /** A used key is answered from its deployment if its job recorded the same kind, source and snapshot
      version, and refused as a conflict otherwise. */
  lemma UsedKeyAnswer(s: Store, input: Operation, id: string, at: string, guards: Guards, lifecycle: Lifecycle,
                      lib: Library, i: nat, j: nat)
    requires guards.service != Missing
    requires FirstWithKey(s.rows, i, input.serviceId, input.requestIdempotencyKey)
    requires FirstJob(s.jobs, j, s.rows[i].id)
    ensures var answer, request := Answered(s, input, id, at, guards, lifecycle, lib), s.jobs[j].request;
      var same := request.Some? && request.value.kind == input.kind
                  && request.value.sourceDeploymentId == input.sourceDeploymentId
                  && request.value.snapshotVersion == input.snapshotVersion;
      answer == if same then Replayed(s.rows[i]) else Denied(IdempotencyConflict)
  {
    KeyedIsFirst(s.rows, i, input.serviceId, input.requestIdempotencyKey);
    JobIsFirst(s.jobs, j, s.rows[i].id);
  }

  /** A new key is answered with the decision. */
  lemma NewKeyAnswer(s: Store, input: Operation, id: string, at: string, guards: Guards, lifecycle: Lifecycle,
                     lib: Library)
    requires forall i :: 0 <= i < |s.rows| && s.rows[i].serviceId == input.serviceId ==>
               s.rows[i].requestIdempotencyKey != Some(input.requestIdempotencyKey)
    ensures var answer, decision := Answered(s, input, id, at, guards, lifecycle, lib),
                                    Decide(s.rows, input, id, at, guards, lifecycle, lib);
      answer == if decision.Accepted? then Created(decision.value) else Denied(decision.why)
  {
    KeyedNone(s.rows, input.serviceId, input.requestIdempotencyKey);
  }
}
