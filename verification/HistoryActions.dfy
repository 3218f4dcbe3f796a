/** The single action a history row offers, and whether the operation behind it will accept it
    (packages/core/src/deployment-history.ts, packages/core/src/deployments.ts,
    packages/core/src/persistence.ts). */
module HistoryActions {
  import opened Text
  import opened Json
  import opened Sorting
  import opened DeploymentOperations
  import opened HistoryPages

  /** The deployment lifecycle table: which states follow one, and which have completed. */
  datatype Lifecycle = Lifecycle(next: Status -> set<Status>, terminal: Status -> bool)

  /** The table the repository ships (packages/core/src/lifecycle-v1.json). */
  function NextStates(status: Status): set<Status> {
    match status
    case Queued => {Building, Cancelled, Failed}
    case Building => {ImageReady, BuildFailed, Failed, Cancelled}
    case ImageReady => {Deploying, ReadyStatus, Failed, Cancelled}
    case Deploying => {ReadyStatus, Failed, CleanedUp}
    case ReadyStatus => {PreviewCleanupRequested, RollbackRequested}
    case BuildFailed => {Building, PreviewCleanupRequested}
    case Failed => {Building, PreviewCleanupRequested, RollbackRequested}
    case Cancelled => {PreviewCleanupRequested}
    case PreviewCleanupRequested => {Deploying, CleanedUp, Failed}
    case RollbackRequested => {Deploying, Failed}
    case CleanedUp => {}
  }

  predicate TerminalState(status: Status) {
    status.ReadyStatus? || status.BuildFailed? || status.Failed? || status.Cancelled? || status.CleanedUp?
  }

  function Contract(): Lifecycle {
    Lifecycle(NextStates, TerminalState)
  }

  predicate CanCancel(status: Status, lifecycle: Lifecycle) {
    Cancelled in lifecycle.next(status)
  }

  datatype ActionKind = CancelAction | RetryAction | RedeployAction | RollbackAction

  datatype Action = Action(kind: ActionKind, targetId: string, href: string, snapshotVersion: Option<int>)

  function PositiveInteger(value: Option<int>): Option<int> {
    if value.Some? && value.value > 0 then value else None
  }

  function HistoryOperation(source: Deployment, kind: OperationKind, version: int): Operation {
    Operation(kind, source.serviceId, Some(source.id), "history", "history", version)
  }

  predicate CanReplay(source: Deployment, kind: OperationKind) {
    var version := PositiveInteger(source.snapshotVersion);
    version.Some? && Successor(Some(source), HistoryOperation(source, kind, version.value), "", "").Accepted?
  }

  function Filter(rows: seq<Deployment>, keep: Deployment -> bool): seq<Deployment> {
    if rows == [] then [] else (if keep(rows[0]) then [rows[0]] else []) + Filter(rows[1..], keep)
  }

  /** The newest row that satisfies `keep`. */
  function Newest(rows: seq<Deployment>, keep: Deployment -> bool, lib: Library): Option<Deployment> {
    var q := Sorted(Filter(rows, keep), Newer(lib));
    if q == [] then None else Some(q[0])
  }

  predicate OtherActive(row: Deployment, serviceRows: seq<Deployment>, lifecycle: Lifecycle) {
    exists i :: 0 <= i < |serviceRows| && serviceRows[i].id != row.id && !lifecycle.terminal(serviceRows[i].status)
  }

  predicate HasImage(row: Deployment) {
    (row.imageUrl.Some? && row.imageUrl.value != []) || (row.image.Some? && row.image.value != [])
  }

  predicate PreviousReady(row: Deployment, candidate: Deployment, lib: Library) {
    candidate.id != row.id && candidate.status.ReadyStatus? && HasImage(candidate)
    && Below(PositionOf(candidate, lib), PositionOf(row, lib), lib.less)
  }

  function OfService(serviceId: string): Deployment -> bool {
    (c: Deployment) => c.serviceId == serviceId
  }

  function Replayable(): Deployment -> bool {
    (c: Deployment) => CanReplay(c, Redeploy)
  }

  function EligiblyStopped(): Deployment -> bool {
    (c: Deployment) => EligibleStatus(Redeploy, c.status)
  }

  function ReadyBefore(row: Deployment, lib: Library): Deployment -> bool {
    (c: Deployment) => PreviousReady(row, c, lib)
  }

  function ServiceRows(rows: seq<Deployment>, serviceId: string): seq<Deployment> {
    Filter(rows, OfService(serviceId))
  }

  datatype RetryReason = PermissionDenied | StatusNotRetryable | ActiveElsewhere | SourceNotRetryable

  function RetryObstacle(row: Deployment, serviceRows: seq<Deployment>, execute: bool,
                         lifecycle: Lifecycle): Option<RetryReason> {
    if !execute then Some(PermissionDenied)
    else if !(row.status.BuildFailed? || row.status.Failed?) then Some(StatusNotRetryable)
    else if OtherActive(row, serviceRows, lifecycle) then Some(ActiveElsewhere)
    else if !CanReplay(row, Retry) then Some(SourceNotRetryable)
    else None
  }

  function RedeploySource(serviceRows: seq<Deployment>, lib: Library): Option<Deployment> {
    Newest(serviceRows, Replayable(), lib)
  }

  function EligibleAction(row: Deployment, serviceRows: seq<Deployment>, execute: bool, lifecycle: Lifecycle,
                          lib: Library): Option<Action> {
    if !execute then None
    else if CanCancel(row.status, lifecycle)
    then Some(Action(CancelAction, row.id, "/deployments/" + row.id + "/cancel", None))
    else if (row.status.BuildFailed? || row.status.Failed?) && RetryObstacle(row, serviceRows, true, lifecycle).None?
    then Some(Action(RetryAction, row.id, "/deployments/" + row.id + "/retry", PositiveInteger(row.snapshotVersion)))
    else if OtherActive(row, serviceRows, lifecycle) then None
    else if row.status.ReadyStatus? && Newest(serviceRows, ReadyBefore(row, lib), lib).Some?
    then Some(Action(RollbackAction, row.id, "/deployments/" + row.id + "/rollback", None))
    else
      var source := RedeploySource(serviceRows, lib);
      if source.Some? && (row.status.ReadyStatus? || row.status.Cancelled? || row.status.CleanedUp?)
      then Some(Action(RedeployAction, row.serviceId, "/services/" + row.serviceId + "/redeploy",
                       PositiveInteger(source.value.snapshotVersion)))
      else None
  }

  // ---------------------------------------------------------------- the operation behind the offer

  datatype Presence = Missing | Present | Deleting

  /** What an operation checks besides the deployments: its service, its project, and whether a user
      may create one more deployment of a type. */
  datatype Guards = Guards(service: Presence, project: Presence, quota: (string, Option<string>) -> bool)

  /** The guard that stops a deployment from being stored, if one does. The system user has no quota. */
  function Obstacle(guards: Guards, user: string, deploymentType: Option<string>): Option<Refusal> {
    if guards.service.Missing? then Some(SourceNotFound)
    else if guards.service.Deleting? then Some(ServiceDeleting)
    else if guards.project.Missing? then Some(SourceNotFound)
    else if guards.project.Deleting? then Some(ProjectDeleting)
    else if user != "system" && user != [] && !guards.quota(user, deploymentType) then Some(QuotaExceeded)
    else None
  }

  /** How a request with a new key is decided: the service found, the source looked up, its successor
      built, no deployment of the service active, and then the guards. */
  function Decide(rows: seq<Deployment>, input: Operation, id: string, at: string, guards: Guards,
                  lifecycle: Lifecycle, lib: Library): Outcome<Deployment> {
    var serviceRows := ServiceRows(rows, input.serviceId);
    var candidate := Successor(SourceOf(rows, input, lib), input, id, at);
    if guards.service.Missing? then Refused(SourceNotFound)
    else if candidate.Refused? then candidate
    else if exists i :: 0 <= i < |serviceRows| && !lifecycle.terminal(serviceRows[i].status)
    then Refused(ActiveDeployment)
    else
      match Obstacle(guards, input.requestedByUserId, candidate.value.deploymentType)
      case Some(why) => Refused(why)
      case None => candidate
  }

  /** The type a successor of this deployment gets. */
  function TypeOf(source: Deployment): Option<string> {
    Coalesce(source.deploymentType, Some("production"))
  }

  function SourceOf(rows: seq<Deployment>, input: Operation, lib: Library): Option<Deployment> {
    var named := if input.sourceDeploymentId.Some? then input.sourceDeploymentId.value else [];
    if input.kind.Retry? then FindById(rows, named) else EligibleSource(ServiceRows(rows, input.serviceId), lib)
  }

  function FindById(rows: seq<Deployment>, id: string): Option<Deployment> {
    if rows == [] then None else if rows[0].id == id then Some(rows[0]) else FindById(rows[1..], id)
  }

  /** The operation redeploys the newest row whose status is eligible, replayable or not. */
  function EligibleSource(serviceRows: seq<Deployment>, lib: Library): Option<Deployment> {
    Newest(serviceRows, EligiblyStopped(), lib)
  }

  // ---------------------------------------------------------------- facts

  lemma {:induction false} FilterMembers(rows: seq<Deployment>, keep: Deployment -> bool, x: Deployment)
    ensures x in Filter(rows, keep) <==> x in rows && keep(x)
  {
    if rows != [] {
      FilterMembers(rows[1..], keep, x);
      assert rows == [rows[0]] + rows[1..];
    }
  }

  lemma NewestMember(rows: seq<Deployment>, keep: Deployment -> bool, lib: Library)
    ensures Newest(rows, keep, lib).Some? ==> Newest(rows, keep, lib).value in rows
    ensures Newest(rows, keep, lib).Some? ==> keep(Newest(rows, keep, lib).value)
    ensures Newest(rows, keep, lib).None? ==> forall x :: x in rows ==> !keep(x)
  {
    var q := Sorted(Filter(rows, keep), Newer(lib));
    forall x ensures x in q <==> x in rows && keep(x) {
      SortedMembers(Filter(rows, keep), Newer(lib), x);
      FilterMembers(rows, keep, x);
    }
    assert q != [] ==> q[0] in q;
  }

  lemma {:induction false} FilterUnique(rows: seq<Deployment>, keep: Deployment -> bool)
    requires UniqueIds(rows)
    ensures UniqueIds(Filter(rows, keep))
  {
    if rows != [] {
      FilterUnique(rows[1..], keep);
      var rest := Filter(rows[1..], keep);
      forall i | 0 <= i < |rest| ensures rest[i].id != rows[0].id {
        FilterMembers(rows[1..], keep, rest[i]);
      }
    }
  }

  lemma UniqueIdsLinear(rows: seq<Deployment>, lib: Library)
    requires Total(lib.less) && UniqueIds(rows)
    ensures Linear(rows, Newer(lib))
  {
    forall i, j | 0 <= i < j < |rows| ensures Newer(lib)(rows[i], rows[j]) || Newer(lib)(rows[j], rows[i]) {
      BelowLaws(PositionOf(rows[i], lib), PositionOf(rows[j], lib), PositionOf(rows[i], lib), lib.less);
    }
  }

  /** The newest row is newer than every other row that satisfies `keep`. */
  lemma NewestLeads(rows: seq<Deployment>, keep: Deployment -> bool, lib: Library, y: Deployment)
    requires Total(lib.less) && UniqueIds(rows) && y in rows && keep(y)
    ensures Newest(rows, keep, lib).Some?
    ensures var x := Newest(rows, keep, lib).value; x == y || Newer(lib)(x, y)
  {
    FilterUnique(rows, keep);
    UniqueIdsLinear(Filter(rows, keep), lib);
    NewerStrict(lib);
    SortedAscending(Filter(rows, keep), Newer(lib));
    FilterMembers(rows, keep, y);
    SortedMembers(Filter(rows, keep), Newer(lib), y);
    var q := Sorted(Filter(rows, keep), Newer(lib));
    var i :| 0 <= i < |q| && q[i] == y;
  }

  /** If the newest of a wider choice is in a narrower one, it is the newest there too. */
  lemma NewestNarrowed(rows: seq<Deployment>, wide: Deployment -> bool, narrow: Deployment -> bool, lib: Library)
    requires Total(lib.less) && UniqueIds(rows)
    requires forall y :: y in rows && narrow(y) ==> wide(y)
    requires Newest(rows, wide, lib).Some? && narrow(Newest(rows, wide, lib).value)
    ensures Newest(rows, narrow, lib) == Newest(rows, wide, lib)
  {
    var x := Newest(rows, wide, lib).value;
    NewestMember(rows, wide, lib);
    NewestLeads(rows, narrow, lib, x);
    NewestMember(rows, narrow, lib);
    var y := Newest(rows, narrow, lib).value;
    NewestLeads(rows, wide, lib, y);
    NewerStrict(lib);
  }

  /** Whether a source is accepted depends on the source, the kind and the version alone. */
  lemma AcceptanceIgnoresRequester(source: Deployment, a: Operation, b: Operation, id: string, at: string, id': string,
                                   at': string)
    requires a.kind == b.kind && a.serviceId == b.serviceId && a.snapshotVersion == b.snapshotVersion
    ensures Successor(Some(source), a, id, at).Accepted? <==> Successor(Some(source), b, id', at').Accepted?
  {
  }

  lemma ReplayVersion(source: Deployment, kind: OperationKind)
    requires CanReplay(source, kind)
    ensures source.snapshotVersion == Some(1)
  {
  }

  // ---------------------------------------------------------------- main results

  /** An offered retry or redeploy is computed from a source that the successor function accepts
      with exactly the offered snapshot version, whoever asks and with whatever key. */
  lemma OfferedReplayAccepted(row: Deployment, serviceRows: seq<Deployment>, lifecycle: Lifecycle, lib: Library,
                              user: string, key: string, named: Option<string>, id: string, at: string)
    requires EligibleAction(row, serviceRows, true, lifecycle, lib).Some?
    ensures var a := EligibleAction(row, serviceRows, true, lifecycle, lib).value;
      && (a.kind.RetryAction? ==>
            && a.targetId == row.id && a.snapshotVersion.Some?
            && Successor(Some(row), Operation(Retry, row.serviceId, named, user, key, a.snapshotVersion.value),
                         id, at).Accepted?)
      && (a.kind.RedeployAction? ==>
            && a.targetId == row.serviceId && a.snapshotVersion.Some? && RedeploySource(serviceRows, lib).Some?
            && var source := RedeploySource(serviceRows, lib).value;
               var input := Operation(Redeploy, source.serviceId, named, user, key, a.snapshotVersion.value);
               source in serviceRows && Successor(Some(source), input, id, at).Accepted?)
  {
    var a := EligibleAction(row, serviceRows, true, lifecycle, lib).value;
    if a.kind.RetryAction? {
      var v := row.snapshotVersion.value;
      AcceptanceIgnoresRequester(row, HistoryOperation(row, Retry, v),
                                 Operation(Retry, row.serviceId, named, user, key, v), "", "", id, at);
    } else if a.kind.RedeployAction? {
      NewestMember(serviceRows, Replayable(), lib);
      var source := RedeploySource(serviceRows, lib).value;
      assert CanReplay(source, Redeploy);
      var v := source.snapshotVersion.value;
      AcceptanceIgnoresRequester(source, HistoryOperation(source, Redeploy, v),
                                 Operation(Redeploy, source.serviceId, named, user, key, v), "", "", id, at);
    }
  }

  /** Retry, redeploy and rollback are offered only while every other deployment of the service is
      terminal, whatever the lifecycle table; and at most to someone who may execute. */
  lemma OffersOnlyWhenQuiet(row: Deployment, serviceRows: seq<Deployment>, execute: bool, lifecycle: Lifecycle,
                            lib: Library, other: Deployment)
    requires EligibleAction(row, serviceRows, execute, lifecycle, lib).Some?
    requires !EligibleAction(row, serviceRows, execute, lifecycle, lib).value.kind.CancelAction?
    requires other in serviceRows && other.id != row.id
    ensures execute && lifecycle.terminal(other.status)
  {
    var i :| 0 <= i < |serviceRows| && serviceRows[i] == other;
    assert !OtherActive(row, serviceRows, lifecycle);
  }

  /** Every status of the service's rows is terminal: the others by the offer, this one by the
      lifecycle. */
  ghost predicate Settled(row: Deployment, serviceRows: seq<Deployment>, lifecycle: Lifecycle) {
    lifecycle.terminal(row.status) && !OtherActive(row, serviceRows, lifecycle)
  }

  lemma SettledMeansNoneActive(row: Deployment, rows: seq<Deployment>, serviceId: string, lifecycle: Lifecycle)
    requires UniqueIds(rows) && row in rows && row.serviceId == serviceId
    requires var serviceRows := ServiceRows(rows, serviceId);
      Settled(row, serviceRows, lifecycle)
    ensures var serviceRows := ServiceRows(rows, serviceId);
      forall i :: 0 <= i < |serviceRows| ==> lifecycle.terminal(serviceRows[i].status)
  {
    var serviceRows := ServiceRows(rows, serviceId);
    forall i | 0 <= i < |serviceRows| ensures lifecycle.terminal(serviceRows[i].status) {
      FilterMembers(rows, OfService(serviceId), serviceRows[i]);
      if serviceRows[i].id == row.id {
        SameIdSameRow(rows, row, serviceRows[i]);
      }
    }
  }

  lemma SameIdSameRow(rows: seq<Deployment>, a: Deployment, b: Deployment)
    requires UniqueIds(rows) && a in rows && b in rows && a.id == b.id
    ensures a == b
  {
    var i :| 0 <= i < |rows| && rows[i] == a;
    var j :| 0 <= j < |rows| && rows[j] == b;
  }

  lemma {:induction false} FindByIdFinds(rows: seq<Deployment>, row: Deployment)
    requires UniqueIds(rows) && row in rows
    ensures FindById(rows, row.id) == Some(row)
  {
    if rows[0].id == row.id {
      SameIdSameRow(rows, rows[0], row);
    } else {
      assert rows == [rows[0]] + rows[1..];
      FindByIdFinds(rows[1..], row);
    }
  }

  /** An offered retry is honoured exactly when no guard stands in the way: asking for it on the same
      table is accepted, or refused with the guard's own reason. */
  lemma RetryOfferHonouredIff(row: Deployment, rows: seq<Deployment>, guards: Guards, lifecycle: Lifecycle,
                              lib: Library, user: string, key: string, id: string, at: string)
    requires UniqueIds(rows) && row in rows && lifecycle.terminal(row.status)
    requires var serviceRows := ServiceRows(rows, row.serviceId);
      var a := EligibleAction(row, serviceRows, true, lifecycle, lib); a.Some? && a.value.kind.RetryAction?
    ensures var serviceRows := ServiceRows(rows, row.serviceId);
      var a := EligibleAction(row, serviceRows, true, lifecycle, lib).value;
      && a.snapshotVersion.Some?
      && var input := Operation(Retry, row.serviceId, Some(row.id), user, key, a.snapshotVersion.value);
         var decided := Decide(rows, input, id, at, guards, lifecycle, lib);
         var obstacle := Obstacle(guards, user, TypeOf(row));
         && (decided.Accepted? <==> obstacle.None?)
         && (obstacle.Some? ==> decided == Refused(obstacle.value))
  {
    var serviceRows := ServiceRows(rows, row.serviceId);
    OfferedReplayAccepted(row, serviceRows, lifecycle, lib, user, key, Some(row.id), id, at);
    FindByIdFinds(rows, row);
    SettledMeansNoneActive(row, rows, row.serviceId, lifecycle);
  }

  /** An offered redeploy is honoured exactly when no guard stands in the way and the operation picks
      the source the offer was made from, that is, when the newest deployment with an eligible status
      is itself replayable. */
  lemma RedeployOfferHonouredIff(row: Deployment, rows: seq<Deployment>, guards: Guards, lifecycle: Lifecycle,
                                 lib: Library, user: string, key: string, id: string, at: string)
    requires Total(lib.less) && UniqueIds(rows) && row in rows && lifecycle.terminal(row.status)
    requires var serviceRows := ServiceRows(rows, row.serviceId);
      var a := EligibleAction(row, serviceRows, true, lifecycle, lib); a.Some? && a.value.kind.RedeployAction?
    ensures var serviceRows := ServiceRows(rows, row.serviceId);
      var a := EligibleAction(row, serviceRows, true, lifecycle, lib).value;
      var honoured := Decide(rows, Operation(Redeploy, row.serviceId, None, user, key, 1),
                             id, at, guards, lifecycle, lib).Accepted?;
      && a.snapshotVersion == Some(1)
      && EligibleSource(serviceRows, lib).Some?
      && var source := EligibleSource(serviceRows, lib).value;
         var unguarded := Obstacle(guards, user, TypeOf(source)).None?;
         && (honoured <==> unguarded && CanReplay(source, Redeploy))
         && (honoured <==> unguarded && Some(source) == RedeploySource(serviceRows, lib))
  {
    var serviceRows := ServiceRows(rows, row.serviceId);
    OfferedSource(serviceRows, lib);
    var e := EligibleSource(serviceRows, lib).value;
    FilterMembers(rows, OfService(row.serviceId), e);
    SettledMeansNoneActive(row, rows, row.serviceId, lifecycle);
    ReplayAcceptance(e, Operation(Redeploy, row.serviceId, None, user, key, 1), id, at);
    FilterUnique(rows, OfService(row.serviceId));
    SourcesAgreeIff(serviceRows, lib);
  }

  /** Where something can be redeployed, its version is 1 and something has an eligible status. */
  lemma OfferedSource(serviceRows: seq<Deployment>, lib: Library)
    requires RedeploySource(serviceRows, lib).Some?
    ensures RedeploySource(serviceRows, lib).value.snapshotVersion == Some(1)
    ensures EligibleSource(serviceRows, lib).Some? && EligibleSource(serviceRows, lib).value in serviceRows
  {
    NewestMember(serviceRows, Replayable(), lib);
    var source := RedeploySource(serviceRows, lib).value;
    assert CanReplay(source, Redeploy);
    ReplayVersion(source, Redeploy);
    NewestMember(serviceRows, EligiblyStopped(), lib);
    assert EligibleStatus(Redeploy, source.status);
  }

  lemma SourcesAgreeIff(serviceRows: seq<Deployment>, lib: Library)
    requires Total(lib.less) && UniqueIds(serviceRows) && EligibleSource(serviceRows, lib).Some?
    ensures EligibleSource(serviceRows, lib) == RedeploySource(serviceRows, lib)
       <==> CanReplay(EligibleSource(serviceRows, lib).value, Redeploy)
  {
    var e := EligibleSource(serviceRows, lib).value;
    NewestMember(serviceRows, Replayable(), lib);
    if CanReplay(e, Redeploy) {
      assert forall y :: y in serviceRows && Replayable()(y) ==> EligiblyStopped()(y);
      NewestNarrowed(serviceRows, EligiblyStopped(), Replayable(), lib);
    }
  }

  lemma ReplayAcceptance(e: Deployment, input: Operation, id: string, at: string)
    requires input.serviceId == e.serviceId && input.snapshotVersion == 1
    ensures Successor(Some(e), input, id, at).Accepted? <==> CanReplay(e, input.kind)
  {
    if CanReplay(e, input.kind) {
      ReplayVersion(e, input.kind);
    }
    AcceptanceIgnoresRequester(e, input, HistoryOperation(e, input.kind, 1), id, at, "", "");
  }

  function Bare(id: string, status: Status, createdAt: string, snapshotVersion: Option<int>): Deployment {
    Deployment(id, "svc", "project", status, createdAt, snapshotVersion, Some(Obj([])), None, None, None, None, None,
               None, None, None, None, None, None, None, None, None, None, None, None)
  }

  /** The failing case: an older READY deployment with a snapshot, a newer FAILED one without. The
      row offers redeploy; the request picks the newer one and is refused. */
  lemma RedeployOfferRefused(guards: Guards, lib: Library, early: string, late: string, user: string, key: string,
                             id: string, at: string)
    requires Total(lib.less) && lib.less(early, late)
    requires lib.timestamp(early) == Some(early) && lib.timestamp(late) == Some(late)
    requires !guards.service.Missing?
    ensures var older, newer := Bare("d1", ReadyStatus, early, Some(1)), Bare("d2", Failed, late, None);
      var rows := [older, newer];
      && EligibleAction(older, ServiceRows(rows, "svc"), true, Contract(), lib)
         == Some(Action(RedeployAction, "svc", "/services/" + "svc" + "/redeploy", Some(1)))
      && Decide(rows, Operation(Redeploy, "svc", None, user, key, 1), id, at, guards, Contract(), lib)
         == Refused(SnapshotUnavailable)
  {
    var older, newer := Bare("d1", ReadyStatus, early, Some(1)), Bare("d2", Failed, late, None);
    FilterTwo(older, newer, OfService("svc"));
    assert ServiceRows([older, newer], "svc") == [older, newer];
    NewestOfTwo(older, newer, lib);
    OlderOffered(older, newer, lib);
    NewerPicked(older, newer, lib);
  }

  /** The other failing case: a FAILED deployment of a service that is being deleted. The row still
      offers retry, and the request is refused. */
  lemma RetryOfferRefused(guards: Guards, lib: Library, created: string, user: string, key: string, id: string,
                          at: string)
    requires guards.service.Deleting?
    ensures var row := Bare("d1", Failed, created, Some(1));
      && EligibleAction(row, ServiceRows([row], "svc"), true, Contract(), lib)
         == Some(Action(RetryAction, "d1", "/deployments/" + "d1" + "/retry", Some(1)))
      && Decide([row], Operation(Retry, "svc", Some("d1"), user, key, 1), id, at, guards, Contract(), lib)
         == Refused(ServiceDeleting)
  {
    var row := Bare("d1", Failed, created, Some(1));
    assert [row][1..] == [];
    assert Filter([row][1..], OfService("svc")) == [];
    assert ServiceRows([row], "svc") == [row];
    assert CanReplay(row, Retry);
    RetryOfferHonouredIff(row, [row], guards, Contract(), lib, user, key, id, at);
  }

  lemma OlderOffered(older: Deployment, newer: Deployment, lib: Library)
    requires older.id != newer.id && older.status.ReadyStatus? && newer.status.Failed?
    requires !HasImage(newer) && CanReplay(older, Redeploy) && !CanReplay(newer, Redeploy)
    requires Sorted([older], Newer(lib)) == [older]
    ensures EligibleAction(older, [older, newer], true, Contract(), lib)
         == Some(Action(RedeployAction, older.serviceId, "/services/" + older.serviceId + "/redeploy", Some(1)))
  {
    assert RedeploySource([older, newer], lib) == Some(older) by {
      FilterTwo(older, newer, Replayable());
    }
    assert Newest([older, newer], ReadyBefore(older, lib), lib).None? by {
      FilterTwo(older, newer, ReadyBefore(older, lib));
    }
    ReplayVersion(older, Redeploy);
    ReadyOffersRedeploy(older, [older, newer], older, lib);
  }

  /** A READY row with no other row active and nothing to roll back to offers the redeploy. */
  lemma ReadyOffersRedeploy(row: Deployment, serviceRows: seq<Deployment>, source: Deployment, lib: Library)
    requires row.status.ReadyStatus? && !OtherActive(row, serviceRows, Contract())
    requires Newest(serviceRows, ReadyBefore(row, lib), lib).None?
    requires RedeploySource(serviceRows, lib) == Some(source) && source.snapshotVersion == Some(1)
    ensures EligibleAction(row, serviceRows, true, Contract(), lib)
         == Some(Action(RedeployAction, row.serviceId, "/services/" + row.serviceId + "/redeploy", Some(1)))
  {
  }

  lemma NewerPicked(older: Deployment, newer: Deployment, lib: Library)
    requires older.status.ReadyStatus? && newer.status.Failed?
    requires Sorted([older, newer], Newer(lib)) == [newer, older]
    ensures EligibleSource([older, newer], lib) == Some(newer)
  {
    FilterTwo(older, newer, EligiblyStopped());
  }

  lemma FilterTwo(a: Deployment, b: Deployment, keep: Deployment -> bool)
    ensures Filter([a, b], keep) == (if keep(a) then [a] else []) + (if keep(b) then [b] else [])
  {
    assert [a, b][1..] == [b] && [b][1..] == [];
    assert Filter([b][1..], keep) == [];
    assert Filter([b], keep) == if keep(b) then [b] else [];
  }

  lemma NewestOfTwo(older: Deployment, newer: Deployment, lib: Library)
    requires Total(lib.less) && Below(PositionOf(older, lib), PositionOf(newer, lib), lib.less)
    ensures Sorted([older, newer], Newer(lib)) == [newer, older]
    ensures Sorted([older], Newer(lib)) == [older]
  {
    assert [older, newer][1..] == [newer] && [newer][1..] == [] && [older][1..] == [];
    BelowLaws(PositionOf(older, lib), PositionOf(newer, lib), PositionOf(older, lib), lib.less);
    assert Sorted([newer][1..], Newer(lib)) == [] && Sorted([older][1..], Newer(lib)) == [];
    assert Sorted([newer], Newer(lib)) == [newer];
    assert !Newer(lib)(older, newer);
    assert InsertSorted(older, [newer][1..], Newer(lib)) == [older];
    assert InsertSorted(older, [newer], Newer(lib)) == [newer] + [older];
  }

  // ---------------------------------------------------------------- told by the rows' fields

  lemma NewestExists(rows: seq<Deployment>, keep: Deployment -> bool, lib: Library)
    ensures Newest(rows, keep, lib).Some? <==> exists x :: x in rows && keep(x)
  {
    NewestMember(rows, keep, lib);
    if x :| x in rows && keep(x) {
      FilterMembers(rows, keep, x);
      SortedMembers(Filter(rows, keep), Newer(lib), x);
    }
  }

  /** Another deployment of the service has not completed. */
  ghost predicate Busy(row: Deployment, serviceRows: seq<Deployment>, lifecycle: Lifecycle) {
    exists x :: x in serviceRows && x.id != row.id && !lifecycle.terminal(x.status)
  }

  /** There is an older READY deployment with an image to go back to. */
  ghost predicate CanGoBack(row: Deployment, serviceRows: seq<Deployment>, lib: Library) {
    exists x :: x in serviceRows && IsPrevious(x, row, lib)
  }

  predicate IsPrevious(x: Deployment, row: Deployment, lib: Library) {
    && x.id != row.id && x.status == ReadyStatus
    && ((x.imageUrl.Some? && x.imageUrl.value != "") || (x.image.Some? && x.image.value != ""))
    && OlderThan(x, row, lib)
  }

  lemma PreviousIff(row: Deployment, serviceRows: seq<Deployment>, lib: Library)
    requires Total(lib.less)
    ensures Newest(serviceRows, ReadyBefore(row, lib), lib).Some? <==> CanGoBack(row, serviceRows, lib)
  {
    NewestExists(serviceRows, ReadyBefore(row, lib), lib);
    forall x ensures ReadyBefore(row, lib)(x) <==> IsPrevious(x, row, lib) {
    }
  }

  lemma BusyIff(row: Deployment, serviceRows: seq<Deployment>, lifecycle: Lifecycle)
    ensures OtherActive(row, serviceRows, lifecycle) <==> Busy(row, serviceRows, lifecycle)
  {
  }

  /** The deployment can be the source of a redeploy or a retry. */
  ghost predicate CanBeSource(x: Deployment, kind: OperationKind) {
    && x.snapshotVersion == Some(1) && x.desiredSpecSnapshot.Some? && x.desiredSpecSnapshot.value.Obj?
    && (x.status == BuildFailed || x.status == Failed || (x.status == ReadyStatus && kind == Redeploy))
    && Pinnable(x, x.desiredSpecSnapshot.value.members)
  }

  lemma CanReplayIff(x: Deployment, kind: OperationKind)
    ensures CanReplay(x, kind) <==> CanBeSource(x, kind)
  {
    if x.snapshotVersion.Some? {
      SuccessorReasons(Some(x), HistoryOperation(x, kind, x.snapshotVersion.value), "", "");
    }
  }

  /** Exactly which action a row offers. Nothing without the right to execute. Cancel while the
      lifecycle allows it. Retry for a failed deployment that can be its source, while nothing else of
      the service is under way. Otherwise, with nothing else under way: rollback for a READY one with
      an older READY one to go back to; redeploy for a READY one without, a cancelled or a cleaned-up
      one, if the service has a deployment to redeploy. */
  lemma ActionTable(row: Deployment, serviceRows: seq<Deployment>, execute: bool, lifecycle: Lifecycle, lib: Library)
    requires Total(lib.less)
    ensures var action := EligibleAction(row, serviceRows, execute, lifecycle, lib);
      var failed := row.status == BuildFailed || row.status == Failed;
      var cancel := execute && Cancelled in lifecycle.next(row.status);
      var free := execute && !cancel && !Busy(row, serviceRows, lifecycle);
      var retry := free && failed && CanBeSource(row, Retry);
      var rollback := free && row.status == ReadyStatus && CanGoBack(row, serviceRows, lib);
      var redeploy := free && !rollback && row.status in [ReadyStatus, Cancelled, CleanedUp]
                      && exists x :: x in serviceRows && CanBeSource(x, Redeploy);
      && (cancel <==> action == Some(Action(CancelAction, row.id, "/deployments/" + row.id + "/cancel", None)))
      && (retry <==> action == Some(Action(RetryAction, row.id, "/deployments/" + row.id + "/retry", Some(1))))
      && (rollback <==> action == Some(Action(RollbackAction, row.id, "/deployments/" + row.id + "/rollback", None)))
      && (redeploy <==> action == Some(Action(RedeployAction, row.serviceId,
                                              "/services/" + row.serviceId + "/redeploy", Some(1))))
      && (action == None <==> !cancel && !retry && !rollback && !redeploy)
  {
    BusyIff(row, serviceRows, lifecycle);
    PreviousIff(row, serviceRows, lib);
    CanReplayIff(row, Retry);
    RedeploySourceIff(serviceRows, lib);
  }

  lemma RedeploySourceIff(serviceRows: seq<Deployment>, lib: Library)
    ensures RedeploySource(serviceRows, lib).Some? <==> exists x :: x in serviceRows && CanBeSource(x, Redeploy)
    ensures RedeploySource(serviceRows, lib).Some? ==>
      var source := RedeploySource(serviceRows, lib).value; source in serviceRows && CanBeSource(source, Redeploy)
  {
    NewestExists(serviceRows, Replayable(), lib);
    NewestMember(serviceRows, Replayable(), lib);
    forall x ensures Replayable()(x) <==> CanBeSource(x, Redeploy) {
      ReplayableIff(x);
    }
  }

  /** The source a redeploy is offered from is the newest one that can be. */
  lemma RedeployFromNewest(serviceRows: seq<Deployment>, lib: Library, x: Deployment)
    requires Total(lib.less) && UniqueIds(serviceRows)
    requires x in serviceRows && CanBeSource(x, Redeploy)
    ensures RedeploySource(serviceRows, lib).Some?
    ensures var source := RedeploySource(serviceRows, lib).value; x == source || OlderThan(x, source, lib)
  {
    ReplayableIff(x);
    LeadsByFields(serviceRows, Replayable(), lib, x);
  }

  /** Created earlier, or at the same time with the lesser id. */
  predicate OlderThan(x: Deployment, y: Deployment, lib: Library) {
    lib.less(At(x, lib), At(y, lib)) || (At(x, lib) == At(y, lib) && lib.less(x.id, y.id))
  }

  lemma LeadsByFields(rows: seq<Deployment>, keep: Deployment -> bool, lib: Library, x: Deployment)
    requires Total(lib.less) && UniqueIds(rows) && x in rows && keep(x)
    ensures Newest(rows, keep, lib).Some?
    ensures x == Newest(rows, keep, lib).value || OlderThan(x, Newest(rows, keep, lib).value, lib)
  {
    NewestLeads(rows, keep, lib, x);
    var y := Newest(rows, keep, lib).value;
    assert x != y ==> Newer(lib)(y, x) && Below(PositionOf(x, lib), PositionOf(y, lib), lib.less);
  }

  lemma ReplayableIff(x: Deployment)
    ensures Replayable()(x) <==> CanBeSource(x, Redeploy)
  {
    CanReplayIff(x, Redeploy);
  }

  // ---------------------------------------------------------------- decisions, told by the fields

  /** Which states the shipped lifecycle can cancel, which it counts as completed, and that only a
      cleaned-up deployment has nowhere to go. */
  lemma ShippedLifecycle(status: Status)
    ensures Cancelled in Contract().next(status) <==> status in [Queued, Building, ImageReady]
    ensures Contract().terminal(status) <==> status in [ReadyStatus, BuildFailed, Failed, Cancelled, CleanedUp]
    ensures Contract().next(status) == {} <==> status == CleanedUp
  {
    if status != CleanedUp {
      assert exists next :: next in Contract().next(status) by {
        match status
        case Queued => assert Building in NextStates(status);
        case Building => assert ImageReady in NextStates(status);
        case ImageReady => assert Deploying in NextStates(status);
        case Deploying => assert ReadyStatus in NextStates(status);
        case ReadyStatus => assert RollbackRequested in NextStates(status);
        case BuildFailed => assert Building in NextStates(status);
        case Failed => assert Building in NextStates(status);
        case Cancelled => assert PreviewCleanupRequested in NextStates(status);
        case PreviewCleanupRequested => assert Deploying in NextStates(status);
        case RollbackRequested => assert Deploying in NextStates(status);
      }
    }
  }

  /** How a request with a new key is decided, by the rows, the guards and the order of the checks. */
  lemma DecisionTable(rows: seq<Deployment>, input: Operation, id: string, at: string, guards: Guards,
                      lifecycle: Lifecycle, lib: Library)
    ensures var answer, next := Decide(rows, input, id, at, guards, lifecycle, lib),
                                Successor(SourceOf(rows, input, lib), input, id, at);
      var user := input.requestedByUserId;
      if guards.service == Missing then answer == Refused(SourceNotFound)
      else if next.Refused? then answer == next
      else if exists x :: x in rows && x.serviceId == input.serviceId && !lifecycle.terminal(x.status)
      then answer == Refused(ActiveDeployment)
      else if guards.service == Deleting then answer == Refused(ServiceDeleting)
      else if guards.project == Missing then answer == Refused(SourceNotFound)
      else if guards.project == Deleting then answer == Refused(ProjectDeleting)
      else if user != "" && user != "system" && !guards.quota(user, next.value.deploymentType)
      then answer == Refused(QuotaExceeded)
      else answer == next
  {
    var serviceRows := ServiceRows(rows, input.serviceId);
    forall x ensures x in serviceRows <==> x in rows && x.serviceId == input.serviceId {
      FilterMembers(rows, OfService(input.serviceId), x);
    }
  }

  /** A retry replays the deployment it names, whichever service that belongs to. */
  lemma RetrySourceIff(rows: seq<Deployment>, input: Operation, lib: Library, x: Deployment)
    requires UniqueIds(rows) && input.kind == Retry && input.sourceDeploymentId.Some?
    ensures SourceOf(rows, input, lib) == Some(x) <==> x in rows && x.id == input.sourceDeploymentId.value
  {
    FoundById(rows, input.sourceDeploymentId.value, x);
  }

  lemma {:induction false} FoundById(rows: seq<Deployment>, id: string, x: Deployment)
    requires UniqueIds(rows)
    ensures FindById(rows, id) == Some(x) <==> x in rows && x.id == id
  {
    if rows != [] {
      FoundById(rows[1..], id, x);
    }
  }

  /** A redeploy replays the newest deployment of the service that failed or is READY. */
  lemma RedeploySourceByFields(rows: seq<Deployment>, input: Operation, lib: Library, x: Deployment)
    requires Total(lib.less) && UniqueIds(rows) && input.kind == Redeploy
    ensures SourceOf(rows, input, lib).Some? ==>
      var y := SourceOf(rows, input, lib).value;
      y in rows && y.serviceId == input.serviceId && y.status in [ReadyStatus, BuildFailed, Failed]
    ensures x in rows && x.serviceId == input.serviceId && x.status in [ReadyStatus, BuildFailed, Failed] ==>
      var source := SourceOf(rows, input, lib); source.Some? && (x == source.value || OlderThan(x, source.value, lib))
  {
    var serviceRows := ServiceRows(rows, input.serviceId);
    FilterUnique(rows, OfService(input.serviceId));
    NewestMember(serviceRows, EligiblyStopped(), lib);
    forall y ensures y in serviceRows <==> y in rows && y.serviceId == input.serviceId {
      FilterMembers(rows, OfService(input.serviceId), y);
    }
    if x in serviceRows && EligiblyStopped()(x) {
      LeadsByFields(serviceRows, EligiblyStopped(), lib, x);
    }
  }

  /** Why a row cannot be retried, in the order of the checks. */
  lemma RetryReasons(row: Deployment, serviceRows: seq<Deployment>, execute: bool, lifecycle: Lifecycle)
    ensures RetryObstacle(row, serviceRows, execute, lifecycle)
         == if !execute then Some(PermissionDenied)
            else if row.status != BuildFailed && row.status != Failed then Some(StatusNotRetryable)
            else if Busy(row, serviceRows, lifecycle) then Some(ActiveElsewhere)
            else if !CanBeSource(row, Retry) then Some(SourceNotRetryable) else None
  {
    BusyIff(row, serviceRows, lifecycle);
    CanReplayIff(row, Retry);
  }
}
