/** Request authorization: the action check and the scope check on one subject
    (packages/core/src/auth.ts, packages/core/src/api.ts). The empty string stands for an absent
    id, role or action. */
module Authorization {
  import opened Text

  /** What the token says about a subject and no check changes. */
  datatype Grants = Grants(
    global: bool, claimsGlobal: bool, authMode: string,
    organizationId: string, organizationIds: Option<seq<string>>,
    projectId: string, projectIds: Option<seq<string>>,
    rolesByOrganization: Option<map<string, string>>,
    can: (string, string) -> bool)

  /** What the checks read and write. */
  datatype State = State(role: string, requestAction: string, resolved: string)

  predicate Global(g: Grants) {
    g.global || g.claimsGlobal || g.authMode == "disabled"
  }

  function NormalizeRole(role: string): string {
    Lower(Trim(if role == [] then "viewer" else role))
  }

  predicate Permits(g: Grants, role: string, action: string) {
    g.can(NormalizeRole(role), action)
  }

  predicate AnyPermits(g: Grants, role: string, action: string) {
    || Permits(g, role, action)
    || (g.rolesByOrganization.Some? &&
         exists o :: o in g.rolesByOrganization.value && Permits(g, g.rolesByOrganization.value[o], action))
  }

  predicate MatchesScope(single: string, many: Option<seq<string>>, expected: string) {
    (single != [] && single == expected) || (many.Some? && expected in many.value)
  }

  predicate Member(g: Grants, organization: string) {
    MatchesScope(g.organizationId, g.organizationIds, organization)
  }

  predicate OnProject(g: Grants, project: string) {
    MatchesScope(g.projectId, g.projectIds, project)
  }

  /** The distinct organization ids a subject names. */
  function Organizations(g: Grants): set<string> {
    (if g.organizationId != [] then {g.organizationId} else {}) +
    (if g.organizationIds.Some? then set o | o in g.organizationIds.value && o != [] else {})
  }

  predicate NoRoles(g: Grants) {
    g.rolesByOrganization.None? || g.rolesByOrganization.value == map[]
  }

  /** The role in an organization: its own, or the subject's only role in its only organization. */
  function RoleFor(g: Grants, role: string, organization: string): string {
    if g.rolesByOrganization.Some? && organization in g.rolesByOrganization.value
       && g.rolesByOrganization.value[organization] != []
    then g.rolesByOrganization.value[organization]
    else if NoRoles(g) && Organizations(g) == {organization} then role
    else []
  }

  // ---------------------------------------------------------------- the checks on values

  function ActionCheck(g: Grants, s: State, action: string): (State, bool) {
    (s.(requestAction := action),
     if s.resolved != [] then Permits(g, s.role, action) else AnyPermits(g, s.role, action))
  }

  /** A scope names an organization, a project, both or neither. */
  function ScopeCheck(g: Grants, s: State, organization: string, project: string): (State, bool) {
    if Global(g) then (s, true)
    else if organization != [] && !(Member(g, organization) && RoleFor(g, s.role, organization) != []) then (s, false)
    else
      var t := if organization != [] then s.(role := RoleFor(g, s.role, organization), resolved := organization) else s;
      (t, (organization != [] && s.requestAction != [] ==> Permits(g, t.role, s.requestAction))
          && (project != [] ==> OnProject(g, project)))
  }

  class Subject {
    const grants: Grants
    var role: string
    var requestAction: string
    var resolvedOrganization: string

    constructor (grants: Grants, role: string)
      ensures this.grants == grants && Current() == Fresh(role)
    {
      this.grants, this.role, requestAction, resolvedOrganization := grants, role, "", "";
    }

    function Current(): State
      reads this
    {
      State(role, requestAction, resolvedOrganization)
    }

    method RequireAction(action: string) returns (ok: bool)
      modifies this
      ensures (Current(), ok) == ActionCheck(grants, old(Current()), action)
    {
      requestAction := action;
      if resolvedOrganization != [] {
        ok := Permits(grants, role, action);
      } else {
        ok := AnyPermits(grants, role, action);
      }
    }

    method RequireScope(organization: string, project: string) returns (ok: bool)
      modifies this
      ensures (Current(), ok) == ScopeCheck(grants, old(Current()), organization, project)
    {
      if Global(grants) {
        return true;
      }
      if organization != [] && !Member(grants, organization) {
        return false;
      }
      if organization != [] {
        var organizationRole := RoleFor(grants, role, organization);
        if organizationRole == [] {
          return false;
        }
        role := organizationRole;
        resolvedOrganization := organization;
        if requestAction != [] && !Permits(grants, organizationRole, requestAction) {
          return false;
        }
      }
      if project != [] && !OnProject(grants, project) {
        return false;
      }
      ok := true;
    }

    /** The scope first when it names an organization, the action first when it does not. */
    method AuthorizeSubject(action: string, organization: string, project: string) returns (ok: bool)
      modifies this
      ensures (Current(), ok) == ScopeFirst(grants, old(Current()), action, organization, project)
    {
      if organization != [] {
        ok := RequireScope(organization, project);
        if !ok {
          return;
        }
      }
      ok := RequireAction(action);
      if ok && organization == [] {
        ok := RequireScope(organization, project);
      }
    }

    /** A route that checks its action first and finds the project's organization later. */
    method AuthorizeProjectRoute(action: string, organization: string, project: string) returns (ok: bool)
      modifies this
      ensures (Current(), ok) == ActionFirst(grants, old(Current()), action, organization, project)
    {
      ok := RequireAction(action);
      if !ok || grants.global || grants.authMode == "disabled" {
        return;
      }
      if grants.projectId != [] || grants.projectIds.Some? {
        ok := RequireScope("", project);
        if !ok {
          return;
        }
      }
      ok := RequireScope(organization, "");
    }
  }

  function Fresh(role: string): State {
    State(role, "", "")
  }

  function ScopeFirst(g: Grants, s: State, action: string, organization: string, project: string): (State, bool) {
    if organization != [] then
      var (t, ok) := ScopeCheck(g, s, organization, project);
      if ok then ActionCheck(g, t, action) else (t, false)
    else
      var (t, ok) := ActionCheck(g, s, action);
      if ok then ScopeCheck(g, t, organization, project) else (t, false)
  }

  function ActionFirst(g: Grants, s: State, action: string, organization: string, project: string): (State, bool) {
    var (t, ok) := ActionCheck(g, s, action);
    if !ok || g.global || g.authMode == "disabled" then (t, ok)
    else
      var (u, inProject) :=
        if g.projectId != [] || g.projectIds.Some? then ScopeCheck(g, t, "", project)
        else (t, true);
      if inProject then ScopeCheck(g, u, organization, "") else (u, false)
  }

  // ---------------------------------------------------------------- both orders decide alike

  /** Membership of the organization with a role there that permits the action. */
  predicate Entitled(g: Grants, role: string, action: string, organization: string) {
    var r := RoleFor(g, role, organization);
    Member(g, organization) && r != [] && Permits(g, r, action)
  }

  /** The action is checked when the request arrives, the organization when it becomes known. */
  function Late(g: Grants, s: State, action: string, organization: string): (State, bool) {
    var (t, ok) := ActionCheck(g, s, action);
    if ok then ScopeCheck(g, t, organization, "") else (t, false)
  }

  lemma RoleForIsARole(g: Grants, role: string, organization: string, action: string)
    requires RoleFor(g, role, organization) != [] && Permits(g, RoleFor(g, role, organization), action)
    ensures AnyPermits(g, role, action)
  {
    if g.rolesByOrganization.Some? && organization in g.rolesByOrganization.value
       && g.rolesByOrganization.value[organization] != [] {
      assert Permits(g, g.rolesByOrganization.value[organization], action);
    }
  }

  /** For every fresh subject, action and organization both orders accept exactly when the subject
      is global and holds some permitting role, or is entitled in that organization; an accepted
      subject that is not global is left with its role there, whichever order was used. */
  lemma OrdersAgree(g: Grants, role: string, action: string, organization: string)
    requires action != [] && organization != []
    ensures var early := ScopeFirst(g, Fresh(role), action, organization, "");
            var late := Late(g, Fresh(role), action, organization);
            && early.1 == late.1 == (if Global(g) then AnyPermits(g, role, action)
                                      else Entitled(g, role, action, organization))
            && (early.1 && !Global(g) ==>
                early.0 == late.0 == State(RoleFor(g, role, organization), action, organization))
            && (early.1 && Global(g) ==> early.0 == late.0 == State(role, action, ""))
  {
    if Entitled(g, role, action, organization) {
      RoleForIsARole(g, role, organization, action);
    }
  }

  /** The boundary of that agreement: without the assumption that the action has a name, the orders
      disagree exactly on the empty action, for a member whose role in the organization does not
      permit it while another does. No route names the empty action. */
  lemma OrdersAgreeIff(g: Grants, role: string, action: string, organization: string)
    requires organization != []
    ensures ScopeFirst(g, Fresh(role), action, organization, "").1 != Late(g, Fresh(role), action, organization).1
       <==> action == [] && !Global(g) && Member(g, organization) && RoleFor(g, role, organization) != []
            && !Permits(g, RoleFor(g, role, organization), action) && AnyPermits(g, role, action)
  {
    if Entitled(g, role, action, organization) {
      RoleForIsARole(g, role, organization, action);
    }
  }

  /** The boundary is met: a viewer of one organization who owns another, under a table that lets
      owners do what has no name. */
  lemma EmptyActionSplitsOrders(g: Grants, table: (string, string) -> bool)
    requires forall role, action :: table(role, action) <==> role == "owner"
    requires g == Grants(false, false, "jwt", "", Some(["a", "b"]), "", None,
                         Some(map["a" := "viewer", "b" := "owner"]), table)
    ensures !ScopeFirst(g, Fresh("viewer"), "", "a", "").1 && Late(g, Fresh("viewer"), "", "a").1
  {
    var roles := g.rolesByOrganization.value;
    assert Trim("owner") == "owner" && Trim("viewer") == "viewer" by { NoBlanks(); }
    assert Lower("owner") == "owner" && |Lower("viewer")| == 6;
    assert roles["b"] == "owner" && Permits(g, roles["b"], "");
    assert roles["a"] == "viewer" && !Permits(g, "viewer", "");
    assert "a" in ["a", "b"];
    assert RoleFor(g, "viewer", "a") == "viewer";
    OrdersAgreeIff(g, "viewer", "", "a");
  }

  lemma NoBlanks()
    ensures Trim("owner") == "owner" && Trim("viewer") == "viewer"
  {
    TrimIdentity("owner");
    TrimIdentity("viewer");
  }

  /** A subject confined to projects is confined to this one. */
  predicate Unconfined(g: Grants, project: string) {
    g.projectId != [] || g.projectIds.Some? ==> OnProject(g, project)
  }

  /** A project route accepts exactly the entitled subjects of the project's organization that are
      not confined to other projects. */
  lemma ProjectRouteDecides(g: Grants, role: string, action: string, organization: string, project: string)
    requires action != [] && organization != [] && project != []
    ensures var result := ActionFirst(g, Fresh(role), action, organization, project);
            && (result.1 <==> if Global(g) then AnyPermits(g, role, action)
                              else Entitled(g, role, action, organization) && Unconfined(g, project))
            && (result.1 && !Global(g) ==> result.0 == State(RoleFor(g, role, organization), action, organization))
  {
    if Entitled(g, role, action, organization) {
      RoleForIsARole(g, role, organization, action);
    }
  }

  // ---------------------------------------------------------------- every sequence of checks

  datatype Check = Act(action: string) | Scoped(organization: string, project: string)

  function Apply(g: Grants, s: State, check: Check): (State, bool) {
    match check
    case Act(action) => ActionCheck(g, s, action)
    case Scoped(organization, project) => ScopeCheck(g, s, organization, project)
  }

  /** The state after checks that all passed, or None at the first that did not. */
  function Run(g: Grants, s: State, checks: seq<Check>): Option<State>
    decreases |checks|
  {
    if checks == [] then Some(s)
    else
      var (t, ok) := Apply(g, s, checks[0]);
      if ok then Run(g, t, checks[1..]) else None
  }

  /** Once an organization is resolved, the role is the one the subject came with there, and it
      permits the latest action. */
  predicate Authorized(g: Grants, role: string, s: State) {
    if s.resolved == [] then s.role == role
    else
      && Member(g, s.resolved) && s.role == RoleFor(g, role, s.resolved) && s.role != []
      && (s.requestAction != [] ==> Permits(g, s.role, s.requestAction))
  }

  /** Rewriting the role does not change what later checks find. */
  lemma RoleForStable(g: Grants, role: string, s: State, organization: string)
    requires Authorized(g, role, s)
    ensures RoleFor(g, s.role, organization) == RoleFor(g, role, organization)
  {
  }

  lemma CheckKeepsAuthorized(g: Grants, role: string, s: State, check: Check)
    requires !Global(g) && Authorized(g, role, s) && Apply(g, s, check).1
    ensures Authorized(g, role, Apply(g, s, check).0)
  {
    if check.Scoped? {
      RoleForStable(g, role, s, check.organization);
    }
  }

  lemma {:induction false} RunKeepsAuthorized(g: Grants, role: string, s: State, checks: seq<Check>)
    requires !Global(g) && Authorized(g, role, s) && Run(g, s, checks).Some?
    ensures Authorized(g, role, Run(g, s, checks).value)
    decreases |checks|
  {
    if checks != [] {
      CheckKeepsAuthorized(g, role, s, checks[0]);
      RunKeepsAuthorized(g, role, Apply(g, s, checks[0]).0, checks[1..]);
    }
  }

  function LastAction(checks: seq<Check>): string {
    if checks == [] then []
    else
      var last := checks[|checks| - 1];
      if last.Act? then last.action else LastAction(checks[..|checks| - 1])
  }

  function LastOrganization(checks: seq<Check>): string {
    if checks == [] then []
    else
      var last := checks[|checks| - 1];
      if last.Scoped? && last.organization != [] then last.organization else LastOrganization(checks[..|checks| - 1])
  }

  lemma {:induction false} RunSplits(g: Grants, s: State, checks: seq<Check>, last: Check)
    ensures var before := Run(g, s, checks);
            Run(g, s, checks + [last])
            == if before.None? || !Apply(g, before.value, last).1 then None else Some(Apply(g, before.value, last).0)
    decreases |checks|
  {
    var all := checks + [last];
    if checks == [] {
      assert all[1..] == [];
    } else {
      assert all[1..] == checks[1..] + [last];
      RunSplits(g, Apply(g, s, checks[0]).0, checks[1..], last);
    }
  }

  lemma {:induction false} RunRemembers(g: Grants, role: string, checks: seq<Check>)
    requires !Global(g) && Run(g, Fresh(role), checks).Some?
    ensures var s := Run(g, Fresh(role), checks).value;
      s.requestAction == LastAction(checks) && s.resolved == LastOrganization(checks)
    decreases |checks|
  {
    if checks != [] {
      var front, last := checks[..|checks| - 1], checks[|checks| - 1];
      assert checks == front + [last];
      RunSplits(g, Fresh(role), front, last);
      RunRemembers(g, role, front);
    }
  }

  /** Whatever checks a request passes, in whatever order: if it named an action and an
      organization, the subject is a member there and its own role there permits the action it
      named last, and that role is the one the subject is left with. */
  lemma PassedChecksAuthorize(g: Grants, role: string, checks: seq<Check>)
    requires !Global(g) && Run(g, Fresh(role), checks).Some?
    requires LastAction(checks) != [] && LastOrganization(checks) != []
    ensures Entitled(g, role, LastAction(checks), LastOrganization(checks))
    ensures Run(g, Fresh(role), checks).value.role == RoleFor(g, role, LastOrganization(checks))
  {
    RunKeepsAuthorized(g, role, Fresh(role), checks);
    RunRemembers(g, role, checks);
  }

  // ---------------------------------------------------------------- told by the grants' fields

  /** The organization is one the subject names. */
  predicate Names(g: Grants, organization: string) {
    || organization == g.organizationId
    || (g.organizationIds.Some? && organization in g.organizationIds.value)
  }

  /** The subject has a role of its own in the organization. */
  predicate HasEntry(g: Grants, organization: string) {
    && g.rolesByOrganization.Some? && organization in g.rolesByOrganization.value
    && g.rolesByOrganization.value[organization] != []
  }

  /** The subject has no role map, or an empty one, and names no other organization. */
  ghost predicate SoleOrganization(g: Grants, organization: string) {
    && (g.rolesByOrganization.None? || forall o :: o !in g.rolesByOrganization.value)
    && forall o :: o != [] && Names(g, o) ==> o == organization
  }

  /** The role a subject has in an organization that it names, if it has one. */
  ghost predicate RoleIs(g: Grants, role: string, organization: string, there: string) {
    && there != [] && Names(g, organization)
    && if HasEntry(g, organization) then there == g.rolesByOrganization.value[organization]
       else SoleOrganization(g, organization) && there == role
  }

  lemma RoleForIff(g: Grants, role: string, organization: string, there: string)
    requires organization != []
    ensures RoleIs(g, role, organization, there)
       <==> Member(g, organization) && RoleFor(g, role, organization) == there && there != []
  {
    assert Member(g, organization) <==> Names(g, organization);
    if Names(g, organization) && NoRoles(g) {
      assert Organizations(g) == {organization} <==> forall o :: o != [] && Names(g, o) ==> o == organization by {
        assert forall o :: o in Organizations(g) <==> o != [] && Names(g, o);
      }
    }
  }

  /** A subject that is not global passes a scope check for an organization exactly when it names the
      organization and either has a role entry for it, which it is then left with, or has no entries,
      names no other organization, and keeps the role it came with; when that role permits the action
      named before; and when a project asked for is one the subject names. Everybody else is refused. */
  lemma ScopeByFields(g: Grants, s: State, organization: string, project: string)
    requires !g.global && !g.claimsGlobal && g.authMode != "disabled" && organization != []
    ensures ScopeCheck(g, s, organization, project).1 <==>
      && (exists there :: (RoleIs(g, s.role, organization, there)
                           && (s.requestAction != [] ==> g.can(Lower(Trim(there)), s.requestAction))))
      && (project != [] ==> project == g.projectId || (g.projectIds.Some? && project in g.projectIds.value))
    ensures ScopeCheck(g, s, organization, project).1 ==>
      var after := ScopeCheck(g, s, organization, project).0;
      RoleIs(g, s.role, organization, after.role) && after == State(after.role, s.requestAction, organization)
  {
    var there := RoleFor(g, s.role, organization);
    forall other ensures RoleIs(g, s.role, organization, other) ==> other == there {
      RoleForIff(g, s.role, organization, other);
    }
    RoleForIff(g, s.role, organization, there);
  }

  /** An action check passes exactly when the role of the resolved organization permits the action, or,
      before one is resolved, when any role of the subject does; an empty role is a viewer's. */
  lemma ActionByFields(g: Grants, s: State, action: string)
    ensures ActionCheck(g, s, action).0 == State(s.role, action, s.resolved)
    ensures ActionCheck(g, s, action).1 <==>
      || g.can(Lower(Trim(if s.role == [] then "viewer" else s.role)), action)
      || (s.resolved == [] && g.rolesByOrganization.Some?
          && exists o :: o in g.rolesByOrganization.value
               && g.can(Lower(Trim(if g.rolesByOrganization.value[o] == [] then "viewer"
                                   else g.rolesByOrganization.value[o])), action))
  {
    if g.rolesByOrganization.Some? {
      assert forall o :: o in g.rolesByOrganization.value ==>
          (Permits(g, g.rolesByOrganization.value[o], action)
           <==> g.can(Lower(Trim(if g.rolesByOrganization.value[o] == [] then "viewer"
                                 else g.rolesByOrganization.value[o])), action));
    }
  }

  /** What both orders of checking and the project routes decide by. */
  lemma EntitledByFields(g: Grants, role: string, action: string, organization: string)
    requires organization != []
    ensures Entitled(g, role, action, organization)
       <==> exists there :: RoleIs(g, role, organization, there) && g.can(Lower(Trim(there)), action)
  {
    var there := RoleFor(g, role, organization);
    forall other ensures RoleIs(g, role, organization, other) ==> other == there {
      RoleForIff(g, role, organization, other);
    }
    RoleForIff(g, role, organization, there);
  }

  /** A subject confined to projects passes a project route only for one it names. */
  lemma UnconfinedByFields(g: Grants, project: string)
    requires project != []
    ensures Unconfined(g, project)
       <==> (g.projectId == [] && g.projectIds.None?)
            || project == g.projectId || (g.projectIds.Some? && project in g.projectIds.value)
  {
  }

  /** Every scope check lets a global subject pass, by itself, by its claims or with authentication
      disabled, and leaves it as it was. */
  lemma GlobalPassesScope(g: Grants, s: State, organization: string, project: string)
    requires g.global || g.claimsGlobal || g.authMode == "disabled"
    ensures ScopeCheck(g, s, organization, project) == (s, true)
  {
  }
}
