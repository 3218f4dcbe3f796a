/** Keyset pagination of the deployment history with signed cursors
    (packages/core/src/deployment-history.ts). */
module HistoryPages {
  import opened Text
  import opened Sorting
  import opened DeploymentOperations

  datatype Position = Position(at: string, id: string)

  datatype Filters = Filters(
    serviceId: Option<string>, environment: Option<string>, status: Option<Status>, trigger: Option<string>,
    from: Option<string>, to: Option<string>)

  datatype Scope = Scope(organizationId: string, projectId: string, cursorSecret: string)

  /** The signed fields of a cursor. */
  datatype Payload = Payload(organizationId: string, projectId: string, fingerprint: string, position: Position)

  datatype Cursor = Cursor(payload: Payload, signature: string)

  /** The library functions the source calls: string comparison, timestamp normalization, the
      filter hash, the keyed signature and its bytes, and the cursor text codec. */
  datatype Library = Library(
    less: Order, atLeast: (string, string) -> bool, timestamp: string -> Option<string>,
    fingerprint: Filters -> string, sign: (string, Payload) -> string, bytes: string -> string,
    encode: Cursor -> string, decode: string -> Option<Cursor>)

  ghost predicate Lawful(lib: Library) {
    && Total(lib.less)
    && (forall s :: lib.timestamp(s).Some? ==> lib.timestamp(lib.timestamp(s).value) == lib.timestamp(s))
    && (forall c :: lib.decode(lib.encode(c)) == Some(c))
  }

  datatype Result<+T> = Ok(value: T) | Invalid

  // ---------------------------------------------------------------- positions and filters

  function At(row: Deployment, lib: Library): string {
    var t := lib.timestamp(row.createdAt);
    if t.Some? then t.value else []
  }

  function PositionOf(row: Deployment, lib: Library): Position {
    Position(At(row, lib), row.id)
  }

  predicate Below(a: Position, b: Position, less: Order) {
    if a.at == b.at then less(a.id, b.id) else less(a.at, b.at)
  }

  function EnvironmentOf(deploymentType: Option<string>): string {
    var normalized := if deploymentType.Some? && deploymentType.value != []
      then Lower(deploymentType.value) else "production";
    if normalized in ["preview", "manual"] then normalized else "production"
  }

  predicate Matches(row: Deployment, f: Filters, lib: Library) {
    && (f.serviceId.Some? ==> row.serviceId == f.serviceId.value)
    && (f.environment.Some? ==> EnvironmentOf(row.deploymentType) == f.environment.value)
    && (f.status.Some? ==> row.status == f.status.value)
    && (f.trigger.Some? ==>
          Lower(if row.triggerType.Some? then row.triggerType.value else "undefined") == Lower(f.trigger.value))
    && (f.from.Some? ==> lib.atLeast(At(row, lib), f.from.value))
    && (f.to.Some? ==> lib.atLeast(f.to.value, At(row, lib)))
  }

  predicate After(cursor: Option<Position>, p: Position, less: Order) {
    cursor.Some? ==> Below(p, cursor.value, less)
  }

  function Selected(table: seq<Deployment>, f: Filters, cursor: Option<Position>, lib: Library): seq<Deployment> {
    if table == [] then []
    else
      var row := table[0];
      (if Matches(row, f, lib) && After(cursor, PositionOf(row, lib), lib.less) then [row] else [])
      + Selected(table[1..], f, cursor, lib)
  }

  function Newer(lib: Library): (Deployment, Deployment) -> bool {
    (a, b) => Below(PositionOf(b, lib), PositionOf(a, lib), lib.less)
  }

  /** The matching rows after the cursor, newest first. */
  function Remaining(table: seq<Deployment>, f: Filters, cursor: Option<Position>, lib: Library): seq<Deployment> {
    Sorted(Selected(table, f, cursor, lib), Newer(lib))
  }

  // ---------------------------------------------------------------- one page

  datatype Page = Page(rows: seq<Deployment>, next: Option<Position>)

  function PageAt(table: seq<Deployment>, f: Filters, limit: nat, cursor: Option<Position>, lib: Library): Page {
    var selected := Take(Remaining(table, f, cursor, lib), limit + 1);
    var rows := Take(selected, limit);
    Page(rows, if |selected| > limit && |rows| > 0 then Some(PositionOf(rows[|rows| - 1], lib)) else None)
  }

  function PayloadOf(p: Position, scope: Scope, f: Filters, lib: Library): Payload {
    Payload(scope.organizationId, scope.projectId, lib.fingerprint(f), p)
  }

  function CursorKey(scope: Scope): string {
    "deployment-history-v1\0" + scope.cursorSecret
  }

  function EncodeCursor(p: Position, scope: Scope, f: Filters, lib: Library): Result<string> {
    if scope.cursorSecret == [] then Invalid
    else
      var payload := PayloadOf(p, scope, f, lib);
      Ok(lib.encode(Cursor(payload, lib.sign(CursorKey(scope), payload))))
  }

  function DecodeCursor(text: string, scope: Scope, f: Filters, lib: Library): Result<Position> {
    match lib.decode(text)
    case None => Invalid
    case Some(c) =>
      var p := c.payload;
      if p.organizationId != scope.organizationId || p.projectId != scope.projectId
         || p.fingerprint != lib.fingerprint(f)
      then Invalid
      else if scope.cursorSecret == [] then Invalid
      else if lib.bytes(c.signature) != lib.bytes(lib.sign(CursorKey(scope), p)) then Invalid
      else if lib.timestamp(p.position.at).None? then Invalid
      else Ok(Position(lib.timestamp(p.position.at).value, p.position.id))
  }

  predicate Dated(table: seq<Deployment>, lib: Library) {
    forall i :: 0 <= i < |table| ==> lib.timestamp(table[i].createdAt).Some?
  }

  datatype HistoryPage = HistoryPage(rows: seq<Deployment>, nextCursor: Option<string>)

  /** The page a request gets: an unreadable cursor or stored timestamp is an invalid query. */
  function Request(table: seq<Deployment>, f: Filters, limit: nat, cursor: Option<string>, scope: Scope,
                   lib: Library): Result<HistoryPage> {
    if cursor.Some? && DecodeCursor(cursor.value, scope, f, lib).Invalid? then Invalid
    else if !Dated(table, lib) then Invalid
    else
      var at := if cursor.Some? then Some(DecodeCursor(cursor.value, scope, f, lib).value) else None;
      var page := PageAt(table, f, limit, at, lib);
      if page.next.None? then Ok(HistoryPage(page.rows, None))
      else
        var next := EncodeCursor(page.next.value, scope, f, lib);
        if next.Invalid? then Invalid else Ok(HistoryPage(page.rows, Some(next.value)))
  }

  // ---------------------------------------------------------------- following cursors

  /** One request of a reader: the table as it is then, and the page size asked for. */
  datatype Visit = Visit(table: seq<Deployment>, limit: nat)

  /** What a reader has collected, and whether the last page said there is no more. */
  datatype Reading = Reading(rows: seq<Deployment>, ended: bool)

  /** Following `nextCursor` from page to page with the same filters. */
  function Follow(visits: seq<Visit>, f: Filters, cursor: Option<string>, scope: Scope, lib: Library): Result<Reading> {
    if visits == [] then Ok(Reading([], false))
    else
      var page := Request(visits[0].table, f, visits[0].limit, cursor, scope, lib);
      if page.Invalid? then Invalid
      else if page.value.nextCursor.None? then Ok(Reading(page.value.rows, true))
      else
        var rest := Follow(visits[1..], f, page.value.nextCursor, scope, lib);
        if rest.Invalid? then Invalid else Ok(Reading(page.value.rows + rest.value.rows, rest.value.ended))
  }

  /** The same on positions, without the cursor text. */
  function Walk(visits: seq<Visit>, f: Filters, cursor: Option<Position>, lib: Library): Reading {
    if visits == [] then Reading([], false)
    else
      var page := PageAt(visits[0].table, f, visits[0].limit, cursor, lib);
      if page.next.None? then Reading(page.rows, true)
      else
        var rest := Walk(visits[1..], f, page.next, lib);
        Reading(page.rows + rest.rows, rest.ended)
  }

  ghost predicate UniqueIds(table: seq<Deployment>) {
    forall i, j :: 0 <= i < j < |table| ==> table[i].id != table[j].id
  }

  /** Every table read has one row per id and readable timestamps; page sizes are positive. */
  ghost predicate ProperVisits(visits: seq<Visit>, lib: Library) {
    forall i :: 0 <= i < |visits| ==> UniqueIds(visits[i].table) && Dated(visits[i].table, lib) && visits[i].limit >= 1
  }

  // ---------------------------------------------------------------- order facts

  lemma BelowLaws(a: Position, b: Position, c: Position, less: Order)
    requires Total(less)
    ensures !Below(a, a, less)
    ensures a != b ==> Below(a, b, less) || Below(b, a, less)
    ensures Below(a, b, less) && Below(b, c, less) ==> Below(a, c, less)
  {
  }

  lemma NewerStrict(lib: Library)
    requires Total(lib.less)
    ensures Strict(Newer(lib))
  {
    var newer := Newer(lib);
    forall a: Deployment, b: Deployment, c: Deployment
      ensures !newer(a, a) && (newer(a, b) && newer(b, c) ==> newer(a, c))
    {
      BelowLaws(PositionOf(c, lib), PositionOf(b, lib), PositionOf(a, lib), lib.less);
      BelowLaws(PositionOf(a, lib), PositionOf(a, lib), PositionOf(a, lib), lib.less);
    }
  }

  lemma {:induction false} SelectedMembers(table: seq<Deployment>, f: Filters, cursor: Option<Position>, lib: Library,
                                           x: Deployment)
    ensures x in Selected(table, f, cursor, lib)
         <==> x in table && Matches(x, f, lib) && After(cursor, PositionOf(x, lib), lib.less)
  {
    if table != [] {
      SelectedMembers(table[1..], f, cursor, lib, x);
      assert table == [table[0]] + table[1..];
    }
  }

  lemma {:induction false} SelectedLinear(table: seq<Deployment>, f: Filters, cursor: Option<Position>, lib: Library)
    requires Total(lib.less) && UniqueIds(table)
    ensures Linear(Selected(table, f, cursor, lib), Newer(lib))
  {
    if table != [] {
      var rest := Selected(table[1..], f, cursor, lib);
      SelectedLinear(table[1..], f, cursor, lib);
      forall i | 0 <= i < |rest| ensures Newer(lib)(table[0], rest[i]) || Newer(lib)(rest[i], table[0]) {
        SelectedMembers(table[1..], f, cursor, lib, rest[i]);
        BelowLaws(PositionOf(table[0], lib), PositionOf(rest[i], lib), PositionOf(table[0], lib), lib.less);
      }
    }
  }

  lemma RemainingSorts(table: seq<Deployment>, f: Filters, cursor: Option<Position>, lib: Library)
    requires Total(lib.less) && UniqueIds(table)
    ensures Strict(Newer(lib)) && Ascending(Remaining(table, f, cursor, lib), Newer(lib))
    ensures forall x ::
      x in Remaining(table, f, cursor, lib)
      <==> x in table && Matches(x, f, lib) && After(cursor, PositionOf(x, lib), lib.less)
  {
    NewerStrict(lib);
    SelectedLinear(table, f, cursor, lib);
    SortedAscending(Selected(table, f, cursor, lib), Newer(lib));
    forall x
      ensures x in Remaining(table, f, cursor, lib)
           <==> x in table && Matches(x, f, lib) && After(cursor, PositionOf(x, lib), lib.less)
    {
      SortedMembers(Selected(table, f, cursor, lib), Newer(lib), x);
      SelectedMembers(table, f, cursor, lib, x);
    }
  }

  // ---------------------------------------------------------------- cursors

  /** A cursor is read back as the position it was made from. */
  lemma CursorRoundTrip(p: Position, scope: Scope, f: Filters, lib: Library)
    requires Lawful(lib) && scope.cursorSecret != [] && lib.timestamp(p.at) == Some(p.at)
    ensures EncodeCursor(p, scope, f, lib).Ok?
    ensures DecodeCursor(EncodeCursor(p, scope, f, lib).value, scope, f, lib) == Ok(p)
  {
    var payload := PayloadOf(p, scope, f, lib);
    var c := Cursor(payload, lib.sign(CursorKey(scope), payload));
    assert lib.decode(lib.encode(c)) == Some(c);
  }

  /** A cursor of another organization, project or filter set is refused. */
  lemma CursorBoundToScope(p: Position, scope: Scope, f: Filters, scope': Scope, f': Filters, lib: Library)
    requires Lawful(lib) && EncodeCursor(p, scope, f, lib).Ok?
    requires scope.organizationId != scope'.organizationId || scope.projectId != scope'.projectId
         || lib.fingerprint(f) != lib.fingerprint(f')
    ensures DecodeCursor(EncodeCursor(p, scope, f, lib).value, scope', f', lib).Invalid?
  {
    var payload := PayloadOf(p, scope, f, lib);
    var c := Cursor(payload, lib.sign(CursorKey(scope), payload));
    assert lib.decode(lib.encode(c)) == Some(c);
  }

  lemma PageCursorReadable(table: seq<Deployment>, f: Filters, limit: nat, cursor: Option<Position>, lib: Library)
    requires Lawful(lib) && Dated(table, lib)
    requires PageAt(table, f, limit, cursor, lib).next.Some?
    ensures var at := PageAt(table, f, limit, cursor, lib).next.value.at; lib.timestamp(at) == Some(at)
  {
    var page := PageAt(table, f, limit, cursor, lib);
    var last := page.rows[|page.rows| - 1];
    assert last in Remaining(table, f, cursor, lib);
    SortedMembers(Selected(table, f, cursor, lib), Newer(lib), last);
    SelectedMembers(table, f, cursor, lib, last);
  }

  /** Cursor text carries positions faithfully, so following cursors is walking positions. */
  lemma {:induction false} FollowIsWalk(visits: seq<Visit>, f: Filters, cursor: Option<Position>, text: Option<string>,
                                        scope: Scope, lib: Library)
    requires Lawful(lib) && scope.cursorSecret != [] && ProperVisits(visits, lib)
    requires cursor.None? ==> text.None?
    requires cursor.Some? ==> text.Some? && DecodeCursor(text.value, scope, f, lib) == Ok(cursor.value)
    ensures Follow(visits, f, text, scope, lib) == Ok(Walk(visits, f, cursor, lib))
  {
    if visits != [] {
      var v := visits[0];
      var page := PageAt(v.table, f, v.limit, cursor, lib);
      if page.next.Some? {
        PageCursorReadable(v.table, f, v.limit, cursor, lib);
        CursorRoundTrip(page.next.value, scope, f, lib);
        FollowIsWalk(visits[1..], f, page.next, Some(EncodeCursor(page.next.value, scope, f, lib).value), scope, lib);
      }
    }
  }

  // ---------------------------------------------------------------- walking

  lemma PageDescends(v: Visit, f: Filters, cursor: Option<Position>, lib: Library)
    requires Total(lib.less) && UniqueIds(v.table) && v.limit >= 1
    ensures var page := PageAt(v.table, f, v.limit, cursor, lib);
      && Ascending(page.rows, Newer(lib))
      && (forall x :: x in page.rows ==> After(cursor, PositionOf(x, lib), lib.less))
      && (page.next.Some? ==> page.rows != [] && page.next.value == PositionOf(page.rows[|page.rows| - 1], lib))
  {
    RemainingSorts(v.table, f, cursor, lib);
    var page := PageAt(v.table, f, v.limit, cursor, lib);
    assert forall i :: 0 <= i < |page.rows| ==> page.rows[i] == Remaining(v.table, f, cursor, lib)[i];
  }

  lemma LaterRowsAfter(rest: seq<Deployment>, last: Deployment, cursor: Option<Position>, lib: Library)
    requires Total(lib.less) && After(cursor, PositionOf(last, lib), lib.less)
    requires forall x :: x in rest ==> Below(PositionOf(x, lib), PositionOf(last, lib), lib.less)
    ensures forall x :: x in rest ==> After(cursor, PositionOf(x, lib), lib.less)
  {
    forall x | x in rest ensures After(cursor, PositionOf(x, lib), lib.less) {
      if cursor.Some? {
        BelowLaws(PositionOf(x, lib), PositionOf(last, lib), cursor.value, lib.less);
      }
    }
  }

  ghost predicate Descends(rows: seq<Deployment>, cursor: Option<Position>, lib: Library) {
    Ascending(rows, Newer(lib)) && forall x :: x in rows ==> After(cursor, PositionOf(x, lib), lib.less)
  }

  lemma PageThenRest(page: Page, rest: seq<Deployment>, cursor: Option<Position>, lib: Library)
    requires Total(lib.less) && Descends(page.rows, cursor, lib) && page.next.Some? && Descends(rest, page.next, lib)
    requires page.rows != [] && page.next.value == PositionOf(page.rows[|page.rows| - 1], lib)
    ensures Descends(page.rows + rest, cursor, lib)
  {
    var last := page.rows[|page.rows| - 1];
    assert last in page.rows;
    JoinDescending(page.rows, rest, lib);
    LaterRowsAfter(rest, last, cursor, lib);
  }

  lemma {:induction false} WalkDescends(visits: seq<Visit>, f: Filters, cursor: Option<Position>, lib: Library)
    requires Total(lib.less) && ProperVisits(visits, lib)
    ensures Descends(Walk(visits, f, cursor, lib).rows, cursor, lib)
    decreases |visits|
  {
    if visits != [] {
      var page := PageAt(visits[0].table, f, visits[0].limit, cursor, lib);
      PageDescends(visits[0], f, cursor, lib);
      if page.next.Some? {
        WalkDescends(visits[1..], f, page.next, lib);
        PageThenRest(page, Walk(visits[1..], f, page.next, lib).rows, cursor, lib);
      }
    }
  }

  /** Rows after the last of a descending page continue the descent. */
  lemma JoinDescending(page: seq<Deployment>, rest: seq<Deployment>, lib: Library)
    requires Total(lib.less) && page != []
    requires Ascending(page, Newer(lib)) && Ascending(rest, Newer(lib))
    requires forall x :: x in rest ==> Below(PositionOf(x, lib), PositionOf(page[|page| - 1], lib), lib.less)
    ensures Ascending(page + rest, Newer(lib))
  {
    NewerStrict(lib);
    var all, last := page + rest, page[|page| - 1];
    forall i, j | 0 <= i < j < |all| ensures Newer(lib)(all[i], all[j]) {
      if i < |page| <= j {
        assert all[j] in rest && Newer(lib)(last, all[j]);
        assert i < |page| - 1 ==> Newer(lib)(page[i], last);
      }
    }
  }

  /** A matching row at position `p` is in the table. */
  ghost predicate Present(table: seq<Deployment>, f: Filters, p: Position, lib: Library) {
    exists x :: x in table && Matches(x, f, lib) && PositionOf(x, lib) == p
  }

  ghost predicate Emitted(rows: seq<Deployment>, p: Position, lib: Library) {
    exists i :: 0 <= i < |rows| && PositionOf(rows[i], lib) == p
  }

  lemma {:induction false} WalkFinds(visits: seq<Visit>, f: Filters, cursor: Option<Position>, lib: Library,
                                     p: Position)
    requires Total(lib.less) && ProperVisits(visits, lib)
    requires After(cursor, p, lib.less)
    requires forall i :: 0 <= i < |visits| ==> Present(visits[i].table, f, p, lib)
    requires Walk(visits, f, cursor, lib).ended
    ensures Emitted(Walk(visits, f, cursor, lib).rows, p, lib)
  {
    var v := visits[0];
    var page := PageAt(v.table, f, v.limit, cursor, lib);
    PageFinds(v, f, cursor, lib, p);
    if page.next.Some? && Below(p, page.next.value, lib.less) {
      WalkFinds(visits[1..], f, page.next, lib, p);
      EmittedInJoin(page.rows, Walk(visits[1..], f, page.next, lib).rows, lib, p);
    } else if page.next.Some? {
      EmittedInJoin(page.rows, Walk(visits[1..], f, page.next, lib).rows, lib, p);
    }
  }

  lemma EmittedInJoin(a: seq<Deployment>, b: seq<Deployment>, lib: Library, p: Position)
    requires Emitted(a, p, lib) || Emitted(b, p, lib)
    ensures Emitted(a + b, p, lib)
  {
    if Emitted(a, p, lib) {
      var i :| 0 <= i < |a| && PositionOf(a[i], lib) == p;
      assert (a + b)[i] == a[i];
    } else {
      var i :| 0 <= i < |b| && PositionOf(b[i], lib) == p;
      assert (a + b)[|a| + i] == b[i];
    }
  }

  lemma PageShape(table: seq<Deployment>, f: Filters, limit: nat, cursor: Option<Position>, lib: Library)
    requires limit >= 1
    ensures var q, page := Remaining(table, f, cursor, lib), PageAt(table, f, limit, cursor, lib);
      && page.rows == Take(q, limit)
      && page.next == if |q| > limit then Some(PositionOf(q[limit - 1], lib)) else None
  {
  }

  /** A present row after the cursor is on the page or after the page's own cursor. */
  lemma PageFinds(v: Visit, f: Filters, cursor: Option<Position>, lib: Library, p: Position)
    requires Total(lib.less) && UniqueIds(v.table) && v.limit >= 1
    requires After(cursor, p, lib.less) && Present(v.table, f, p, lib)
    ensures var page := PageAt(v.table, f, v.limit, cursor, lib);
      Emitted(page.rows, p, lib) || (page.next.Some? && Below(p, page.next.value, lib.less))
  {
    RemainingSorts(v.table, f, cursor, lib);
    var q := Remaining(v.table, f, cursor, lib);
    PageShape(v.table, f, v.limit, cursor, lib);
    var x :| x in v.table && Matches(x, f, lib) && PositionOf(x, lib) == p;
    assert x in q;
    var k :| 0 <= k < |q| && q[k] == x;
    if k < v.limit {
      assert Take(q, v.limit)[k] == x;
    } else {
      assert Newer(lib)(q[v.limit - 1], q[k]);
    }
  }

  /** What remains after the cursor of the `k`-th row is the rest of what remained. */
  lemma RemainingAfter(table: seq<Deployment>, f: Filters, cursor: Option<Position>, lib: Library, k: nat)
    requires Total(lib.less) && UniqueIds(table) && k < |Remaining(table, f, cursor, lib)|
    ensures var q := Remaining(table, f, cursor, lib);
      Remaining(table, f, Some(PositionOf(q[k], lib)), lib) == q[k + 1..]
  {
    var q := Remaining(table, f, cursor, lib);
    var next := Some(PositionOf(q[k], lib));
    RemainingSorts(table, f, cursor, lib);
    RemainingSorts(table, f, next, lib);
    var tail := q[k + 1..];
    assert forall i :: 0 <= i < |tail| ==> tail[i] == q[k + 1 + i];
    forall x ensures x in tail <==> x in Remaining(table, f, next, lib) {
      RestOfDescent(q, k, lib, x);
      if cursor.Some? && x in Remaining(table, f, next, lib) {
        assert q[k] in q;
        BelowLaws(PositionOf(x, lib), PositionOf(q[k], lib), cursor.value, lib.less);
      }
    }
    AscendingUnique(tail, Remaining(table, f, next, lib), Newer(lib));
  }

  lemma RestOfDescent(q: seq<Deployment>, k: nat, lib: Library, x: Deployment)
    requires Strict(Newer(lib)) && Ascending(q, Newer(lib)) && k < |q|
    ensures x in q[k + 1..] <==> x in q && Newer(lib)(q[k], x)
  {
    if x in q && Newer(lib)(q[k], x) {
      var i :| 0 <= i < |q| && q[i] == x;
      assert i > k;
      assert q[k + 1..][i - k - 1] == x;
    }
  }

  /** Every visit reads the same table, with a positive page size. */
  predicate SameTable(visits: seq<Visit>, table: seq<Deployment>) {
    forall i :: 0 <= i < |visits| ==> visits[i].table == table && visits[i].limit >= 1
  }

  lemma OneFixedPage(table: seq<Deployment>, limit: nat, f: Filters, cursor: Option<Position>, lib: Library)
    requires limit >= 1
    ensures var q, page := Remaining(table, f, cursor, lib), PageAt(table, f, limit, cursor, lib);
      if |q| > limit then page == Page(q[..limit], Some(PositionOf(q[limit - 1], lib))) else page == Page(q, None)
  {
  }

  lemma LastPage(table: seq<Deployment>, visits: seq<Visit>, f: Filters, cursor: Option<Position>, lib: Library)
    requires visits != [] && visits[0].table == table && visits[0].limit >= 1
    requires |Remaining(table, f, cursor, lib)| <= visits[0].limit
    ensures Walk(visits, f, cursor, lib) == Reading(Remaining(table, f, cursor, lib), true)
  {
    OneFixedPage(table, visits[0].limit, f, cursor, lib);
  }

  lemma {:induction false} FullPage(table: seq<Deployment>, visits: seq<Visit>, f: Filters, cursor: Option<Position>,
                                    lib: Library,
                 q: seq<Deployment>, limit: nat)
    requires visits != [] && visits[0].table == table && visits[0].limit == limit >= 1
    requires q == Remaining(table, f, cursor, lib) && |q| > limit
    requires Walk(visits[1..], f, Some(PositionOf(q[limit - 1], lib)), lib) == Reading(q[limit..], true)
    ensures Walk(visits, f, cursor, lib) == Reading(q, true)
  {
    OneFixedPage(table, limit, f, cursor, lib);
    Rejoined(q, limit);
    WalkOn(visits, f, cursor, lib, Page(q[..limit], Some(PositionOf(q[limit - 1], lib))), Reading(q[limit..], true));
  }

  lemma Rejoined(q: seq<Deployment>, n: nat)
    requires n <= |q|
    ensures q[..n] + q[n..] == q
  {
  }

  lemma {:induction false} WalkOn(visits: seq<Visit>, f: Filters, cursor: Option<Position>, lib: Library, page: Page,
                                  rest: Reading)
    requires visits != [] && page.next.Some?
    requires PageAt(visits[0].table, f, visits[0].limit, cursor, lib) == page
    requires Walk(visits[1..], f, page.next, lib) == rest
    ensures Walk(visits, f, cursor, lib) == Reading(page.rows + rest.rows, rest.ended)
  {
  }

  lemma {:induction false} FixedTableWalk(table: seq<Deployment>, visits: seq<Visit>, f: Filters,
                                          cursor: Option<Position>, lib: Library)
    requires Total(lib.less) && UniqueIds(table) && SameTable(visits, table)
    requires |visits| >= 1 && |visits| >= |Remaining(table, f, cursor, lib)|
    ensures Walk(visits, f, cursor, lib) == Reading(Remaining(table, f, cursor, lib), true)
    decreases |visits|
  {
    var q, limit := Remaining(table, f, cursor, lib), visits[0].limit;
    if |q| > limit {
      RemainingAfter(table, f, cursor, lib, limit - 1);
      assert SameTable(visits[1..], table);
      FixedTableWalk(table, visits[1..], f, Some(PositionOf(q[limit - 1], lib)), lib);
      FullPage(table, visits, f, cursor, lib, q, limit);
    } else {
      LastPage(table, visits, f, cursor, lib);
    }
  }

  // ---------------------------------------------------------------- main results

  /** Whatever happens to the table between pages and whatever page sizes are asked for, the rows
      a reader collects are in strictly descending position order, so none comes twice. */
  lemma PagesDescendStrictly(visits: seq<Visit>, f: Filters, scope: Scope, lib: Library)
    requires Lawful(lib) && scope.cursorSecret != [] && ProperVisits(visits, lib)
    ensures var r := Follow(visits, f, None, scope, lib);
      && r.Ok?
      && forall i, j :: 0 <= i < j < |r.value.rows| ==>
            Below(PositionOf(r.value.rows[j], lib), PositionOf(r.value.rows[i], lib), lib.less)
  {
    FollowIsWalk(visits, f, None, None, scope, lib);
    NewerStrict(lib);
    WalkDescends(visits, f, None, lib);
    var rows := Walk(visits, f, None, lib).rows;
    assert forall i, j :: 0 <= i < j < |rows| ==> Newer(lib)(rows[i], rows[j]);
  }

  /** A row that is present and matches on every visit of a reading that ends is collected, and
      exactly once. */
  lemma StableRowsAppearOnce(visits: seq<Visit>, f: Filters, scope: Scope, lib: Library, p: Position)
    requires Lawful(lib) && scope.cursorSecret != [] && ProperVisits(visits, lib)
    requires forall i :: 0 <= i < |visits| ==> Present(visits[i].table, f, p, lib)
    requires Follow(visits, f, None, scope, lib).Ok? && Follow(visits, f, None, scope, lib).value.ended
    ensures var rows := Follow(visits, f, None, scope, lib).value.rows;
      exists i :: 0 <= i < |rows| && PositionOf(rows[i], lib) == p
        && forall j :: 0 <= j < |rows| && PositionOf(rows[j], lib) == p ==> i == j
  {
    FollowIsWalk(visits, f, None, None, scope, lib);
    NewerStrict(lib);
    WalkDescends(visits, f, None, lib);
    WalkFinds(visits, f, None, lib, p);
    var rows := Walk(visits, f, None, lib).rows;
    var i :| 0 <= i < |rows| && PositionOf(rows[i], lib) == p;
    forall j | 0 <= j < |rows| && PositionOf(rows[j], lib) == p ensures i == j {
      PositionOnce(rows, lib, i, j);
    }
  }

  lemma PositionOnce(rows: seq<Deployment>, lib: Library, i: nat, j: nat)
    requires Total(lib.less) && Ascending(rows, Newer(lib))
    requires i < |rows| && j < |rows| && PositionOf(rows[i], lib) == PositionOf(rows[j], lib)
    ensures i == j
  {
    var p := PositionOf(rows[i], lib);
    BelowLaws(p, p, p, lib.less);
    assert forall a, b :: 0 <= a < b < |rows| ==> Newer(lib)(rows[a], rows[b]);
  }

  /** On a table that does not change, any positive page sizes lead to the end, and the pages
      together are the matching rows, each once, newest first. */
  lemma FixedTableComplete(table: seq<Deployment>, visits: seq<Visit>, f: Filters, scope: Scope, lib: Library)
    requires Lawful(lib) && scope.cursorSecret != [] && UniqueIds(table) && Dated(table, lib)
    requires SameTable(visits, table) && |visits| >= 1 && |visits| >= |table|
    ensures var r := Follow(visits, f, None, scope, lib);
      && r.Ok? && r.value.ended
      && (forall x :: x in r.value.rows <==> x in table && Matches(x, f, lib))
      && (forall i, j :: 0 <= i < j < |r.value.rows| ==>
            Below(PositionOf(r.value.rows[j], lib), PositionOf(r.value.rows[i], lib), lib.less))
  {
    FollowIsWalk(visits, f, None, None, scope, lib);
    RemainingSorts(table, f, None, lib);
    RemainingBound(table, f, None, lib);
    FixedTableWalk(table, visits, f, None, lib);
    var q := Remaining(table, f, None, lib);
    assert forall i, j :: 0 <= i < j < |q| ==> Newer(lib)(q[i], q[j]);
  }

  lemma RemainingBound(table: seq<Deployment>, f: Filters, cursor: Option<Position>, lib: Library)
    ensures |Remaining(table, f, cursor, lib)| <= |table|
  {
    SelectedBound(table, f, cursor, lib);
    if table != [] {
      SortedMembers(Selected(table, f, cursor, lib), Newer(lib), table[0]);
    }
  }

  lemma {:induction false} SelectedBound(table: seq<Deployment>, f: Filters, cursor: Option<Position>, lib: Library)
    ensures |Selected(table, f, cursor, lib)| <= |table|
  {
    if table != [] {
      SelectedBound(table[1..], f, cursor, lib);
    }
  }

  // ---------------------------------------------------------------- told by the rows' fields

  /** The environment a deployment type stands for: preview or manual in any letter case, or else
      production. */
  function Environment(deploymentType: Option<string>): string {
    if deploymentType.Some? && Lower(deploymentType.value) == "preview" then "preview"
    else if deploymentType.Some? && Lower(deploymentType.value) == "manual" then "manual"
    else "production"
  }

  /** The row meets every filter that is given. */
  predicate Wanted(row: Deployment, f: Filters, lib: Library) {
    var at := if lib.timestamp(row.createdAt).Some? then lib.timestamp(row.createdAt).value else [];
    && (f.serviceId.Some? ==> f.serviceId.value == row.serviceId)
    && (f.status.Some? ==> f.status.value == row.status)
    && (f.environment.Some? ==> f.environment.value == Environment(row.deploymentType))
    && (f.trigger.Some? ==>
          Lower(f.trigger.value) == if row.triggerType.Some? then Lower(row.triggerType.value) else "undefined")
    && (f.from.Some? ==> lib.atLeast(at, f.from.value))
    && (f.to.Some? ==> lib.atLeast(f.to.value, at))
  }

  lemma MatchesIff(row: Deployment, f: Filters, lib: Library)
    ensures Matches(row, f, lib) <==> Wanted(row, f, lib)
  {
    assert Lower("undefined") == "undefined";
    EnvironmentIs(row.deploymentType);
  }

  lemma EnvironmentIs(deploymentType: Option<string>)
    ensures EnvironmentOf(deploymentType) == Environment(deploymentType)
  {
    if deploymentType.Some? {
      var lower := Lower(deploymentType.value);
      assert |lower| == |deploymentType.value|;
      assert lower in ["preview", "manual"] <==> lower == "preview" || lower == "manual";
    }
  }

  lemma {:induction false} WalkCollects(visits: seq<Visit>, f: Filters, cursor: Option<Position>, lib: Library,
                                        x: Deployment)
    requires x in Walk(visits, f, cursor, lib).rows
    ensures exists i :: 0 <= i < |visits| && x in visits[i].table && Matches(x, f, lib)
    decreases |visits|
  {
    var v := visits[0];
    var page := PageAt(v.table, f, v.limit, cursor, lib);
    if x in page.rows {
      assert x in Remaining(v.table, f, cursor, lib);
      SortedMembers(Selected(v.table, f, cursor, lib), Newer(lib), x);
      SelectedMembers(v.table, f, cursor, lib, x);
      assert x in visits[0].table;
    } else {
      WalkCollects(visits[1..], f, page.next, lib, x);
      var i :| 0 <= i < |visits[1..]| && x in visits[1..][i].table && Matches(x, f, lib);
      assert visits[i + 1] == visits[1..][i];
    }
  }

  /** Every row a reader collects stood in a table it read and meets every filter given, on the row's
      own fields; and the rows come newest first, by time stamp and then id. */
  lemma CollectedByFields(visits: seq<Visit>, f: Filters, scope: Scope, lib: Library)
    requires Lawful(lib) && scope.cursorSecret != [] && ProperVisits(visits, lib)
    ensures Follow(visits, f, None, scope, lib).Ok?
    ensures var rows := Follow(visits, f, None, scope, lib).value.rows;
      && (forall x :: x in rows ==> Wanted(x, f, lib) && exists i :: 0 <= i < |visits| && x in visits[i].table)
      && (forall i, j :: 0 <= i < j < |rows| ==>
            && lib.timestamp(rows[i].createdAt).Some? && lib.timestamp(rows[j].createdAt).Some?
            && var newer, older := lib.timestamp(rows[i].createdAt).value, lib.timestamp(rows[j].createdAt).value;
               lib.less(older, newer) || (older == newer && lib.less(rows[j].id, rows[i].id)))
  {
    FollowIsWalk(visits, f, None, None, scope, lib);
    PagesDescendStrictly(visits, f, scope, lib);
    var rows := Walk(visits, f, None, lib).rows;
    forall x | x in rows
      ensures Wanted(x, f, lib) && lib.timestamp(x.createdAt).Some?
      ensures exists i :: 0 <= i < |visits| && x in visits[i].table
    {
      WalkCollects(visits, f, None, lib, x);
      MatchesIff(x, f, lib);
    }
    forall i, j | 0 <= i < j < |rows|
      ensures && lib.timestamp(rows[i].createdAt).Some? && lib.timestamp(rows[j].createdAt).Some?
              && var newer, older := lib.timestamp(rows[i].createdAt).value, lib.timestamp(rows[j].createdAt).value;
                 lib.less(older, newer) || (older == newer && lib.less(rows[j].id, rows[i].id))
    {
      assert rows[i] in rows && rows[j] in rows;
      assert Below(PositionOf(rows[j], lib), PositionOf(rows[i], lib), lib.less);
    }
  }

  /** On a table that does not change, exactly the rows that meet every filter given are collected. */
  lemma FixedTableByFields(table: seq<Deployment>, visits: seq<Visit>, f: Filters, scope: Scope, lib: Library)
    requires Lawful(lib) && scope.cursorSecret != [] && UniqueIds(table) && Dated(table, lib)
    requires SameTable(visits, table) && |visits| >= 1 && |visits| >= |table|
    ensures Follow(visits, f, None, scope, lib).Ok?
    ensures var r := Follow(visits, f, None, scope, lib).value;
      r.ended && forall x :: x in r.rows <==> x in table && Wanted(x, f, lib)
  {
    FixedTableComplete(table, visits, f, scope, lib);
    forall x ensures Matches(x, f, lib) <==> Wanted(x, f, lib) {
      MatchesIff(x, f, lib);
    }
  }

  /** A page holds as many of the remaining rows as were asked for, from the newest on, and has a cursor
      exactly when more remain; the cursor is the last row's place. */
  lemma PageByFields(table: seq<Deployment>, f: Filters, limit: nat, cursor: Option<Position>, lib: Library)
    requires limit >= 1
    ensures var q, page := Remaining(table, f, cursor, lib), PageAt(table, f, limit, cursor, lib);
      if |q| > limit
      then && page.rows == q[..limit]
           && page.next == Some(Position(if lib.timestamp(q[limit - 1].createdAt).Some?
                                         then lib.timestamp(q[limit - 1].createdAt).value else [], q[limit - 1].id))
      else page.rows == q && page.next == None
  {
    OneFixedPage(table, limit, f, cursor, lib);
  }

  /** A cursor text is accepted exactly when it decodes to the request's organization, project and
      filters, there is a secret, it is signed with it, and its time can be read. */
  lemma CursorAcceptedIff(text: string, scope: Scope, f: Filters, lib: Library)
    ensures DecodeCursor(text, scope, f, lib).Ok? <==>
      && lib.decode(text).Some? && scope.cursorSecret != []
      && var c := lib.decode(text).value;
         && c.payload.organizationId == scope.organizationId && c.payload.projectId == scope.projectId
         && c.payload.fingerprint == lib.fingerprint(f) && lib.timestamp(c.payload.position.at).Some?
         && lib.bytes(c.signature) == lib.bytes(lib.sign("deployment-history-v1\0" + scope.cursorSecret, c.payload))
  {
  }
}
