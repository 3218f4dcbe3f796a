/** The PostgreSQL rental adapter as interleaved small steps: every statement of a transaction is
    one step, and the only mutual exclusion is the locks on User rows, the advisory host-name lock
    the triggers take, and the unique indexes
    (packages/core/src/domain-rentals-postgres.ts, packages/core/src/domain-rentals.ts,
    prisma/migrations/202609291300_domain_rentals/migration.sql, packages/core/src/persistence.ts). */
module PostgresRentals {
  import opened Text
  import opened RentalRows

  datatype Account = Account(accountType: string, allowed: bool)

  datatype Request =
    | Insertion(row: Rental)
    | Revision(id: string, version: int, hostname: Option<string>,
               targetUrl: Option<string>, enabled: Option<bool>, now: string)
    | Removal(id: string, version: int)

  datatype Write = Insert(row: Rental) | Replace(row: Rental) | Erase(row: Rental)

  /** Where a rental transaction stands, with what it has read and written so far. */
  datatype Phase =
    | Begun                    // transaction open
    | LockTaken                // SELECT ... FOR UPDATE has returned
    | UserRead(user: Account)
    | RowsRead(user: Account, current: Option<Rental>)
    | Ready(write: Write)      // all checks passed
    | Written(write: Write)    // statement done, not committed
    | Audited(write: Write)

  /** Where a custom-domain transaction stands. */
  datatype DomainPhase =
    | Snapshot(visible: set<string>)
    | HostLocked               // the trigger holds the host-name lock and has looked for rentals
    | DomainWritten            // record inserted
    | DomainAudited            // audit entry inserted, which share-locks the actor's User row

  datatype Txn =
    | Rent(owner: string, request: Request, phase: Phase)
    | Claim(hostname: string, id: string, actor: Option<string>, stage: DomainPhase)

  /** Committed tables, row and advisory locks, and the open transactions. */
  datatype Db = Db(
    users: map<string, Account>, rows: map<string, Rental>, domains: set<string>, domainIds: set<string>,
    userLocks: map<string, nat>, hostLocks: map<string, nat>, txns: map<nat, Txn>)

  /** `freshReads` says whether a custom-domain transaction sees, inside its trigger, what is
      committed at that moment; a Serializable transaction sees its opening snapshot instead. */
  datatype Isolation = Isolation(freshReads: bool)

  datatype Step =
    | Begin(t: nat, owner: string, request: Request)
    | Lock(t: nat)
    | ReadUser(t: nat)
    | ReadRows(t: nat)
    | CheckHost(t: nat)
    | DoWrite(t: nat)
    | Audit(t: nat)
    | Commit(t: nat)
    | Abort(t: nat)
    | BeginClaim(t: nat, hostname: string, id: string, actor: Option<string>)
    | GuardClaim(t: nat)
    | WriteClaim(t: nat)
    | AuditClaim(t: nat)
    | CommitClaim(t: nat)
    | ChangeAccount(owner: string, account: Account)
    | SignUp(owner: string, account: Account)

  function OwnedIds(rows: map<string, Rental>, owner: string): set<string> {
    set id | id in rows && rows[id].owner == owner
  }

  function Hosts(rows: map<string, Rental>): set<string> {
    set id | id in rows :: rows[id].hostname
  }

  function RevisedRow(r: Rental, q: Request): Rental
    requires q.Revision?
  {
    Amended(r, q.hostname, q.targetUrl, q.enabled, q.now)
  }

  function WithPhase(s: Db, t: nat, phase: Phase): Db
    requires t in s.txns && s.txns[t].Rent?
  {
    s.(txns := s.txns[t := s.txns[t].(phase := phase)])
  }

  function WithStage(s: Db, t: nat, stage: DomainPhase): Db
    requires t in s.txns && s.txns[t].Claim?
  {
    s.(txns := s.txns[t := s.txns[t].(stage := stage)])
  }

  /** Ending a transaction releases every lock it holds. */
  function Finish(s: Db, t: nat): Db {
    s.(txns := s.txns - {t},
       userLocks := map o | o in s.userLocks && s.userLocks[o] != t :: s.userLocks[o],
       hostLocks := map h | h in s.hostLocks && s.hostLocks[h] != t :: s.hostLocks[h])
  }

  predicate Free(locks: map<string, nat>, key: string, t: nat) {
    key in locks ==> locks[key] == t
  }

  /** Ids of new rows come from a generator that never repeats one. */
  predicate FreshId(s: Db, id: string) {
    && id !in s.rows
    && forall t :: t in s.txns && s.txns[t].Rent? && s.txns[t].request.Insertion? ==> s.txns[t].request.row.id != id
  }

  /** A custom-domain transaction with this User row share-locked, for the foreign key of its audit
      entry. Other such transactions and changes of the account may go on, `FOR UPDATE` may not. */
  predicate Shares(s: Db, t: nat, owner: string) {
    t in s.txns && s.txns[t].Claim? && s.txns[t].stage.DomainAudited? && s.txns[t].actor == Some(owner)
  }

  /** A custom-domain transaction that has inserted a record with this id. */
  predicate Inserted(s: Db, t: nat, id: string) {
    && t in s.txns && s.txns[t].Claim? && s.txns[t].id == id
    && (s.txns[t].stage.DomainWritten? || s.txns[t].stage.DomainAudited?)
  }

  predicate Renting(s: Db, t: nat) {
    t in s.txns && s.txns[t].Rent?
  }

  /** The write conditions of the database: the trigger's advisory lock and look-up, the unique
      index, and for an update the owner and version predicate. */
  predicate WriteAdmitted(s: Db, t: nat, w: Write) {
    match w
    case Insert(r) => Free(s.hostLocks, r.hostname, t) && r.hostname !in s.domains && r.hostname !in Hosts(s.rows)
    case Replace(r) =>
      && Free(s.hostLocks, r.hostname, t) && r.hostname !in s.domains
      && (forall id :: id in s.rows && s.rows[id].hostname == r.hostname ==> id == r.id)
      && VersionPredicate(s, r)
    case Erase(r) => r.id in s.rows
  }

  predicate VersionPredicate(s: Db, r: Rental) {
    r.id in s.rows && s.rows[r.id].owner == r.owner && s.rows[r.id].version == r.version - 1
  }

  function ApplyWrite(rows: map<string, Rental>, w: Write): map<string, Rental> {
    match w
    case Insert(r) => rows[r.id := r]
    case Replace(r) => rows[r.id := r]
    case Erase(r) => rows - {r.id}
  }

  /** One step, or None when it is not enabled. A refused check is an `Abort`. */
  function Apply(s: Db, step: Step, iso: Isolation): Option<Db> {
    match step
    case Begin(t, owner, request) =>
      if t in s.txns || (request.Insertion? && !(FreshId(s, request.row.id) && request.row.owner == owner)) then None
      else Some(s.(txns := s.txns[t := Rent(owner, request, Begun)]))
    case Lock(t) =>
      if !Renting(s, t) || s.txns[t].phase != Begun then None
      else if s.txns[t].owner !in s.users then Some(WithPhase(s, t, LockTaken))  // no row, nothing locked
      else if s.txns[t].owner in s.userLocks then None                            // blocked
      else if exists u :: u in s.txns && Shares(s, u, s.txns[t].owner) then None  // blocked
      else Some(WithPhase(s, t, LockTaken).(userLocks := s.userLocks[s.txns[t].owner := t]))
    case ReadUser(t) =>
      if !Renting(s, t) || s.txns[t].phase != LockTaken then None
      else if s.txns[t].owner !in s.users || !s.users[s.txns[t].owner].allowed then None
      else Some(WithPhase(s, t, UserRead(s.users[s.txns[t].owner])))
    case ReadRows(t) =>
      if !Renting(s, t) || !s.txns[t].phase.UserRead? then None else StepReadRows(s, t)
    case CheckHost(t) =>
      if !Renting(s, t) || !s.txns[t].phase.RowsRead? then None else StepCheckHost(s, t)
    case DoWrite(t) =>
      if !Renting(s, t) || !s.txns[t].phase.Ready? || !WriteAdmitted(s, t, s.txns[t].phase.write) then None
      else
        var w := s.txns[t].phase.write;
        var s' := WithPhase(s, t, Written(w));
        Some(if w.Erase? then s' else s'.(hostLocks := s.hostLocks[w.row.hostname := t]))
    case Audit(t) =>
      if !Renting(s, t) || !s.txns[t].phase.Written? then None
      else Some(WithPhase(s, t, Audited(s.txns[t].phase.write)))
    case Commit(t) =>
      if !Renting(s, t) || !s.txns[t].phase.Audited? then None
      else Some(Finish(s, t).(rows := ApplyWrite(s.rows, s.txns[t].phase.write)))
    case Abort(t) =>
      if t !in s.txns then None else Some(Finish(s, t))
    case BeginClaim(t, hostname, id, actor) =>
      if t in s.txns then None
      else Some(s.(txns := s.txns[t := Claim(hostname, id, actor, Snapshot(Hosts(s.rows)))]))
    case GuardClaim(t) =>
      if t !in s.txns || !s.txns[t].Claim? || !s.txns[t].stage.Snapshot? then None
      else
        var hostname := s.txns[t].hostname;
        var visible := if iso.freshReads then Hosts(s.rows) else s.txns[t].stage.visible;
        if !Free(s.hostLocks, hostname, t) || hostname in visible then None
        else Some(WithStage(s, t, HostLocked).(hostLocks := s.hostLocks[hostname := t]))
    case WriteClaim(t) =>
      if t !in s.txns || !s.txns[t].Claim? || !s.txns[t].stage.HostLocked? then None
      else if s.txns[t].hostname in s.domains || s.txns[t].id in s.domainIds then None
      else if exists u :: u in s.txns && Inserted(s, u, s.txns[t].id) then None   // blocked
      else Some(WithStage(s, t, DomainWritten))
    case AuditClaim(t) =>
      if t !in s.txns || !s.txns[t].Claim? || !s.txns[t].stage.DomainWritten? then None
      else if s.txns[t].actor.Some? && s.txns[t].actor.value !in s.users then None
      else if s.txns[t].actor.Some? && s.txns[t].actor.value in s.userLocks then None  // blocked
      else Some(WithStage(s, t, DomainAudited))
    case CommitClaim(t) =>
      if t !in s.txns || !s.txns[t].Claim? || !s.txns[t].stage.DomainAudited? then None
      else Some(Finish(s, t).(domains := s.domains + {s.txns[t].hostname}, domainIds := s.domainIds + {s.txns[t].id}))
    case ChangeAccount(owner, account) =>
      if owner !in s.users || owner in s.userLocks then None  // the update needs the row lock
      else Some(s.(users := s.users[owner := account]))
    case SignUp(owner, account) =>
      if owner in s.users || !NobodyActsFor(s, owner) then None
      else Some(s.(users := s.users[owner := account]))
  }

  /** User ids are generated at sign-up, so no request for the id can be under way yet. */
  predicate NobodyActsFor(s: Db, owner: string) {
    forall t :: t in s.txns && s.txns[t].Rent? ==> s.txns[t].owner != owner
  }

  function StepReadRows(s: Db, t: nat): Option<Db>
    requires Renting(s, t) && s.txns[t].phase.UserRead?
  {
    var x := s.txns[t];
    match x.request
    case Insertion(_) =>
      if |OwnedIds(s.rows, x.owner)| >= Limit(x.phase.user.accountType) then None
      else Some(WithPhase(s, t, RowsRead(x.phase.user, None)))
    case Revision(id, version, _, _, _, _) => StepFind(s, t, id, version)
    case Removal(id, version) => StepFind(s, t, id, version)
  }

  function StepFind(s: Db, t: nat, id: string, version: int): Option<Db>
    requires Renting(s, t) && s.txns[t].phase.UserRead?
  {
    if id !in s.rows || s.rows[id].owner != s.txns[t].owner || s.rows[id].version != version then None
    else Some(WithPhase(s, t, RowsRead(s.txns[t].phase.user, Some(s.rows[id]))))
  }

  function StepCheckHost(s: Db, t: nat): Option<Db>
    requires Renting(s, t) && s.txns[t].phase.RowsRead?
  {
    var x := s.txns[t];
    match x.request
    case Insertion(r) =>
      if r.hostname in Hosts(s.rows) || r.hostname in s.domains then None
      else Some(WithPhase(s, t, Ready(Insert(r))))
    case Revision(_, _, hostname, _, _, _) =>
      if x.phase.current.None? then None
      else if hostname.Some? && hostname.value != x.phase.current.value.hostname
              && (hostname.value in Hosts(s.rows) || hostname.value in s.domains)
      then None
      else Some(WithPhase(s, t, Ready(Replace(RevisedRow(x.phase.current.value, x.request)))))
    case Removal(_, _) =>
      if x.phase.current.None? then None
      else Some(WithPhase(s, t, Ready(Erase(x.phase.current.value))))
  }

  // ---------------------------------------------------------------- runs

  function Run(s: Db, steps: seq<Step>, iso: Isolation): Option<Db> {
    if steps == [] then Some(s)
    else
      var before := Run(s, steps[..|steps| - 1], iso);
      if before.None? then None else Apply(before.value, steps[|steps| - 1], iso)
  }

  /** Any committed content with unique host names, clear of the custom domains, and no
      transaction open. */
  ghost predicate Initial(s: Db) {
    && s.userLocks == map[] && s.hostLocks == map[] && s.txns == map[]
    && (forall id :: id in s.rows ==> s.rows[id].id == id)
    && UniqueHosts(s.rows) && Disjoint(s)
  }

  ghost predicate UniqueHosts(rows: map<string, Rental>) {
    forall i, j :: i in rows && j in rows && rows[i].hostname == rows[j].hostname ==> i == j
  }

  ghost predicate Disjoint(s: Db) {
    forall id :: id in s.rows ==> s.rows[id].hostname !in s.domains
  }

  // ---------------------------------------------------------------- what the row lock protects

  ghost predicate Holds(s: Db, t: nat, owner: string) {
    owner in s.users && owner in s.userLocks && s.userLocks[owner] == t
  }

  ghost predicate BelowLimit(s: Db, owner: string)
    requires owner in s.users
  {
    |OwnedIds(s.rows, owner)| < Limit(s.users[owner].accountType)
  }

  /** The request names a committed row of the owner, at the version the request expects. */
  ghost predicate Names(s: Db, owner: string, request: Request)
    requires !request.Insertion?
  {
    request.id in s.rows && s.rows[request.id].owner == owner && s.rows[request.id].version == request.version
  }

  /** What a transaction has read is still the committed truth. */
  ghost predicate ReadOk(s: Db, owner: string, request: Request, current: Option<Rental>)
    requires owner in s.users
  {
    if request.Insertion? then BelowLimit(s, owner)
    else current.Some? && Names(s, owner, request) && current.value == s.rows[request.id]
  }

  ghost predicate WriteOk(s: Db, owner: string, request: Request, w: Write)
    requires owner in s.users
  {
    && w.row.owner == owner
    && match w
       case Insert(r) => request == Insertion(r) && BelowLimit(s, owner)
       case Replace(r) => request.Revision? && Names(s, owner, request) && r == RevisedRow(s.rows[request.id], request)
       case Erase(r) => request.Removal? && Names(s, owner, request) && r == s.rows[request.id]
  }

  ghost predicate OwnerOk(s: Db, t: nat, owner: string, request: Request, phase: Phase) {
    match phase
    case Begun => true
    case LockTaken => owner in s.users ==> Holds(s, t, owner)
    case UserRead(u) => Holds(s, t, owner) && u == s.users[owner]
    case RowsRead(u, current) => Holds(s, t, owner) && u == s.users[owner] && ReadOk(s, owner, request, current)
    case Ready(w) => Holds(s, t, owner) && WriteOk(s, owner, request, w)
    case Written(w) => Holds(s, t, owner) && WriteOk(s, owner, request, w)
    case Audited(w) => Holds(s, t, owner) && WriteOk(s, owner, request, w)
  }

  ghost predicate PendingIds(s: Db) {
    && (forall t :: Renting(s, t) && s.txns[t].request.Insertion? ==>
          s.txns[t].request.row.id !in s.rows && s.txns[t].request.row.owner == s.txns[t].owner)
    && (forall t, u :: Renting(s, t) && Renting(s, u) ==> t == u || !SameNewId(s.txns[t].request, s.txns[u].request))
  }

  predicate SameNewId(a: Request, b: Request) {
    a.Insertion? && b.Insertion? && a.row.id == b.row.id
  }

  ghost predicate OwnerInv(s: Db) {
    && (forall id :: id in s.rows ==> s.rows[id].id == id)
    && PendingIds(s)
    && (forall t :: Renting(s, t) ==> OwnerOk(s, t, s.txns[t].owner, s.txns[t].request, s.txns[t].phase))
  }

  // ---------------------------------------------------------------- what the host lock protects

  ghost predicate HostClear(s: Db, r: Rental) {
    r.hostname !in s.domains && forall id :: id in s.rows && s.rows[id].hostname == r.hostname ==> id == r.id
  }

  ghost predicate HostHeld(s: Db, t: nat, hostname: string) {
    hostname in s.hostLocks && s.hostLocks[hostname] == t
  }

  ghost predicate HostOk(s: Db, t: nat, x: Txn, iso: Isolation) {
    match x
    case Rent(_, _, phase) =>
      phase.Written? || phase.Audited? ==>
        phase.write.Erase? || (HostHeld(s, t, phase.write.row.hostname) && HostClear(s, phase.write.row))
    case Claim(hostname, _, _, stage) =>
      !stage.Snapshot? ==> HostHeld(s, t, hostname) && (iso.freshReads ==> hostname !in Hosts(s.rows))
  }

  ghost predicate HostInv(s: Db, iso: Isolation) {
    && (forall t :: t in s.txns ==> HostOk(s, t, s.txns[t], iso))
    && (forall id :: id in s.rows ==> s.rows[id].id == id)
    && UniqueHosts(s.rows)
    && (iso.freshReads ==> Disjoint(s))
  }

  // ---------------------------------------------------------------- preservation

  /** Moving one transaction to a phase that is justified disturbs no other. */
  lemma PhaseKeepsOwner(s: Db, t: nat, phase: Phase)
    requires OwnerInv(s) && Renting(s, t)
    requires OwnerOk(s, t, s.txns[t].owner, s.txns[t].request, phase)
    ensures OwnerInv(WithPhase(s, t, phase))
  {
    var s' := WithPhase(s, t, phase);
    forall u | Renting(s', u) ensures OwnerOk(s', u, s'.txns[u].owner, s'.txns[u].request, s'.txns[u].phase) {
      assert Renting(s, u);
      SameView(s, s', u, s'.txns[u].owner, s'.txns[u].request, s'.txns[u].phase);
    }
  }

  /** The judgement depends only on the owner's account, lock and rows. */
  lemma SameView(s: Db, s': Db, t: nat, owner: string, request: Request, phase: Phase)
    requires OwnerOk(s, t, owner, request, phase)
    requires owner in s.users <==> owner in s'.users
    requires owner in s.users ==> s.users[owner] == s'.users[owner]
    requires Holds(s, t, owner) ==> Holds(s', t, owner)
    requires OwnedIds(s.rows, owner) == OwnedIds(s'.rows, owner)
    requires forall id :: id in OwnedIds(s.rows, owner) ==> s.rows[id] == s'.rows[id]
    ensures OwnerOk(s', t, owner, request, phase)
  {
    assert forall id :: id in s.rows && s.rows[id].owner == owner ==> id in OwnedIds(s.rows, owner);
    assert forall id :: id in OwnedIds(s.rows, owner) ==> id in s'.rows && s'.rows[id].owner == owner;
  }

  lemma BeginKeepsOwner(s: Db, t: nat, owner: string, request: Request, iso: Isolation)
    requires OwnerInv(s) && Apply(s, Begin(t, owner, request), iso).Some?
    ensures OwnerInv(Apply(s, Begin(t, owner, request), iso).value)
  {
    var s' := Apply(s, Begin(t, owner, request), iso).value;
    forall u | Renting(s', u) ensures OwnerOk(s', u, s'.txns[u].owner, s'.txns[u].request, s'.txns[u].phase) {
      if u != t {
        assert Renting(s, u);
        SameView(s, s', u, s'.txns[u].owner, s'.txns[u].request, s'.txns[u].phase);
      }
    }
    assert forall u :: Renting(s', u) && u != t ==> Renting(s, u) && s'.txns[u] == s.txns[u];
  }

  lemma LockKeepsOwner(s: Db, t: nat, iso: Isolation)
    requires OwnerInv(s) && Apply(s, Lock(t), iso).Some?
    ensures OwnerInv(Apply(s, Lock(t), iso).value)
  {
    var s' := Apply(s, Lock(t), iso).value;
    forall u | Renting(s', u) ensures OwnerOk(s', u, s'.txns[u].owner, s'.txns[u].request, s'.txns[u].phase) {
      assert Renting(s, u);
      if u != t {
        LockKeepsOther(s, t, u, iso);
      }
    }
    assert forall u :: Renting(s', u) ==>
      Renting(s, u) && s'.txns[u].request == s.txns[u].request && s'.txns[u].owner == s.txns[u].owner;
  }

  lemma LockKeepsOther(s: Db, t: nat, u: nat, iso: Isolation)
    requires OwnerInv(s) && Apply(s, Lock(t), iso).Some? && Renting(s, u) && u != t
    ensures var s' := Apply(s, Lock(t), iso).value;
      s'.txns[u] == s.txns[u] && OwnerOk(s', u, s.txns[u].owner, s.txns[u].request, s.txns[u].phase)
  {
    SameView(s, Apply(s, Lock(t), iso).value, u, s.txns[u].owner, s.txns[u].request, s.txns[u].phase);
  }

  lemma PhaseStepsKeepOwner(s: Db, step: Step, iso: Isolation)
    requires OwnerInv(s) && Apply(s, step, iso).Some?
    requires step.ReadUser? || step.ReadRows? || step.CheckHost? || step.Audit?
    ensures OwnerInv(Apply(s, step, iso).value)
  {
    var s' := Apply(s, step, iso).value;
    var x := s.txns[step.t];
    assert OwnerOk(s, step.t, x.owner, x.request, x.phase);
    assert x.request.Insertion? ==> x.request.row.owner == x.owner;
    PhaseKeepsOwner(s, step.t, s'.txns[step.t].phase);
  }

  lemma WriteKeepsOwner(s: Db, t: nat, iso: Isolation)
    requires OwnerInv(s) && Apply(s, DoWrite(t), iso).Some?
    ensures OwnerInv(Apply(s, DoWrite(t), iso).value)
  {
    var s' := Apply(s, DoWrite(t), iso).value;
    var x := s.txns[t];
    assert OwnerOk(s, t, x.owner, x.request, x.phase);
    var mid := WithPhase(s, t, Written(x.phase.write));
    PhaseKeepsOwner(s, t, Written(x.phase.write));
    FrameKeepsOwner(mid, s');
  }

  /** A step that changes neither accounts, rows, row locks nor rental transactions. */
  lemma FrameKeepsOwner(s: Db, s': Db)
    requires OwnerInv(s)
    requires s'.users == s.users && s'.rows == s.rows && s'.userLocks == s.userLocks
    requires forall u :: Renting(s', u) ==> Renting(s, u) && s'.txns[u] == s.txns[u]
    ensures OwnerInv(s')
  {
    forall u | Renting(s', u) ensures OwnerOk(s', u, s'.txns[u].owner, s'.txns[u].request, s'.txns[u].phase) {
      SameView(s, s', u, s.txns[u].owner, s.txns[u].request, s.txns[u].phase);
    }
  }

  lemma AbortKeepsOwner(s: Db, t: nat)
    requires OwnerInv(s) && t in s.txns
    ensures OwnerInv(Finish(s, t))
  {
    var s' := Finish(s, t);
    forall u | Renting(s', u) ensures OwnerOk(s', u, s'.txns[u].owner, s'.txns[u].request, s'.txns[u].phase) {
      assert Renting(s, u) && u != t;
      SameView(s, s', u, s.txns[u].owner, s.txns[u].request, s.txns[u].phase);
    }
    assert forall u :: Renting(s', u) ==> Renting(s, u) && s'.txns[u] == s.txns[u];
  }

  /** A committed write touches only rows of the owner whose lock its transaction holds. */
  lemma CommitTouchesOneOwner(s: Db, t: nat, owner: string)
    requires OwnerInv(s) && Renting(s, t) && s.txns[t].phase.Audited? && s.txns[t].owner != owner
    ensures var rows' := ApplyWrite(s.rows, s.txns[t].phase.write);
      && OwnedIds(rows', owner) == OwnedIds(s.rows, owner)
      && (forall id :: id in OwnedIds(s.rows, owner) ==> rows'[id] == s.rows[id])
  {
    var x := s.txns[t];
    assert OwnerOk(s, t, x.owner, x.request, x.phase);
    var w := x.phase.write;
    assert w.Insert? ==> w.row.id !in s.rows;
    assert w.row.id in s.rows ==> s.rows[w.row.id].owner == x.owner;
  }

  lemma CommitKeepsOwner(s: Db, t: nat, iso: Isolation)
    requires OwnerInv(s) && Apply(s, Commit(t), iso).Some?
    ensures OwnerInv(Apply(s, Commit(t), iso).value)
  {
    var s' := Apply(s, Commit(t), iso).value;
    var x := s.txns[t];
    assert OwnerOk(s, t, x.owner, x.request, x.phase);
    forall u | Renting(s', u) ensures OwnerOk(s', u, s'.txns[u].owner, s'.txns[u].request, s'.txns[u].phase) {
      assert Renting(s, u) && u != t;
      var y := s.txns[u];
      assert OwnerOk(s, u, y.owner, y.request, y.phase);
      if y.owner != x.owner {
        CommitTouchesOneOwner(s, t, y.owner);
        SameView(s, s', u, y.owner, y.request, y.phase);
      } else {
        assert y.phase.Begun?;
      }
    }
    CommitKeepsIds(s, t, s');
  }

  lemma CommitKeepsIds(s: Db, t: nat, s': Db)
    requires OwnerInv(s) && Renting(s, t) && s.txns[t].phase.Audited?
    requires s' == Finish(s, t).(rows := ApplyWrite(s.rows, s.txns[t].phase.write))
    ensures PendingIds(s') && forall id :: id in s'.rows ==> s'.rows[id].id == id
  {
    var x := s.txns[t];
    assert OwnerOk(s, t, x.owner, x.request, x.phase);
    assert forall u :: Renting(s', u) ==> Renting(s, u) && u != t && s'.txns[u] == s.txns[u];
    forall u | Renting(s', u) && s'.txns[u].request.Insertion? ensures s'.txns[u].request.row.id !in s'.rows {
      assert !SameNewId(s.txns[u].request, x.request);
    }
  }

  lemma AccountStepsKeepOwner(s: Db, step: Step, iso: Isolation)
    requires OwnerInv(s) && Apply(s, step, iso).Some?
    requires step.ChangeAccount? || step.SignUp?
    ensures OwnerInv(Apply(s, step, iso).value)
  {
    var s' := Apply(s, step, iso).value;
    forall u | Renting(s', u) ensures OwnerOk(s', u, s'.txns[u].owner, s'.txns[u].request, s'.txns[u].phase) {
      assert Renting(s, u);
      var y := s.txns[u];
      assert OwnerOk(s, u, y.owner, y.request, y.phase);
      if y.owner != step.owner {
        SameView(s, s', u, y.owner, y.request, y.phase);
      } else {
        assert y.phase.Begun?;
      }
    }
    assert forall u :: Renting(s', u) ==> Renting(s, u) && s'.txns[u] == s.txns[u];
  }

  lemma StepKeepsOwner(s: Db, step: Step, iso: Isolation)
    requires OwnerInv(s) && Apply(s, step, iso).Some?
    ensures OwnerInv(Apply(s, step, iso).value)
  {
    match step
    case Begin(t, owner, request) => BeginKeepsOwner(s, t, owner, request, iso);
    case Lock(t) => LockKeepsOwner(s, t, iso);
    case ReadUser(_) => PhaseStepsKeepOwner(s, step, iso);
    case ReadRows(_) => PhaseStepsKeepOwner(s, step, iso);
    case CheckHost(_) => PhaseStepsKeepOwner(s, step, iso);
    case DoWrite(t) => WriteKeepsOwner(s, t, iso);
    case Audit(_) => PhaseStepsKeepOwner(s, step, iso);
    case Commit(t) => CommitKeepsOwner(s, t, iso);
    case Abort(t) => AbortKeepsOwner(s, t);
    case BeginClaim(_, _, _, _) => FrameKeepsOwner(s, Apply(s, step, iso).value);
    case GuardClaim(_) => FrameKeepsOwner(s, Apply(s, step, iso).value);
    case WriteClaim(_) => FrameKeepsOwner(s, Apply(s, step, iso).value);
    case AuditClaim(_) => FrameKeepsOwner(s, Apply(s, step, iso).value);
    case CommitClaim(t) =>
      AbortKeepsOwner(s, t);
      FrameKeepsOwner(Finish(s, t), Apply(s, step, iso).value);
    case ChangeAccount(_, _) => AccountStepsKeepOwner(s, step, iso);
    case SignUp(_, _) => AccountStepsKeepOwner(s, step, iso);
  }

  predicate HoldsHost(x: Txn) {
    match x
    case Rent(_, _, phase) => phase.Written? || phase.Audited?
    case Claim(_, _, _, stage) => !stage.Snapshot?
  }

  /** A step that leaves rows, domains and host locks alone and completes no write. */
  lemma FrameKeepsHost(s: Db, s': Db, iso: Isolation)
    requires HostInv(s, iso)
    requires s'.rows == s.rows && s'.domains == s.domains && s'.hostLocks == s.hostLocks
    requires forall u :: u in s'.txns && HoldsHost(s'.txns[u]) ==> u in s.txns && HostOk(s, u, s'.txns[u], iso)
    ensures HostInv(s', iso)
  {
    forall u | u in s'.txns ensures HostOk(s', u, s'.txns[u], iso) {
      if HoldsHost(s'.txns[u]) {
        assert HostOk(s, u, s'.txns[u], iso);
      }
    }
  }

  lemma WriteKeepsHost(s: Db, t: nat, iso: Isolation)
    requires HostInv(s, iso) && Apply(s, DoWrite(t), iso).Some?
    ensures HostInv(Apply(s, DoWrite(t), iso).value, iso)
  {
    var s' := Apply(s, DoWrite(t), iso).value;
    var w := s.txns[t].phase.write;
    forall u | u in s'.txns ensures HostOk(s', u, s'.txns[u], iso) {
      if u == t {
        assert w.Insert? ==> HostClear(s, w.row);
      } else {
        assert HostOk(s, u, s.txns[u], iso);
      }
    }
  }

  lemma GuardClaimKeepsHost(s: Db, t: nat, iso: Isolation)
    requires HostInv(s, iso) && Apply(s, GuardClaim(t), iso).Some?
    ensures HostInv(Apply(s, GuardClaim(t), iso).value, iso)
  {
    var s' := Apply(s, GuardClaim(t), iso).value;
    forall u | u in s'.txns && u != t ensures HostOk(s', u, s'.txns[u], iso) {
      assert HostOk(s, u, s.txns[u], iso);
    }
  }

  /** Past the trigger, a custom-domain transaction only moves on. */
  lemma StageKeepsHost(s: Db, t: nat, stage: DomainPhase, iso: Isolation)
    requires HostInv(s, iso) && t in s.txns && s.txns[t].Claim? && !s.txns[t].stage.Snapshot?
    ensures HostInv(WithStage(s, t, stage), iso)
  {
    var s' := WithStage(s, t, stage);
    forall u | u in s'.txns && HoldsHost(s'.txns[u]) ensures u in s.txns && HostOk(s, u, s'.txns[u], iso) {
      assert HostOk(s, u, s.txns[u], iso);
    }
    FrameKeepsHost(s, s', iso);
  }

  lemma AbortKeepsHost(s: Db, t: nat, iso: Isolation)
    requires HostInv(s, iso)
    ensures HostInv(Finish(s, t), iso)
  {
    var s' := Finish(s, t);
    forall u | u in s'.txns ensures HostOk(s', u, s'.txns[u], iso) {
      assert u != t && HostOk(s, u, s.txns[u], iso);
    }
  }

  lemma WriteKeepsUnique(s: Db, w: Write)
    requires UniqueHosts(s.rows) && (forall id :: id in s.rows ==> s.rows[id].id == id)
    requires w.Erase? || HostClear(s, w.row)
    ensures var rows' := ApplyWrite(s.rows, w);
      && UniqueHosts(rows') && (forall id :: id in rows' ==> rows'[id].id == id)
      && (Disjoint(s) ==> Disjoint(s.(rows := rows')))
  {
  }

  /** Two transactions that hold a host lock hold different ones, so a commit under one cannot
      disturb what the other has checked. */
  lemma CommitKeepsHost(s: Db, t: nat, iso: Isolation)
    requires HostInv(s, iso) && Apply(s, Commit(t), iso).Some?
    ensures HostInv(Apply(s, Commit(t), iso).value, iso)
  {
    var s' := Apply(s, Commit(t), iso).value;
    var w := s.txns[t].phase.write;
    assert HostOk(s, t, s.txns[t], iso);
    WriteKeepsUnique(s, w);
    forall u | u in s'.txns ensures HostOk(s', u, s'.txns[u], iso) {
      OtherStaysClear(s, t, u, iso);
    }
  }

  lemma OtherStaysClear(s: Db, t: nat, u: nat, iso: Isolation)
    requires HostInv(s, iso) && Apply(s, Commit(t), iso).Some?
    requires u in s.txns && u != t
    ensures HostOk(Apply(s, Commit(t), iso).value, u, s.txns[u], iso)
  {
    var w := s.txns[t].phase.write;
    assert HostOk(s, t, s.txns[t], iso) && HostOk(s, u, s.txns[u], iso);
    var rows' := ApplyWrite(s.rows, w);
    assert forall id :: id in rows' ==> (rows'[id] == w.row && !w.Erase?) || (id in s.rows && rows'[id] == s.rows[id]);
  }

  lemma CommitClaimKeepsHost(s: Db, t: nat, iso: Isolation)
    requires HostInv(s, iso) && Apply(s, CommitClaim(t), iso).Some?
    ensures HostInv(Apply(s, CommitClaim(t), iso).value, iso)
  {
    var s' := Apply(s, CommitClaim(t), iso).value;
    assert HostOk(s, t, s.txns[t], iso);
    forall u | u in s'.txns ensures HostOk(s', u, s'.txns[u], iso) {
      assert u != t && HostOk(s, u, s.txns[u], iso);
    }
    assert iso.freshReads ==> forall id :: id in s.rows ==> s.rows[id].hostname in Hosts(s.rows);
  }

  lemma PhaseKeepsHost(s: Db, t: nat, phase: Phase, iso: Isolation)
    requires HostInv(s, iso) && Renting(s, t)
    requires phase.Written? || phase.Audited? ==> s.txns[t].phase == Written(phase.write)
    ensures HostInv(WithPhase(s, t, phase), iso)
  {
    var s' := WithPhase(s, t, phase);
    forall u | u in s'.txns && HoldsHost(s'.txns[u]) ensures u in s.txns && HostOk(s, u, s'.txns[u], iso) {
      assert HostOk(s, u, s.txns[u], iso);
    }
    FrameKeepsHost(s, s', iso);
  }

  lemma NewTxnKeepsHost(s: Db, t: nat, x: Txn, iso: Isolation)
    requires HostInv(s, iso) && !HoldsHost(x)
    ensures HostInv(s.(txns := s.txns[t := x]), iso)
  {
    FrameKeepsHost(s, s.(txns := s.txns[t := x]), iso);
  }

  lemma PhaseStepsKeepHost(s: Db, step: Step, iso: Isolation)
    requires HostInv(s, iso) && Apply(s, step, iso).Some?
    requires step.ReadUser? || step.ReadRows? || step.CheckHost? || step.Audit?
    ensures HostInv(Apply(s, step, iso).value, iso)
  {
    PhaseStepShape(s, step, iso);
    PhaseKeepsHost(s, step.t, Apply(s, step, iso).value.txns[step.t].phase, iso);
  }

  /** Such a step moves one transaction to its next phase and changes nothing else. */
  lemma PhaseStepShape(s: Db, step: Step, iso: Isolation)
    requires Apply(s, step, iso).Some?
    requires step.ReadUser? || step.ReadRows? || step.CheckHost? || step.Audit?
    ensures var s' := Apply(s, step, iso).value;
      && Renting(s, step.t) && Renting(s', step.t)
      && var phase := s'.txns[step.t].phase;
         && s' == WithPhase(s, step.t, phase)
         && (phase.Written? || phase.Audited? ==> s.txns[step.t].phase == Written(phase.write))
  {
    if step.ReadRows? {
      ReadRowsShape(s, step.t);
    } else if step.CheckHost? {
      CheckHostShape(s, step.t);
    }
  }

  lemma ReadRowsShape(s: Db, t: nat)
    requires Renting(s, t) && s.txns[t].phase.UserRead? && StepReadRows(s, t).Some?
    ensures var s' := StepReadRows(s, t).value;
      Renting(s', t) && s'.txns[t].phase.RowsRead? && s' == WithPhase(s, t, s'.txns[t].phase)
  {
  }

  lemma CheckHostShape(s: Db, t: nat)
    requires Renting(s, t) && s.txns[t].phase.RowsRead? && StepCheckHost(s, t).Some?
    ensures var s' := StepCheckHost(s, t).value;
      Renting(s', t) && s'.txns[t].phase.Ready? && s' == WithPhase(s, t, s'.txns[t].phase)
  {
  }

  lemma StepKeepsHost(s: Db, step: Step, iso: Isolation)
    requires HostInv(s, iso) && Apply(s, step, iso).Some?
    ensures HostInv(Apply(s, step, iso).value, iso)
  {
    match step
    case Begin(t, owner, request) => NewTxnKeepsHost(s, t, Rent(owner, request, Begun), iso);
    case Lock(t) =>
      PhaseKeepsHost(s, t, LockTaken, iso);
      FrameKeepsHost(WithPhase(s, t, LockTaken), Apply(s, step, iso).value, iso);
    case ReadUser(_) => PhaseStepsKeepHost(s, step, iso);
    case ReadRows(_) => PhaseStepsKeepHost(s, step, iso);
    case CheckHost(_) => PhaseStepsKeepHost(s, step, iso);
    case DoWrite(t) => WriteKeepsHost(s, t, iso);
    case Audit(_) => PhaseStepsKeepHost(s, step, iso);
    case Commit(t) => CommitKeepsHost(s, t, iso);
    case Abort(t) => AbortKeepsHost(s, t, iso);
    case BeginClaim(t, hostname, id, actor) =>
      NewTxnKeepsHost(s, t, Claim(hostname, id, actor, Snapshot(Hosts(s.rows))), iso);
    case GuardClaim(t) => GuardClaimKeepsHost(s, t, iso);
    case WriteClaim(t) => StageKeepsHost(s, t, DomainWritten, iso);
    case AuditClaim(t) => StageKeepsHost(s, t, DomainAudited, iso);
    case CommitClaim(t) => CommitClaimKeepsHost(s, t, iso);
    case ChangeAccount(_, _) => FrameKeepsHost(s, Apply(s, step, iso).value, iso);
    case SignUp(_, _) => FrameKeepsHost(s, Apply(s, step, iso).value, iso);
  }

  lemma {:induction false} RunKeepsInv(s: Db, steps: seq<Step>, iso: Isolation)
    requires Initial(s) && Run(s, steps, iso).Some?
    ensures OwnerInv(Run(s, steps, iso).value) && HostInv(Run(s, steps, iso).value, iso)
  {
    if steps != [] {
      var init := steps[..|steps| - 1];
      RunKeepsInv(s, init, iso);
      var mid := Run(s, init, iso).value;
      StepKeepsOwner(mid, steps[|steps| - 1], iso);
      StepKeepsHost(mid, steps[|steps| - 1], iso);
    }
  }

  // ---------------------------------------------------------------- main results

  /** Under every interleaving, a committed insertion leaves its owner at or below the limit of
      the account type in force at that commit. */
  lemma InsertCommitsWithinQuota(s: Db, steps: seq<Step>, iso: Isolation, t: nat)
    requires Initial(s) && Run(s, steps, iso).Some?
    requires var mid := Run(s, steps, iso).value;
      Apply(mid, Commit(t), iso).Some? && mid.txns[t].request.Insertion?
    ensures var mid := Run(s, steps, iso).value;
      var after, owner := Apply(mid, Commit(t), iso).value, mid.txns[t].owner;
      && owner in after.users
      && after.rows == mid.rows[mid.txns[t].request.row.id := mid.txns[t].request.row]
      && mid.txns[t].request.row.id !in mid.rows && mid.txns[t].request.row.owner == owner
      && |set id | id in after.rows && after.rows[id].owner == owner|
         <= if after.users[owner].accountType == "CLUB_MEMBER" then 5 else 2
  {
    RunKeepsInv(s, steps, iso);
    var mid := Run(s, steps, iso).value;
    CommittedInsert(mid, t, iso);
    var after, owner := Apply(mid, Commit(t), iso).value, mid.txns[t].owner;
    assert OwnedIds(after.rows, owner) == set id | id in after.rows && after.rows[id].owner == owner;
  }

  lemma CommittedInsert(s: Db, t: nat, iso: Isolation)
    requires OwnerInv(s) && Apply(s, Commit(t), iso).Some? && s.txns[t].request.Insertion?
    ensures var after, owner := Apply(s, Commit(t), iso).value, s.txns[t].owner;
      && owner in after.users && s.txns[t].request.row.id in after.rows
      && |OwnedIds(after.rows, owner)| <= Limit(after.users[owner].accountType)
  {
    var x := s.txns[t];
    assert OwnerOk(s, t, x.owner, x.request, x.phase);
    var r := x.request.row;
    assert OwnedIds(s.rows[r.id := r], x.owner) == OwnedIds(s.rows, x.owner) + {r.id};
  }

  /** A revision that passed its own version check still meets the version predicate at the
      write, and when it commits it replaces exactly the row it checked: no update is lost. */
  lemma RevisionNeverConflicts(s: Db, steps: seq<Step>, iso: Isolation, t: nat)
    requires Initial(s) && Run(s, steps, iso).Some?
    requires Renting(Run(s, steps, iso).value, t) && Run(s, steps, iso).value.txns[t].request.Revision?
    ensures var mid := Run(s, steps, iso).value;
      var request, phase := mid.txns[t].request, mid.txns[t].phase;
      && (phase.Ready? ==> phase.write.Replace? && VersionPredicate(mid, phase.write.row))
      && (phase.Audited? ==>
            var after := Apply(mid, Commit(t), iso).value;
            && request.id in mid.rows && mid.rows[request.id].version == request.version
            && mid.rows[request.id].owner == mid.txns[t].owner
            && var was := mid.rows[request.id];
               after.rows == mid.rows[request.id := Rental(was.id, was.owner,
                 if request.hostname.Some? then request.hostname.value else was.hostname,
                 if request.targetUrl.Some? then request.targetUrl.value else was.targetUrl,
                 if request.enabled.Some? then request.enabled.value else was.enabled,
                 was.version + 1, was.createdAt, request.now)])
  {
    RunKeepsInv(s, steps, iso);
    var mid := Run(s, steps, iso).value;
    var x := mid.txns[t];
    assert OwnerOk(mid, t, x.owner, x.request, x.phase);
  }

  /** A removal that passed its version check finds its row at the write and at the commit. */
  lemma RemovalNeverMisses(s: Db, steps: seq<Step>, iso: Isolation, t: nat)
    requires Initial(s) && Run(s, steps, iso).Some?
    requires Renting(Run(s, steps, iso).value, t) && Run(s, steps, iso).value.txns[t].request.Removal?
    ensures var mid := Run(s, steps, iso).value;
      var request, phase := mid.txns[t].request, mid.txns[t].phase;
      && (phase.Ready? ==> WriteAdmitted(mid, t, phase.write))
      && (phase.Audited? ==>
            && request.id in mid.rows && mid.rows[request.id].version == request.version
            && mid.rows[request.id].owner == mid.txns[t].owner
            && Apply(mid, Commit(t), iso).value.rows == mid.rows - {request.id})
  {
    RunKeepsInv(s, steps, iso);
    var mid := Run(s, steps, iso).value;
    var x := mid.txns[t];
    assert OwnerOk(mid, t, x.owner, x.request, x.phase);
  }

  /** Rental host names are unique in every reachable state, whatever the isolation level. */
  lemma HostsStayUnique(s: Db, steps: seq<Step>, iso: Isolation, i: string, j: string)
    requires Initial(s) && Run(s, steps, iso).Some?
    requires var rows := Run(s, steps, iso).value.rows; i in rows && j in rows && i != j
    ensures var rows := Run(s, steps, iso).value.rows; rows[i].hostname != rows[j].hostname
  {
    RunKeepsInv(s, steps, iso);
  }

  ghost predicate AlwaysDisjoint(iso: Isolation) {
    forall s, steps :: Initial(s) && Run(s, steps, iso).Some? ==> Disjoint(Run(s, steps, iso).value)
  }

  /** Rentals and custom domains never claim the same host name exactly when the custom-domain
      transaction's trigger reads what is committed at that moment. The registration in
      persistence.ts opens a Serializable transaction, which reads its opening snapshot. */
  lemma DisjointIffFreshReads(iso: Isolation)
    ensures AlwaysDisjoint(iso) <==> iso.freshReads
  {
    if iso.freshReads {
      forall s, steps | Initial(s) && Run(s, steps, iso).Some? ensures Disjoint(Run(s, steps, iso).value) {
        RunKeepsInv(s, steps, iso);
      }
    } else {
      var s, steps := SnapshotMissesRental(iso);
      assert Initial(s) && !Disjoint(Run(s, steps, iso).value);
    }
  }

  // ---------------------------------------------------------------- which schedules stay disjoint

  /** The host name a custom-domain transaction claims is not rented at this moment. */
  predicate ClearClaim(s: Db, t: nat) {
    t in s.txns && s.txns[t].Claim? ==> s.txns[t].hostname !in Hosts(s.rows)
  }

  /** In the state before step `i`, the trigger of a custom domain does not pass over a committed
      rental. */
  ghost predicate ClearWriteAt(s: Db, steps: seq<Step>, i: nat, iso: Isolation)
    requires i < |steps|
  {
    steps[i].GuardClaim? && Run(s, steps[..i], iso).Some? ==> ClearClaim(Run(s, steps[..i], iso).value, steps[i].t)
  }

  /** The same at the commit. */
  ghost predicate ClearCommitAt(s: Db, steps: seq<Step>, i: nat, iso: Isolation)
    requires i < |steps|
  {
    steps[i].CommitClaim? && Run(s, steps[..i], iso).Some? ==> ClearClaim(Run(s, steps[..i], iso).value, steps[i].t)
  }

  /** A schedule whose custom-domain writes are all clear runs as if reads were fresh. */
  lemma {:induction false} ClearWritesActFresh(s: Db, steps: seq<Step>, iso: Isolation)
    requires Run(s, steps, iso).Some?
    requires forall i :: 0 <= i < |steps| ==> ClearWriteAt(s, steps, i, iso)
    ensures Run(s, steps, Isolation(true)) == Run(s, steps, iso)
  {
    if steps != [] {
      var init, last := steps[..|steps| - 1], steps[|steps| - 1];
      forall i | 0 <= i < |init| ensures ClearWriteAt(s, init, i, iso) {
        assert init[..i] == steps[..i];
        assert ClearWriteAt(s, steps, i, iso);
      }
      ClearWritesActFresh(s, init, iso);
      assert ClearWriteAt(s, steps, |steps| - 1, iso);
    }
  }

  /** At every isolation level, also the Serializable one the registration uses: if no trigger of a
      custom domain runs while a rental of its host name is committed, the tables stay disjoint. */
  lemma ClearWritesStayDisjoint(s: Db, steps: seq<Step>, iso: Isolation)
    requires Initial(s) && Run(s, steps, iso).Some?
    requires forall i :: 0 <= i < |steps| ==> ClearWriteAt(s, steps, i, iso)
    ensures Disjoint(Run(s, steps, iso).value)
  {
    ClearWritesActFresh(s, steps, iso);
    RunKeepsInv(s, steps, Isolation(true));
  }

  /** Only the commit of a custom domain can end disjointness, and it does exactly when a rental of
      the host name is committed. */
  lemma StepDisjointIff(s: Db, step: Step, iso: Isolation)
    requires HostInv(s, iso) && Disjoint(s) && Apply(s, step, iso).Some?
    ensures Disjoint(Apply(s, step, iso).value) <==> (step.CommitClaim? ==> ClearClaim(s, step.t))
  {
    if step.Commit? {
      CommitStaysDisjoint(s, step.t, iso);
    } else if step.CommitClaim? {
      CommitClaimDisjointIff(s, step.t, iso);
    } else {
      OtherStepsKeepTables(s, step, iso);
    }
  }

  lemma OtherStepsKeepTables(s: Db, step: Step, iso: Isolation)
    requires Apply(s, step, iso).Some? && !step.Commit? && !step.CommitClaim?
    ensures var s' := Apply(s, step, iso).value; s'.rows == s.rows && s'.domains == s.domains
  {
  }

  lemma CommitStaysDisjoint(s: Db, t: nat, iso: Isolation)
    requires HostInv(s, iso) && Disjoint(s) && Apply(s, Commit(t), iso).Some?
    ensures Disjoint(Apply(s, Commit(t), iso).value)
  {
    assert HostOk(s, t, s.txns[t], iso);
    WriteKeepsUnique(s, s.txns[t].phase.write);
  }

  lemma CommitClaimDisjointIff(s: Db, t: nat, iso: Isolation)
    requires Disjoint(s) && Apply(s, CommitClaim(t), iso).Some?
    ensures Disjoint(Apply(s, CommitClaim(t), iso).value) <==> ClearClaim(s, t)
  {
    var s' := Apply(s, CommitClaim(t), iso).value;
    assert forall id :: id in s.rows ==> s.rows[id].hostname in Hosts(s.rows);
    if !ClearClaim(s, t) {
      var id :| id in s.rows && s.rows[id].hostname == s.txns[t].hostname;
      assert s'.rows[id].hostname in s'.domains;
    }
  }

  lemma {:induction false} PrefixRuns(s: Db, steps: seq<Step>, iso: Isolation, i: nat)
    requires Run(s, steps, iso).Some? && i <= |steps|
    ensures Run(s, steps[..i], iso).Some?
  {
    if i == |steps| {
      assert steps[..i] == steps;
    } else {
      PrefixRuns(s, steps[..|steps| - 1], iso, i);
      assert steps[..|steps| - 1][..i] == steps[..i];
    }
  }

  ghost predicate DisjointAt(s: Db, steps: seq<Step>, i: nat, iso: Isolation)
    requires i <= |steps|
  {
    Run(s, steps[..i], iso).Some? && Disjoint(Run(s, steps[..i], iso).value)
  }

  lemma DisjointStep(s: Db, steps: seq<Step>, iso: Isolation, i: nat)
    requires Initial(s) && Run(s, steps, iso).Some? && i < |steps| && DisjointAt(s, steps, i, iso)
    ensures DisjointAt(s, steps, i + 1, iso) <==> ClearCommitAt(s, steps, i, iso)
  {
    PrefixRuns(s, steps, iso, i + 1);
    assert steps[..i + 1][..i] == steps[..i];
    RunKeepsInv(s, steps[..i], iso);
    StepDisjointIff(Run(s, steps[..i], iso).value, steps[i], iso);
  }

  /** The schedules under which rentals and custom domains are disjoint all the time, at every
      isolation level: those that commit no custom domain while a rental of its host name is
      committed. */
  lemma DisjointThroughoutIff(s: Db, steps: seq<Step>, iso: Isolation)
    requires Initial(s) && Run(s, steps, iso).Some?
    ensures (forall i :: 0 <= i <= |steps| ==> DisjointAt(s, steps, i, iso))
       <==> (forall i :: 0 <= i < |steps| ==> ClearCommitAt(s, steps, i, iso))
  {
    if forall i :: 0 <= i < |steps| ==> ClearCommitAt(s, steps, i, iso) {
      forall i | 0 <= i <= |steps| ensures DisjointAt(s, steps, i, iso) {
        DisjointUpTo(s, steps, iso, i);
      }
    }
    if forall i :: 0 <= i <= |steps| ==> DisjointAt(s, steps, i, iso) {
      forall i | 0 <= i < |steps| ensures ClearCommitAt(s, steps, i, iso) {
        assert DisjointAt(s, steps, i + 1, iso);
        DisjointStep(s, steps, iso, i);
      }
    }
  }

  lemma {:induction false} DisjointUpTo(s: Db, steps: seq<Step>, iso: Isolation, i: nat)
    requires Initial(s) && Run(s, steps, iso).Some? && i <= |steps|
    requires forall k :: 0 <= k < |steps| ==> ClearCommitAt(s, steps, k, iso)
    ensures DisjointAt(s, steps, i, iso)
  {
    if i == 0 {
      assert steps[..0] == [];
    } else {
      DisjointUpTo(s, steps, iso, i - 1);
      DisjointStep(s, steps, iso, i - 1);
    }
  }

  // ---------------------------------------------------------------- the failing schedule

  lemma {:induction false} RunExtends(s: Db, steps: seq<Step>, more: seq<Step>, iso: Isolation)
    requires Run(s, steps, iso).Some?
    ensures Run(s, steps + more, iso) == Run(Run(s, steps, iso).value, more, iso)
  {
    if more == [] {
      assert steps + more == steps;
    } else {
      var init := more[..|more| - 1];
      RunExtends(s, steps, init, iso);
      assert (steps + more)[..|steps + more| - 1] == steps + init;
    }
  }

  function RentalSteps(t: nat, owner: string, r: Rental): seq<Step> {
    [Begin(t, owner, Insertion(r)), Lock(t), ReadUser(t), ReadRows(t), CheckHost(t), DoWrite(t), Audit(t), Commit(t)]
  }

  function OpenClaim(r: Rental): Step {
    BeginClaim(1, r.hostname, "dom", Some(r.owner))
  }

  function ClaimSteps(t: nat): seq<Step> {
    [GuardClaim(t), WriteClaim(t)] + [AuditClaim(t), CommitClaim(t)]
  }

  /** The failing schedule: a custom-domain transaction opens, a rental of the same host name is
      created and commits, then the domain is written against the old snapshot. */
  lemma SnapshotMissesRental(iso: Isolation) returns (s: Db, steps: seq<Step>)
    requires !iso.freshReads
    ensures Initial(s) && Run(s, steps, iso).Some? && !Disjoint(Run(s, steps, iso).value)
  {
    var r := Rental("r1", "u1", "mine.raibit.kr", "https://example.com/", true, 1, "t", "t");
    s := Db(map["u1" := Account("NON_CLUB", true)], map[], {}, {}, map[], map[], map[]);
    steps := [OpenClaim(r)] + RentalSteps(0, r.owner, r) + ClaimSteps(1);
    ClaimAroundRental(s, r, iso);
  }

  lemma ClaimAroundRental(s: Db, r: Rental, iso: Isolation)
    requires !iso.freshReads && Initial(s) && s.rows == map[] && s.domains == {} && s.domainIds == {}
    requires r.owner in s.users && s.users[r.owner].allowed
    ensures var end := Run(s, [OpenClaim(r)] + RentalSteps(0, r.owner, r) + ClaimSteps(1), iso);
      end.Some? && !Disjoint(end.value)
  {
    var waiting := Claiming(s, r, Snapshot({}));
    assert Hosts(s.rows) == {};
    OneStep(s, OpenClaim(r), iso);
    var rented := waiting.(rows := map[r.id := r]);
    AloneRentalCommits(waiting, r, iso);
    RunExtends(s, [OpenClaim(r)], RentalSteps(0, r.owner, r), iso);
    ClaimWritesOldSnapshot(rented, r, iso);
    RunExtends(s, [OpenClaim(r)] + RentalSteps(0, r.owner, r), ClaimSteps(1), iso);
  }

  /** A custom-domain transaction of the rental's host name and owner, alone in a given stage. */
  function Claiming(s: Db, r: Rental, stage: DomainPhase): Db {
    s.(txns := map[1 := Claim(r.hostname, "dom", Some(r.owner), stage)])
  }

  lemma ClaimWritesOldSnapshot(s: Db, r: Rental, iso: Isolation)
    requires !iso.freshReads && s.hostLocks == map[] && s.userLocks == map[] && s.domains == {} && s.domainIds == {}
    requires s == Claiming(s, r, Snapshot({})) && r.owner in s.users
    requires r.id in s.rows && s.rows[r.id] == r
    ensures var end := Run(s, ClaimSteps(1), iso);
      end.Some? && r.id in end.value.rows && end.value.rows[r.id].hostname in end.value.domains
  {
    ClaimWrites(s, r, iso);
    ClaimCommits(Claiming(s, r, DomainWritten).(hostLocks := map[r.hostname := 1]), r, iso);
    RunExtends(s, [GuardClaim(1), WriteClaim(1)], [AuditClaim(1), CommitClaim(1)], iso);
  }

  lemma ClaimWrites(s: Db, r: Rental, iso: Isolation)
    requires !iso.freshReads || r.hostname !in Hosts(s.rows)
    requires s.hostLocks == map[] && s.domains == {} && s.domainIds == {} && s == Claiming(s, r, Snapshot({}))
    ensures Run(s, [GuardClaim(1), WriteClaim(1)], iso)
         == Some(Claiming(s, r, DomainWritten).(hostLocks := map[r.hostname := 1]))
  {
    var mid := Claiming(s, r, HostLocked).(hostLocks := map[r.hostname := 1]);
    assert WithStage(s, 1, HostLocked).txns == mid.txns && s.hostLocks[r.hostname := 1] == mid.hostLocks;
    assert WithStage(mid, 1, DomainWritten).txns == Claiming(s, r, DomainWritten).txns;
    TwoSteps(s, GuardClaim(1), WriteClaim(1), iso);
  }

  lemma ClaimCommits(s: Db, r: Rental, iso: Isolation)
    requires s.userLocks == map[] && s == Claiming(s, r, DomainWritten) && r.owner in s.users
    ensures var end := Run(s, [AuditClaim(1), CommitClaim(1)], iso);
      end.Some? && end.value.rows == s.rows && end.value.domains == s.domains + {r.hostname}
  {
    var mid := Claiming(s, r, DomainAudited);
    assert WithStage(s, 1, DomainAudited).txns == mid.txns;
    TwoSteps(s, AuditClaim(1), CommitClaim(1), iso);
  }

  lemma OneStep(s: Db, a: Step, iso: Isolation)
    ensures Run(s, [a], iso) == Apply(s, a, iso)
  {
    assert [a][..0] == [];
  }

  lemma TwoSteps(s: Db, a: Step, b: Step, iso: Isolation)
    requires Apply(s, a, iso).Some?
    ensures Run(s, [a, b], iso) == Apply(Apply(s, a, iso).value, b, iso)
  {
    OneStep(s, a, iso);
    assert [a, b][..1] == [a];
  }

  /** The transaction of an insertion, alone on its owner, in a given phase. */
  function Alone(s: Db, r: Rental, phase: Phase): Db {
    s.(txns := s.txns[0 := Rent(r.owner, Insertion(r), phase)], userLocks := map[r.owner := 0])
  }

  /** Nothing keeps the insertion from being ready to write. */
  ghost predicate Unopposed(s: Db, r: Rental) {
    && s.rows == map[] && s.domains == {} && s.userLocks == map[]
    && r.owner in s.users && s.users[r.owner].allowed && 0 !in s.txns
    && forall t :: t in s.txns ==> s.txns[t].Claim? && !s.txns[t].stage.DomainAudited?
  }

  ghost predicate Unobstructed(s: Db, r: Rental) {
    Unopposed(s, r) && s.hostLocks == map[]
  }

  lemma AloneOpens(s: Db, r: Rental, iso: Isolation)
    requires Unopposed(s, r)
    ensures Run(s, [Begin(0, r.owner, Insertion(r)), Lock(0)], iso) == Some(Alone(s, r, LockTaken))
  {
    TwoSteps(s, Begin(0, r.owner, Insertion(r)), Lock(0), iso);
    var s1 := s.(txns := s.txns[0 := Rent(r.owner, Insertion(r), Begun)]);
    assert WithPhase(s1, 0, LockTaken).txns == Alone(s, r, LockTaken).txns;
  }

  lemma AloneReads(s: Db, r: Rental, iso: Isolation)
    requires Unopposed(s, r)
    ensures Run(Alone(s, r, LockTaken), [ReadUser(0), ReadRows(0)], iso)
         == Some(Alone(s, r, RowsRead(s.users[r.owner], None)))
  {
    var user := s.users[r.owner];
    var a := Alone(s, r, LockTaken);
    assert OwnedIds(a.rows, r.owner) == {};
    assert WithPhase(a, 0, UserRead(user)).txns == Alone(s, r, UserRead(user)).txns;
    assert WithPhase(Alone(s, r, UserRead(user)), 0, RowsRead(user, None)).txns
           == Alone(s, r, RowsRead(user, None)).txns;
    TwoSteps(a, ReadUser(0), ReadRows(0), iso);
  }

  lemma AloneWrites(s: Db, r: Rental, iso: Isolation)
    requires Unobstructed(s, r)
    ensures Run(Alone(s, r, RowsRead(s.users[r.owner], None)), [CheckHost(0), DoWrite(0)], iso)
         == Some(Alone(s, r, Written(Insert(r))).(hostLocks := map[r.hostname := 0]))
  {
    var a := Alone(s, r, RowsRead(s.users[r.owner], None));
    assert Hosts(a.rows) == {};
    assert WithPhase(a, 0, Ready(Insert(r))).txns == Alone(s, r, Ready(Insert(r))).txns;
    assert WithPhase(Alone(s, r, Ready(Insert(r))), 0, Written(Insert(r))).txns == Alone(s, r, Written(Insert(r))).txns;
    TwoSteps(a, CheckHost(0), DoWrite(0), iso);
  }

  lemma AloneCommits(s: Db, r: Rental, iso: Isolation)
    requires Unobstructed(s, r)
    ensures Run(Alone(s, r, Written(Insert(r))).(hostLocks := map[r.hostname := 0]), [Audit(0), Commit(0)], iso)
         == Some(s.(rows := map[r.id := r]))
  {
    var a := Alone(s, r, Written(Insert(r))).(hostLocks := map[r.hostname := 0]);
    var b := WithPhase(a, 0, Audited(Insert(r)));
    TwoSteps(a, Audit(0), Commit(0), iso);
    var end := Finish(b, 0).(rows := ApplyWrite(b.rows, Insert(r)));
    assert end.txns == s.txns && end.userLocks == s.userLocks && end.hostLocks == s.hostLocks;
  }

  /** With nobody in the way, the eight steps of an admitted insertion commit its row. */
  lemma AloneRentalCommits(s: Db, r: Rental, iso: Isolation)
    requires Unobstructed(s, r)
    ensures Run(s, RentalSteps(0, r.owner, r), iso) == Some(s.(rows := map[r.id := r]))
  {
    var opening, closing := [Begin(0, r.owner, Insertion(r)), Lock(0)] + [ReadUser(0), ReadRows(0)],
                            [CheckHost(0), DoWrite(0)] + [Audit(0), Commit(0)];
    AloneOpening(s, r, iso);
    AloneClosing(s, r, iso);
    RunExtends(s, opening, closing, iso);
    assert RentalSteps(0, r.owner, r) == opening + closing;
  }

  lemma AloneOpening(s: Db, r: Rental, iso: Isolation)
    requires Unopposed(s, r)
    ensures Run(s, [Begin(0, r.owner, Insertion(r)), Lock(0)] + [ReadUser(0), ReadRows(0)], iso)
         == Some(Alone(s, r, RowsRead(s.users[r.owner], None)))
  {
    AloneOpens(s, r, iso);
    AloneReads(s, r, iso);
    RunExtends(s, [Begin(0, r.owner, Insertion(r)), Lock(0)], [ReadUser(0), ReadRows(0)], iso);
  }

  lemma AloneClosing(s: Db, r: Rental, iso: Isolation)
    requires Unobstructed(s, r)
    ensures Run(Alone(s, r, RowsRead(s.users[r.owner], None)), [CheckHost(0), DoWrite(0)] + [Audit(0), Commit(0)], iso)
         == Some(s.(rows := map[r.id := r]))
  {
    AloneWrites(s, r, iso);
    AloneCommits(s, r, iso);
    RunExtends(Alone(s, r, RowsRead(s.users[r.owner], None)), [CheckHost(0), DoWrite(0)], [Audit(0), Commit(0)], iso);
  }
}
