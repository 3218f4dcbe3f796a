/** Which transactions of the PostgreSQL rental and custom-domain adapters wait for each other, when
    waiting leads back, and when everything can end (packages/core/src/domain-rentals-postgres.ts,
    packages/core/src/persistence.ts, prisma/migrations/000001_init/migration.sql,
    prisma/migrations/202609291300_domain_rentals/migration.sql). */
module RentalProgress {
  import opened Text
  import opened RentalRows
  import opened PostgresRentals

  // ---------------------------------------------------------------- waiting

  /** `t` wants what `u` holds: the User row of a rental's owner or of a registration's actor, the
      lock of the host name about to be written, or the id of a record just inserted. */
  predicate WaitsFor(s: Db, t: nat, u: nat) {
    && t in s.txns
    && match s.txns[t]
       case Rent(owner, _, Begun) => owner in s.users && (RowHeld(s, owner, u) || Shares(s, u, owner))
       case Rent(_, _, Ready(w)) => !w.Erase? && HeldByOther(s, t, w.row.hostname, u)
       case Claim(hostname, _, _, Snapshot(_)) => HeldByOther(s, t, hostname, u)
       case Claim(_, id, _, HostLocked) => Inserted(s, u, id)
       case Claim(_, _, Some(actor), DomainWritten) => actor in s.users && RowHeld(s, actor, u)
       case _ => false
  }

  predicate RowHeld(s: Db, owner: string, u: nat) {
    owner in s.userLocks && s.userLocks[owner] == u
  }

  predicate HeldByOther(s: Db, t: nat, hostname: string, u: nat) {
    hostname in s.hostLocks && s.hostLocks[hostname] == u && u != t
  }

  ghost predicate Blocked(s: Db, t: nat) {
    exists u :: WaitsFor(s, t, u)
  }

  /** The step a transaction takes next. */
  function NextStep(s: Db, t: nat): Step
    requires t in s.txns
  {
    match s.txns[t]
    case Rent(_, _, Begun) => Lock(t)
    case Rent(_, _, LockTaken) => ReadUser(t)
    case Rent(_, _, UserRead(_)) => ReadRows(t)
    case Rent(_, _, RowsRead(_, _)) => CheckHost(t)
    case Rent(_, _, Ready(_)) => DoWrite(t)
    case Rent(_, _, Written(_)) => Audit(t)
    case Rent(_, _, Audited(_)) => Commit(t)
    case Claim(_, _, _, Snapshot(_)) => GuardClaim(t)
    case Claim(_, _, _, HostLocked) => WriteClaim(t)
    case Claim(_, _, _, DomainWritten) => AuditClaim(t)
    case Claim(_, _, _, DomainAudited) => CommitClaim(t)
  }

  /** The check that the next step makes fails, for the committed data as it is. */
  predicate Refused(s: Db, t: nat, iso: Isolation)
    requires t in s.txns
  {
    match s.txns[t]
    case Rent(owner, _, LockTaken) => owner !in s.users || !s.users[owner].allowed
    case Rent(owner, request, UserRead(user)) => ReadRefused(s, owner, request, user)
    case Rent(_, request, RowsRead(_, current)) => HostRefused(s, request, current)
    case Rent(_, _, Ready(w)) => WriteRefused(s, w)
    case Claim(hostname, _, _, Snapshot(visible)) => hostname in if iso.freshReads then Hosts(s.rows) else visible
    case Claim(hostname, id, _, HostLocked) => hostname in s.domains || id in s.domainIds
    case Claim(_, _, actor, DomainWritten) => actor.Some? && actor.value !in s.users
    case _ => false
  }

  predicate ReadRefused(s: Db, owner: string, request: Request, user: Account) {
    if request.Insertion? then |OwnedIds(s.rows, owner)| >= Limit(user.accountType)
    else request.id !in s.rows || s.rows[request.id].owner != owner || s.rows[request.id].version != request.version
  }

  predicate HostRefused(s: Db, request: Request, current: Option<Rental>) {
    match request
    case Insertion(r) => r.hostname in Hosts(s.rows) || r.hostname in s.domains
    case Revision(_, _, hostname, _, _, _) =>
      || current.None?
      || (hostname.Some? && hostname.value != current.value.hostname
          && (hostname.value in Hosts(s.rows) || hostname.value in s.domains))
    case Removal(_, _) => current.None?
  }

  predicate WriteRefused(s: Db, w: Write) {
    match w
    case Insert(r) => r.hostname in s.domains || r.hostname in Hosts(s.rows)
    case Replace(r) =>
      || r.hostname in s.domains || !VersionPredicate(s, r)
      || exists id :: id in s.rows && s.rows[id].hostname == r.hostname && id != r.id
    case Erase(r) => r.id !in s.rows
  }

  /** An open transaction can take its next step exactly when it neither waits nor is refused. */
  lemma NextStepEnabledIff(s: Db, t: nat, iso: Isolation)
    requires t in s.txns
    ensures Apply(s, NextStep(s, t), iso).Some? <==> !Blocked(s, t) && !Refused(s, t, iso)
  {
    match s.txns[t]
    case Rent(owner, _, Begun) => LockEnabledIff(s, t, owner);
    case Rent(_, _, Ready(w)) => WriteEnabledIff(s, t, w);
    case Claim(hostname, _, _, Snapshot(_)) =>
      assert hostname in s.hostLocks ==> (WaitsFor(s, t, s.hostLocks[hostname]) <==> s.hostLocks[hostname] != t);
    case Claim(_, id, _, HostLocked) =>
      assert forall u :: u in s.txns ==> (Inserted(s, u, id) <==> WaitsFor(s, t, u));
    case Claim(_, _, Some(actor), DomainWritten) =>
      assert actor in s.userLocks ==> (WaitsFor(s, t, s.userLocks[actor]) <==> actor in s.users);
    case _ =>
  }

  lemma LockEnabledIff(s: Db, t: nat, owner: string)
    requires Renting(s, t) && s.txns[t].phase.Begun? && s.txns[t].owner == owner
    ensures Blocked(s, t)
       <==> owner in s.users && (owner in s.userLocks || exists u :: u in s.txns && Shares(s, u, owner))
  {
    if owner in s.users {
      assert owner in s.userLocks ==> WaitsFor(s, t, s.userLocks[owner]);
      assert forall u :: Shares(s, u, owner) ==> WaitsFor(s, t, u);
    }
  }

  lemma WriteEnabledIff(s: Db, t: nat, w: Write)
    requires Renting(s, t) && s.txns[t].phase == Ready(w)
    ensures WriteAdmitted(s, t, w) <==> !Blocked(s, t) && !WriteRefused(s, w)
  {
    var h := w.row.hostname;
    assert !w.Erase? && h in s.hostLocks ==> (WaitsFor(s, t, s.hostLocks[h]) <==> s.hostLocks[h] != t);
  }

  // ---------------------------------------------------------------- who holds locks

  /** The host name whose lock a transaction holds. */
  function HeldName(x: Txn): Option<string> {
    match x
    case Rent(_, _, phase) =>
      if (phase.Written? || phase.Audited?) && !phase.write.Erase? then Some(phase.write.row.hostname) else None
    case Claim(hostname, _, _, stage) => if stage.Snapshot? then None else Some(hostname)
  }

  /** Only open transactions hold locks: the row lock after the first statement of a rental, the
      host-name lock after its write or after the trigger of a registration. */
  ghost predicate LockInv(s: Db) {
    && (forall o :: o in s.userLocks ==> Owns(s, s.userLocks[o], o))
    && (forall h :: h in s.hostLocks ==> s.hostLocks[h] in s.txns && HeldName(s.txns[s.hostLocks[h]]) == Some(h))
  }

  ghost predicate Owns(s: Db, u: nat, owner: string) {
    Renting(s, u) && s.txns[u].owner == owner && !s.txns[u].phase.Begun?
  }

  /** The transaction is the same one, and no less far. */
  predicate Continues(x: Txn, y: Txn) {
    && (x.Rent? ==> y.Rent? && y.owner == x.owner && (y.phase.Begun? ==> x.phase.Begun?))
    && (HeldName(x).Some? ==> HeldName(y) == HeldName(x))
  }

  lemma FrameKeepsLocks(s: Db, s': Db)
    requires LockInv(s) && s'.userLocks == s.userLocks && s'.hostLocks == s.hostLocks
    requires forall u :: u in s.txns ==> u in s'.txns && Continues(s.txns[u], s'.txns[u])
    ensures LockInv(s')
  {
    forall o | o in s'.userLocks ensures Owns(s', s'.userLocks[o], o) {
      assert Owns(s, s.userLocks[o], o);
    }
  }

  lemma FinishKeepsLocks(s: Db, t: nat)
    requires LockInv(s)
    ensures LockInv(Finish(s, t))
  {
    var s' := Finish(s, t);
    forall o | o in s'.userLocks ensures Owns(s', s'.userLocks[o], o) {
      assert Owns(s, s.userLocks[o], o);
    }
  }

  lemma LockKeepsLocks(s: Db, t: nat, iso: Isolation)
    requires LockInv(s) && Apply(s, Lock(t), iso).Some?
    ensures LockInv(Apply(s, Lock(t), iso).value)
  {
    var s' := Apply(s, Lock(t), iso).value;
    FrameKeepsLocks(s, WithPhase(s, t, LockTaken));
    assert forall h :: h in s'.hostLocks ==> h in s.hostLocks && s'.hostLocks[h] == s.hostLocks[h];
  }

  /** Taking the lock of a host name that is about to be held. */
  lemma HostLockKeepsLocks(s: Db, t: nat, hostname: string)
    requires LockInv(s) && t in s.txns && HeldName(s.txns[t]) == Some(hostname)
    ensures LockInv(s.(hostLocks := s.hostLocks[hostname := t]))
  {
    var s' := s.(hostLocks := s.hostLocks[hostname := t]);
    forall o | o in s'.userLocks ensures Owns(s', s'.userLocks[o], o) {
      assert Owns(s, s.userLocks[o], o);
    }
  }

  lemma WriteKeepsLocks(s: Db, t: nat, iso: Isolation)
    requires LockInv(s) && Apply(s, DoWrite(t), iso).Some?
    ensures LockInv(Apply(s, DoWrite(t), iso).value)
  {
    var w := s.txns[t].phase.write;
    var mid := WithPhase(s, t, Written(w));
    FrameKeepsLocks(s, mid);
    if !w.Erase? {
      HostLockKeepsLocks(mid, t, w.row.hostname);
    }
  }

  lemma GuardClaimKeepsLocks(s: Db, t: nat, iso: Isolation)
    requires LockInv(s) && Apply(s, GuardClaim(t), iso).Some?
    ensures LockInv(Apply(s, GuardClaim(t), iso).value)
  {
    var mid := WithStage(s, t, HostLocked);
    FrameKeepsLocks(s, mid);
    HostLockKeepsLocks(mid, t, s.txns[t].hostname);
  }

  lemma PhaseStepsKeepLocks(s: Db, step: Step, iso: Isolation)
    requires LockInv(s) && Apply(s, step, iso).Some?
    requires step.ReadUser? || step.ReadRows? || step.CheckHost? || step.Audit?
    ensures LockInv(Apply(s, step, iso).value)
  {
    PhaseStepShape(s, step, iso);
    FrameKeepsLocks(s, Apply(s, step, iso).value);
  }

  lemma StepKeepsLocks(s: Db, step: Step, iso: Isolation)
    requires LockInv(s) && Apply(s, step, iso).Some?
    ensures LockInv(Apply(s, step, iso).value)
  {
    var s' := Apply(s, step, iso).value;
    match step
    case Begin(_, _, _) => FrameKeepsLocks(s, s');
    case Lock(t) => LockKeepsLocks(s, t, iso);
    case ReadUser(_) => PhaseStepsKeepLocks(s, step, iso);
    case ReadRows(_) => PhaseStepsKeepLocks(s, step, iso);
    case CheckHost(_) => PhaseStepsKeepLocks(s, step, iso);
    case DoWrite(t) => WriteKeepsLocks(s, t, iso);
    case Audit(_) => PhaseStepsKeepLocks(s, step, iso);
    case Commit(t) => FinishKeepsLocks(s, t);
    case Abort(t) => FinishKeepsLocks(s, t);
    case BeginClaim(_, _, _, _) => FrameKeepsLocks(s, s');
    case GuardClaim(t) => GuardClaimKeepsLocks(s, t, iso);
    case WriteClaim(_) => FrameKeepsLocks(s, s');
    case AuditClaim(_) => FrameKeepsLocks(s, s');
    case CommitClaim(t) => FinishKeepsLocks(s, t);
    case ChangeAccount(_, _) => FrameKeepsLocks(s, s');
    case SignUp(_, _) => FrameKeepsLocks(s, s');
  }

  /** All that is known of every reachable state. */
  ghost predicate Sound(s: Db, iso: Isolation) {
    OwnerInv(s) && HostInv(s, iso) && LockInv(s)
  }

  lemma StepKeepsSound(s: Db, step: Step, iso: Isolation)
    requires Sound(s, iso) && Apply(s, step, iso).Some?
    ensures Sound(Apply(s, step, iso).value, iso)
  {
    StepKeepsOwner(s, step, iso);
    StepKeepsHost(s, step, iso);
    StepKeepsLocks(s, step, iso);
  }

  lemma {:induction false} ReachedIsSound(s: Db, steps: seq<Step>, iso: Isolation)
    requires Initial(s) && Run(s, steps, iso).Some?
    ensures Sound(Run(s, steps, iso).value, iso)
  {
    if steps != [] {
      ReachedIsSound(s, steps[..|steps| - 1], iso);
      StepKeepsSound(Run(s, steps[..|steps| - 1], iso).value, steps[|steps| - 1], iso);
    }
  }

  // ---------------------------------------------------------------- when waiting leads back

  /** A chain of transactions, each waiting for the next. */
  ghost predicate WaitChain(s: Db, chain: seq<nat>) {
    forall i :: 0 <= i < |chain| - 1 ==> WaitsFor(s, chain[i], chain[i + 1])
  }

  ghost predicate Cycle(s: Db, chain: seq<nat>) {
    |chain| >= 2 && WaitChain(s, chain) && chain[0] == chain[|chain| - 1]
  }

  /** A registration with its record inserted and its audit entry still to come. */
  predicate Unaudited(s: Db, t: nat) {
    t in s.txns && s.txns[t].Claim? && s.txns[t].stage.DomainWritten?
  }

  /** One round of a knot: a registration, a rental, and the registration whose host name the rental
      wants. */
  datatype Round = Round(claim: nat, rental: nat, door: nat)

  /** The unaudited registration's actor owns a rental that is ready to write a host name; that host
      name is the one of the next unaudited registration, or of one that is about to insert a record
      with the next one's id. */
  predicate Tied(s: Db, round: Round, next: nat) {
    && Unaudited(s, round.claim) && Unaudited(s, next) && Renting(s, round.rental) && round.door in s.txns
    && var r, d := s.txns[round.rental], s.txns[round.door];
       && s.txns[round.claim].actor == Some(r.owner)
       && r.phase.Ready? && !r.phase.write.Erase?
       && d.Claim? && d.hostname == r.phase.write.row.hostname
       && (round.door == next || (d.stage.HostLocked? && d.id == s.txns[next].id))
  }

  predicate Path(s: Db, rounds: seq<Round>, end: nat) {
    rounds != [] ==>
      Tied(s, rounds[0], if |rounds| == 1 then end else rounds[1].claim) && Path(s, rounds[1..], end)
  }

  predicate Knot(s: Db, rounds: seq<Round>) {
    rounds != [] && Path(s, rounds, rounds[0].claim)
  }

  /** What the transactions of a knot have done makes them wait for each other. */
  lemma TiedWaits(s: Db, round: Round, next: nat, iso: Isolation)
    requires Sound(s, iso) && Tied(s, round, next)
    ensures WaitsFor(s, round.claim, round.rental) && WaitsFor(s, round.rental, round.door)
    ensures round.door == next || WaitsFor(s, round.door, next)
  {
    var r := s.txns[round.rental];
    assert OwnerOk(s, round.rental, r.owner, r.request, r.phase);
    assert HostOk(s, round.door, s.txns[round.door], iso);
  }

  lemma ChainCons(s: Db, t: nat, chain: seq<nat>)
    requires chain != [] && WaitsFor(s, t, chain[0]) && WaitChain(s, chain)
    ensures WaitChain(s, [t] + chain)
  {
    var longer := [t] + chain;
    forall i | 0 <= i < |longer| - 1 ensures WaitsFor(s, longer[i], longer[i + 1]) {
      if i > 0 {
        assert WaitsFor(s, chain[i - 1], chain[i - 1 + 1]);
      }
    }
  }

  lemma {:induction false} PathWaits(s: Db, rounds: seq<Round>, end: nat, iso: Isolation) returns (chain: seq<nat>)
    requires Sound(s, iso) && Path(s, rounds, end)
    ensures WaitChain(s, chain) && |chain| > |rounds| && chain[|chain| - 1] == end
    ensures chain[0] == if rounds == [] then end else rounds[0].claim
  {
    if rounds == [] {
      chain := [end];
    } else {
      var next := if |rounds| == 1 then end else rounds[1].claim;
      var rest := PathWaits(s, rounds[1..], end, iso);
      TiedWaits(s, rounds[0], next, iso);
      if rounds[0].door != next {
        ChainCons(s, rounds[0].door, rest);
        rest := [rounds[0].door] + rest;
      }
      ChainCons(s, rounds[0].rental, rest);
      rest := [rounds[0].rental] + rest;
      ChainCons(s, rounds[0].claim, rest);
      chain := [rounds[0].claim] + rest;
    }
  }

  /** Whoever waits while another waits for it is a ready rental, or a registration with its host name
      locked and no audit entry; and who comes next follows from which. */
  lemma Between(s: Db, t: nat, u: nat, v: nat)
    requires LockInv(s) && WaitsFor(s, t, u) && WaitsFor(s, u, v)
    ensures Turn(s, u) <= 2
    ensures Turn(s, u) == 0 ==> Unaudited(s, u) && Owns(s, v, s.txns[u].actor.value)
    ensures Turn(s, u) == 1 ==> Inserted(s, v, s.txns[u].id)
    ensures Turn(s, u) == 2 ==> v in s.txns && HeldName(s.txns[v]) == Some(s.txns[u].phase.write.row.hostname)
  {
  }

  /** 0 for an unaudited registration, 1 for one about to insert its record, 2 for a ready rental. */
  function Turn(s: Db, u: nat): nat {
    if u !in s.txns then 3
    else match s.txns[u]
      case Claim(_, _, Some(_), DomainWritten) => 0
      case Claim(_, _, _, HostLocked) => 1
      case Rent(_, _, Ready(w)) => if w.Erase? then 3 else 2
      case _ => 3
  }

  /** After an unaudited registration comes a rental of its actor, then the holder of the rental's host
      name, and soon another unaudited registration. */
  lemma {:induction false} Unwind(s: Db, chain: seq<nat>) returns (rounds: seq<Round>)
    requires LockInv(s) && chain != [] && WaitChain(s, chain)
    requires Unaudited(s, chain[0]) && Unaudited(s, chain[|chain| - 1])
    ensures Path(s, rounds, chain[|chain| - 1])
    ensures rounds == [] <==> |chain| == 1
    ensures rounds != [] ==> rounds[0].claim == chain[0]
    decreases |chain|
  {
    if |chain| == 1 {
      rounds := [];
    } else {
      var k := NextUnaudited(s, chain);
      var rest := chain[k..];
      ChainTail(s, chain, k);
      var more := Unwind(s, rest);
      rounds := [Round(chain[0], chain[1], chain[2])] + more;
      assert rounds[1..] == more;
    }
  }

  lemma ChainTail(s: Db, chain: seq<nat>, k: nat)
    requires k < |chain| && WaitChain(s, chain)
    ensures WaitChain(s, chain[k..])
  {
    var rest := chain[k..];
    forall i | 0 <= i < |rest| - 1 ensures WaitsFor(s, rest[i], rest[i + 1]) {
      assert WaitsFor(s, chain[k + i], chain[k + i + 1]);
    }
  }

  lemma NextUnaudited(s: Db, chain: seq<nat>) returns (k: nat)
    requires LockInv(s) && |chain| >= 2 && WaitChain(s, chain)
    requires Unaudited(s, chain[0]) && Unaudited(s, chain[|chain| - 1])
    ensures 2 <= k < |chain| && Unaudited(s, chain[k]) && Tied(s, Round(chain[0], chain[1], chain[2]), chain[k])
  {
    assert WaitsFor(s, chain[0], chain[0 + 1]);
    assert Renting(s, chain[1]);
    assert WaitsFor(s, chain[1], chain[1 + 1]);
    Between(s, chain[0], chain[1], chain[2]);
    if Unaudited(s, chain[2]) {
      k := 2;
    } else {
      assert WaitsFor(s, chain[2], chain[2 + 1]);
      Between(s, chain[1], chain[2], chain[3]);
      k := 3;
      if |chain| > 4 {
        assert WaitsFor(s, chain[3], chain[3 + 1]);
      }
    }
  }

  /** A cycle can be read from an unaudited registration on. */
  lemma {:induction false} StartUnaudited(s: Db, chain: seq<nat>) returns (turned: seq<nat>)
    requires LockInv(s) && Cycle(s, chain)
    ensures Cycle(s, turned) && Unaudited(s, turned[0])
    decreases Turn(s, chain[0])
  {
    var n := |chain|;
    assert WaitsFor(s, chain[n - 2], chain[n - 2 + 1]) && WaitsFor(s, chain[0], chain[0 + 1]);
    Between(s, chain[n - 2], chain[0], chain[1]);
    if Turn(s, chain[0]) == 0 {
      turned := chain;
    } else {
      turned := chain[1..] + [chain[1]];
      forall i | 0 <= i < |turned| - 1 ensures WaitsFor(s, turned[i], turned[i + 1]) {
        if i < n - 2 {
          assert WaitsFor(s, chain[i + 1], chain[i + 1 + 1]);
        }
      }
      assert WaitsFor(s, turned[0], turned[0 + 1]);
      Between(s, chain[0], chain[1], turned[1]);
      turned := StartUnaudited(s, turned);
    }
  }

  /** Waiting leads back exactly when unaudited registrations and ready rentals make a knot: each
      rental belongs to the actor of the registration before it and is to write the host name of the
      next. Locks need not be looked at. */
  lemma DeadlockIff(s: Db, steps: seq<Step>, iso: Isolation)
    requires Initial(s) && Run(s, steps, iso).Some?
    ensures var now := Run(s, steps, iso).value;
      (exists chain :: Cycle(now, chain)) <==> (exists rounds :: Knot(now, rounds))
  {
    ReachedIsSound(s, steps, iso);
    var now := Run(s, steps, iso).value;
    if chain: seq<nat> :| Cycle(now, chain) {
      var turned := StartUnaudited(now, chain);
      var rounds := Unwind(now, turned);
      assert Knot(now, rounds);
    }
    if rounds: seq<Round> :| Knot(now, rounds) {
      var chain := PathWaits(now, rounds, rounds[0].claim, iso);
      assert Cycle(now, chain);
    }
  }

  // ---------------------------------------------------------------- a knot never comes undone

  /** A step that an open transaction takes by itself: its next one, or giving up where its check is
      made and fails. */
  ghost predicate Move(s: Db, step: Step, iso: Isolation) {
    && !step.ChangeAccount? && !step.SignUp? && step.t in s.txns
    && (|| step == NextStep(s, step.t)
        || (step == Abort(step.t) && Refused(s, step.t, iso) && !Blocked(s, step.t)))
  }

  ghost function Moved(s: Db, step: Step, iso: Isolation): Option<Db> {
    if Move(s, step, iso) then Apply(s, step, iso) else None
  }

  /** Moves only, all of them enabled. */
  ghost function Play(s: Db, steps: seq<Step>, iso: Isolation): Option<Db>
    decreases |steps|
  {
    if steps == [] then Some(s)
    else
      var next := Moved(s, steps[0], iso);
      if next.None? then None else Play(next.value, steps[1..], iso)
  }

  /** The same party: a rental of the same owner, a registration by the same actor. */
  predicate SameParty(x: Txn, y: Txn) {
    if x.Rent? then y.Rent? && y.owner == x.owner else y.Claim? && y.actor == x.actor
  }

  /** How many steps a transaction has left. */
  function Left(x: Txn): nat {
    match x
    case Rent(_, _, Begun) => 7
    case Rent(_, _, LockTaken) => 6
    case Rent(_, _, UserRead(_)) => 5
    case Rent(_, _, RowsRead(_, _)) => 4
    case Rent(_, _, Ready(_)) => 3
    case Rent(_, _, Written(_)) => 2
    case Rent(_, _, Audited(_)) => 1
    case Claim(_, _, _, Snapshot(_)) => 4
    case Claim(_, _, _, HostLocked) => 3
    case Claim(_, _, _, DomainWritten) => 2
    case Claim(_, _, _, DomainAudited) => 1
  }

  /** A step of one's own brings the transaction on, or ends it, and leaves the others alone. */
  lemma NextStepAdvances(s: Db, t: nat, iso: Isolation)
    requires t in s.txns && Apply(s, NextStep(s, t), iso).Some?
    ensures var s' := Apply(s, NextStep(s, t), iso).value;
      if Left(s.txns[t]) == 1 then s'.txns == s.txns - {t}
      else t in s'.txns && s'.txns == s.txns[t := s'.txns[t]]
           && Left(s'.txns[t]) == Left(s.txns[t]) - 1 && SameParty(s.txns[t], s'.txns[t])
  {
    var step := NextStep(s, t);
    match s.txns[t]
    case Rent(_, _, LockTaken) => PhaseStepShape(s, step, iso);
    case Rent(_, _, UserRead(_)) => ReadRowsShape(s, t);
    case Rent(_, _, RowsRead(_, _)) => CheckHostShape(s, t);
    case Rent(_, _, Written(_)) => PhaseStepShape(s, step, iso);
    case Rent(_, _, _) => LockedAdvances(s, t, iso);
    case Claim(_, _, _, _) => ClaimAdvances(s, t, iso);
  }

  lemma LockedAdvances(s: Db, t: nat, iso: Isolation)
    requires Renting(s, t) && Apply(s, NextStep(s, t), iso).Some?
    requires var phase := s.txns[t].phase; phase.Begun? || phase.Ready? || phase.Audited?
    ensures var s', x := Apply(s, NextStep(s, t), iso).value, s.txns[t];
      match x.phase
      case Begun => s'.txns == s.txns[t := x.(phase := LockTaken)]
      case Ready(w) => s'.txns == s.txns[t := x.(phase := Written(w))]
      case _ => s'.txns == s.txns - {t}
  {
  }

  lemma ClaimAdvances(s: Db, t: nat, iso: Isolation)
    requires t in s.txns && s.txns[t].Claim? && Apply(s, NextStep(s, t), iso).Some?
    ensures var s', x := Apply(s, NextStep(s, t), iso).value, s.txns[t];
      match x.stage
      case Snapshot(_) => s'.txns == s.txns[t := x.(stage := HostLocked)]
      case HostLocked => s'.txns == s.txns[t := x.(stage := DomainWritten)]
      case DomainWritten => s'.txns == s.txns[t := x.(stage := DomainAudited)]
      case DomainAudited => s'.txns == s.txns - {t}
  {
  }

  /** Nobody moves while waiting, and nobody else is moved. */
  lemma MoveFrame(s: Db, step: Step, iso: Isolation)
    requires Moved(s, step, iso).Some?
    ensures !Blocked(s, step.t)
    ensures forall u :: u in s.txns && u != step.t ==>
              u in Moved(s, step, iso).value.txns && Moved(s, step, iso).value.txns[u] == s.txns[u]
  {
    NextStepEnabledIff(s, step.t, iso);
    if step == NextStep(s, step.t) {
      NextStepAdvances(s, step.t, iso);
    }
  }

  lemma {:induction false} PathStays(s: Db, s': Db, t: nat, rounds: seq<Round>, end: nat, iso: Isolation)
    requires Sound(s, iso) && Path(s, rounds, end) && !Blocked(s, t) && t != end
    requires forall u :: u in s.txns && u != t ==> u in s'.txns && s'.txns[u] == s.txns[u]
    ensures Path(s', rounds, end)
  {
    if rounds != [] {
      PathStays(s, s', t, rounds[1..], end, iso);
      var next := if |rounds| == 1 then end else rounds[1].claim;
      TiedWaits(s, rounds[0], next, iso);
      if |rounds| > 1 {
        TiedWaits(s, rounds[1], if |rounds| == 2 then end else rounds[2].claim, iso);
      }
    }
  }

  lemma MoveKeepsKnot(s: Db, step: Step, rounds: seq<Round>, iso: Isolation)
    requires Sound(s, iso) && Knot(s, rounds) && Moved(s, step, iso).Some?
    ensures Knot(Moved(s, step, iso).value, rounds)
  {
    MoveFrame(s, step, iso);
    TiedWaits(s, rounds[0], if |rounds| == 1 then rounds[0].claim else rounds[1].claim, iso);
    PathStays(s, Moved(s, step, iso).value, step.t, rounds, rounds[0].claim, iso);
  }

  /** Whatever moves the open transactions make, a knot stays: none of its transactions ever ends. */
  lemma {:induction false} KnotStays(s: Db, moves: seq<Step>, rounds: seq<Round>, iso: Isolation)
    requires Sound(s, iso) && Knot(s, rounds) && Play(s, moves, iso).Some?
    ensures Knot(Play(s, moves, iso).value, rounds)
    decreases |moves|
  {
    if moves != [] {
      MoveKeepsKnot(s, moves[0], rounds, iso);
      StepKeepsSound(s, moves[0], iso);
      KnotStays(Moved(s, moves[0], iso).value, moves[1..], rounds, iso);
    }
  }

  lemma KnotNeverEnds(s: Db, steps: seq<Step>, moves: seq<Step>, rounds: seq<Round>, iso: Isolation)
    requires Initial(s) && Run(s, steps, iso).Some? && Knot(Run(s, steps, iso).value, rounds)
    requires Play(Run(s, steps, iso).value, moves, iso).Some?
    ensures var end := Play(Run(s, steps, iso).value, moves, iso).value;
      Knot(end, rounds) && rounds[0].claim in end.txns && rounds[0].rental in end.txns
  {
    ReachedIsSound(s, steps, iso);
    KnotStays(Run(s, steps, iso).value, moves, rounds, iso);
  }

  /** The failing schedule: a user registers a host name as a custom domain and rents it at the same
      time. The registration has its record inserted and wants the User row for its audit entry, the
      rental has the User row and wants the host name. */
  lemma RegistrationBlocksRental(s: Db, r: Rental, iso: Isolation) returns (steps: seq<Step>)
    requires Initial(s) && s.rows == map[] && s.domains == {} && s.domainIds == {}
    requires r.owner in s.users && s.users[r.owner].allowed
    ensures Run(s, steps, iso).Some? && Knot(Run(s, steps, iso).value, [Round(1, 0, 1)])
  {
    var claimed := [OpenClaim(r)] + [GuardClaim(1), WriteClaim(1)];
    var opening := [Begin(0, r.owner, Insertion(r)), Lock(0)] + [ReadUser(0), ReadRows(0)];
    var snapshot := Claiming(s, r, Snapshot({}));
    assert Hosts(s.rows) == {};
    OneStep(s, OpenClaim(r), iso);
    ClaimWrites(snapshot, r, iso);
    RunExtends(s, [OpenClaim(r)], [GuardClaim(1), WriteClaim(1)], iso);
    var written := Claiming(snapshot, r, DomainWritten).(hostLocks := map[r.hostname := 1]);
    AloneOpening(written, r, iso);
    RunExtends(s, claimed, opening, iso);
    RentalGetsReady(written, r, iso);
    RunExtends(s, claimed + opening, [CheckHost(0)], iso);
    steps := claimed + opening + [CheckHost(0)];
    assert [Round(1, 0, 1)][1..] == [];
  }

  lemma RentalGetsReady(s: Db, r: Rental, iso: Isolation)
    requires Unopposed(s, r)
    ensures Run(Alone(s, r, RowsRead(s.users[r.owner], None)), [CheckHost(0)], iso)
         == Some(Alone(s, r, Ready(Insert(r))))
  {
    var a := Alone(s, r, RowsRead(s.users[r.owner], None));
    assert Hosts(a.rows) == {};
    assert WithPhase(a, 0, Ready(Insert(r))).txns == Alone(s, r, Ready(Insert(r))).txns;
    OneStep(a, CheckHost(0), iso);
  }

  // ---------------------------------------------------------------- when every run can end

  /** No user has a registration and a rental open at once. */
  ghost predicate Separate(s: Db) {
    forall t, u :: t in s.txns && u in s.txns && s.txns[t].Claim? && s.txns[u].Rent? ==>
      s.txns[t].actor != Some(s.txns[u].owner)
  }

  /** How far a transaction is from holding all it needs. */
  function Rank(x: Txn): nat {
    match x
    case Rent(_, _, phase) => if phase.Begun? then 3 else if phase.Written? || phase.Audited? then 0 else 2
    case Claim(_, _, _, stage) => if stage.Snapshot? then 2 else if stage.HostLocked? then 1 else 0
  }

  /** Then whoever is waited for is closer to its end. */
  lemma WaitsDescend(s: Db, t: nat, u: nat)
    requires LockInv(s) && Separate(s) && WaitsFor(s, t, u)
    ensures u in s.txns && Rank(s.txns[u]) < Rank(s.txns[t])
  {
    assert forall o :: RowHeld(s, o, u) ==> Owns(s, u, o);
  }

  lemma {:induction false} ChainDescends(s: Db, chain: seq<nat>)
    requires LockInv(s) && Separate(s) && |chain| >= 2 && WaitChain(s, chain)
    ensures chain[0] in s.txns && chain[|chain| - 1] in s.txns
    ensures Rank(s.txns[chain[|chain| - 1]]) + |chain| - 1 <= Rank(s.txns[chain[0]])
  {
    assert WaitsFor(s, chain[0], chain[0 + 1]);
    WaitsDescend(s, chain[0], chain[1]);
    if |chain| > 2 {
      ChainTail(s, chain, 1);
      ChainDescends(s, chain[1..]);
    }
  }

  /** While no user has both open, waiting never leads back, and no chain of waiting transactions is
      longer than four. */
  lemma SeparateChainsEnd(s: Db, steps: seq<Step>, iso: Isolation, chain: seq<nat>)
    requires Initial(s) && Run(s, steps, iso).Some? && Separate(Run(s, steps, iso).value)
    requires |chain| >= 2 && WaitChain(Run(s, steps, iso).value, chain)
    ensures |chain| <= 4 && chain[0] != chain[|chain| - 1]
  {
    ReachedIsSound(s, steps, iso);
    ChainDescends(Run(s, steps, iso).value, chain);
  }

  lemma {:induction false} PlayIsRun(s: Db, steps: seq<Step>, iso: Isolation)
    requires Play(s, steps, iso).Some?
    ensures Run(s, steps, iso) == Play(s, steps, iso)
    decreases |steps|
  {
    if steps != [] {
      PlayIsRun(Moved(s, steps[0], iso).value, steps[1..], iso);
      OneStep(s, steps[0], iso);
      RunExtends(s, [steps[0]], steps[1..], iso);
      assert steps == [steps[0]] + steps[1..];
    }
  }

  lemma {:induction false} PlayExtends(s: Db, steps: seq<Step>, more: seq<Step>, iso: Isolation)
    requires Play(s, steps, iso).Some?
    ensures Play(s, steps + more, iso) == Play(Play(s, steps, iso).value, more, iso)
    decreases |steps|
  {
    if steps == [] {
      assert steps + more == more;
    } else {
      PlayExtends(Moved(s, steps[0], iso).value, steps[1..], more, iso);
      assert (steps + more)[1..] == steps[1..] + more;
    }
  }

  /** No open transaction is closer to its end. */
  ghost predicate Foremost(s: Db, t: nat) {
    t in s.txns && forall u :: u in s.txns ==> Rank(s.txns[t]) <= Rank(s.txns[u])
  }

  lemma ForemostExists(s: Db) returns (t: nat)
    requires s.txns.Keys != {}
    ensures Foremost(s, t)
  {
    t :| t in s.txns;
    if u :| u in s.txns && Rank(s.txns[u]) == 0 {
      t := u;
    } else if u :| u in s.txns && Rank(s.txns[u]) == 1 {
      t := u;
    } else if u :| u in s.txns && Rank(s.txns[u]) == 2 {
      t := u;
    }
  }

  lemma ForemostNotBlocked(s: Db, t: nat)
    requires LockInv(s) && Separate(s) && Foremost(s, t)
    ensures !Blocked(s, t)
  {
    if u :| WaitsFor(s, t, u) {
      WaitsDescend(s, t, u);
    }
  }

  /** A step of one's own keeps the transaction foremost and the users' parties separate. */
  lemma ForemostStays(s: Db, t: nat, iso: Isolation)
    requires Separate(s) && Foremost(s, t) && Apply(s, NextStep(s, t), iso).Some? && Left(s.txns[t]) > 1
    ensures Separate(Apply(s, NextStep(s, t), iso).value) && Foremost(Apply(s, NextStep(s, t), iso).value, t)
  {
    NextStepAdvances(s, t, iso);
    var s' := Apply(s, NextStep(s, t), iso).value;
    assert Rank(s'.txns[t]) <= Rank(s.txns[t]);
  }

  /** The foremost transaction ends by its own moves. */
  lemma {:induction false} ForemostEnds(s: Db, t: nat, iso: Isolation) returns (moves: seq<Step>)
    requires LockInv(s) && Separate(s) && Foremost(s, t)
    ensures Play(s, moves, iso).Some? && Play(s, moves, iso).value.txns == s.txns - {t}
    ensures LockInv(Play(s, moves, iso).value)
    decreases Left(s.txns[t])
  {
    ForemostNotBlocked(s, t);
    NextStepEnabledIff(s, t, iso);
    var move := if Refused(s, t, iso) then Abort(t) else NextStep(s, t);
    var s' := Apply(s, move, iso).value;
    StepKeepsLocks(s, move, iso);
    assert Play(s, [move], iso) == Some(s') by {
      assert [move][1..] == [];
    }
    moves := [move];
    if !Refused(s, t, iso) {
      NextStepAdvances(s, t, iso);
      if Left(s.txns[t]) > 1 {
        ForemostStays(s, t, iso);
        var rest := ForemostEnds(s', t, iso);
        PlayExtends(s, [move], rest, iso);
        assert s'.txns - {t} == s.txns - {t};
        moves := [move] + rest;
      }
    }
  }

  lemma {:induction false} AllEnd(s: Db, iso: Isolation) returns (moves: seq<Step>)
    requires LockInv(s) && Separate(s)
    ensures Play(s, moves, iso).Some? && Play(s, moves, iso).value.txns == map[]
    decreases |s.txns|
  {
    if s.txns.Keys == {} {
      moves := [];
      assert s.txns == map[];
    } else {
      var t := ForemostExists(s);
      var first := ForemostEnds(s, t, iso);
      var s' := Play(s, first, iso).value;
      FewerLeft(s.txns, t);
      var rest := AllEnd(s', iso);
      PlayExtends(s, first, rest, iso);
      moves := first + rest;
    }
  }

  lemma FewerLeft(txns: map<nat, Txn>, t: nat)
    requires t in txns
    ensures |txns - {t}| < |txns|
  {
    assert (txns - {t}).Keys == txns.Keys - {t};
    assert |(txns - {t}).Keys| == |txns.Keys| - 1;
  }

  /** Progress: from every reachable state in which no user has a registration and a rental open at
      once, the open transactions can all come to their end by moves of their own, in which a
      transaction gives up only where its own check fails. */
  lemma SeparateRunsCanEnd(s: Db, steps: seq<Step>, iso: Isolation) returns (moves: seq<Step>)
    requires Initial(s) && Run(s, steps, iso).Some? && Separate(Run(s, steps, iso).value)
    ensures var now := Run(s, steps, iso).value;
      && Play(now, moves, iso).Some? && Run(s, steps + moves, iso) == Play(now, moves, iso)
      && Play(now, moves, iso).value.txns == map[]
  {
    ReachedIsSound(s, steps, iso);
    var now := Run(s, steps, iso).value;
    moves := AllEnd(now, iso);
    PlayIsRun(now, moves, iso);
    RunExtends(s, steps, moves, iso);
  }
}
