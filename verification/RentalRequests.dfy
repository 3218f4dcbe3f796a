/** What a rental request does, told by the fields of its body, the account and the rows
    (packages/core/src/domain-rentals.ts). */
module RentalRequests {
  import opened Text
  import opened RentalNames
  import opened RentalRows
  import opened RentalJobs

  // ---------------------------------------------------------------- the words of a request

  /** Approved, and under no ban that is still in force. */
  predicate Open(user: Option<User>, clock: int) {
    && user.Some? && user.value.approvalStatus == "APPROVED"
    && !(user.value.bannedAt.Some? && (user.value.banExpiresAt.None? || user.value.banExpiresAt.value > clock))
  }

  predicate Sent(body: map<string, Value>, key: string) {
    key in body && !body[key].Undefined?
  }

  /** The host name a sent name stands for. */
  function HostOf(name: string, config: Config): string {
    config.lower(Trim(name)) + "." + config.baseDomain
  }

  predicate NameFits(value: Value, config: Config) {
    && value.Text?
    && var name := config.lower(Trim(value.text));
       && 1 <= |name| <= 63 && name[0] != '-' && name[|name| - 1] != '-' && !config.reserved(name)
       && forall i :: 0 <= i < |name| ==> 'a' <= name[i] <= 'z' || '0' <= name[i] <= '9' || name[i] == '-'
  }

  /** A target that is fit to be stored: text without control characters, a URL of a public host that
      is no rentable name, and not too long. */
  predicate TargetFits(value: Value, config: Config) {
    && value.Text? && Trim(value.text) != [] && |value.text| <= 4096
    && (forall i :: 0 <= i < |Trim(value.text)| ==>
          Trim(value.text)[i] > ' ' && Trim(value.text)[i] != '\U{007F}' && Trim(value.text)[i] != '\\')
    && !HasEncodedNewline(value.text)
    && config.parse(Trim(value.text)).Some?
    && var url := config.parse(Trim(value.text)).value;
       && (url.protocol == "http:" || url.protocol == "https:") && url.username == [] && url.password == []
       && url.hostname != [] && !config.local(url.hostname) && RentalHostname(url.hostname, config).None?
       && |url.href| <= 4096
  }

  /** What is stored for a target that fits. */
  function HrefOf(value: Value, config: Config): string
    requires TargetFits(value, config)
  {
    config.parse(Trim(value.text)).value.href
  }

  predicate VersionFits(body: map<string, Value>) {
    "expectedVersion" in body && body["expectedVersion"].Number?
    && 1 <= body["expectedVersion"].number <= 9_007_199_254_740_991
  }

  predicate CreateFits(body: Body, config: Config) {
    && body.Some?
    && (forall k :: k in body.value ==> k == "name" || k == "targetUrl" || k == "enabled")
    && "name" in body.value && NameFits(body.value["name"], config)
    && "targetUrl" in body.value && TargetFits(body.value["targetUrl"], config)
    && (Sent(body.value, "enabled") ==> body.value["enabled"].Flag?)
  }

  predicate UpdateFits(body: Body, config: Config) {
    && body.Some?
    && (forall k :: k in body.value ==> k == "name" || k == "targetUrl" || k == "enabled" || k == "expectedVersion")
    && VersionFits(body.value)
    && ("name" in body.value || "targetUrl" in body.value || "enabled" in body.value)
    && (Sent(body.value, "name") ==> NameFits(body.value["name"], config))
    && (Sent(body.value, "targetUrl") ==> TargetFits(body.value["targetUrl"], config))
    && (Sent(body.value, "enabled") ==> body.value["enabled"].Flag?)
  }

  predicate RemoveFits(body: Body) {
    body.Some? && VersionFits(body.value) && forall k :: k in body.value ==> k == "expectedVersion"
  }

  /** Neither a rental nor a custom domain has the host name. */
  ghost predicate Available(s: Store, hostname: string) {
    && (forall r :: r in s.rows ==> r.hostname != hostname)
    && (forall k :: k in s.domains ==> StripDot(Lower(s.domains[k])) != hostname)
  }

  /** A row of the owner, at a version. */
  ghost predicate Owned(s: Store, r: Rental, owner: string, id: string) {
    r in s.rows && r.id == id && r.owner == owner
  }

  // ---------------------------------------------------------------- what is accepted

  lemma TargetAcceptedIff(value: Value, config: Config)
    ensures NormalizeTarget(value, config).Ok? <==> TargetFits(value, config)
    ensures TargetFits(value, config) ==> NormalizeTarget(value, config) == Ok(HrefOf(value, config))
  {
  }

  lemma NameAcceptedIff(value: Value, config: Config)
    ensures NormalizeName(value, config).Ok? <==> NameFits(value, config)
    ensures NameFits(value, config) ==> NormalizeName(value, config) == Ok(config.lower(Trim(value.text)))
  {
  }

  lemma AllowedIff(user: Option<User>, clock: int)
    ensures Allowed(user, clock) <==> Open(user, clock)
  {
  }

  lemma KeysAre(body: map<string, Value>)
    ensures body.Keys <= {"expectedVersion"} <==> forall k :: k in body ==> k == "expectedVersion"
    ensures body.Keys <= {"name", "targetUrl", "enabled"}
       <==> forall k :: k in body ==> k == "name" || k == "targetUrl" || k == "enabled"
    ensures body.Keys <= {"name", "targetUrl", "enabled", "expectedVersion"}
       <==> forall k :: k in body ==> k == "name" || k == "targetUrl" || k == "enabled" || k == "expectedVersion"
  {
    assert forall k :: k in body <==> k in body.Keys;
  }

  lemma CreateReads(body: Body, config: Config)
    ensures ParseCreate(body, config).Ok? <==> CreateFits(body, config)
    ensures CreateFits(body, config) ==>
      ParseCreate(body, config).value
      == NewRental(HostOf(body.value["name"].text, config), HrefOf(body.value["targetUrl"], config),
                   Sent(body.value, "enabled") ==> body.value["enabled"].flag)
  {
    if body.Some? {
      KeysAre(body.value);
      TargetAcceptedIff(Member(body.value, "targetUrl"), config);
      NameAcceptedIff(Member(body.value, "name"), config);
    }
  }

  lemma UpdateReads(body: Body, config: Config)
    ensures ParseUpdate(body, config).Ok? <==> UpdateFits(body, config)
    ensures UpdateFits(body, config) ==>
      var c, b := ParseUpdate(body, config).value, body.value;
      && c.version == b["expectedVersion"].number
      && c.hostname == (if Sent(b, "name") then Some(HostOf(b["name"].text, config)) else None)
      && c.targetUrl == (if Sent(b, "targetUrl") then Some(HrefOf(b["targetUrl"], config)) else None)
      && c.enabled == (if Sent(b, "enabled") then Some(b["enabled"].flag) else None)
  {
    if body.Some? {
      KeysAre(body.value);
      TargetAcceptedIff(Member(body.value, "targetUrl"), config);
      NameAcceptedIff(Member(body.value, "name"), config);
    }
  }

  lemma RemoveReads(body: Body)
    ensures ParseRemove(body).Ok? <==> RemoveFits(body)
    ensures RemoveFits(body) ==> ParseRemove(body) == Ok(body.value["expectedVersion"].number)
  {
    if body.Some? {
      KeysAre(body.value);
    }
  }

  lemma HostAvailable(s: Store, hostname: string, env: Env)
    ensures HostRefusal(s, hostname, env).None? <==> Available(s, hostname) && !env.occupiedFails
    ensures HostRefusal(s, hostname, env) == Some(NameTaken)
       <==> !Available(s, hostname)
            && (env.occupiedFails ==> exists r :: r in s.rows && r.hostname == hostname)
  {
    var k := IndexOfHost(s.rows, hostname);
    if k < |s.rows| {
      assert s.rows[k] in s.rows;
    }
    assert forall r :: r in s.rows && r.hostname == hostname ==> k < |s.rows|;
  }

  /** How many rows an owner has, and how many names an account of a type may have. */
  lemma OwnedCount(rows: seq<Rental>, owner: string)
    requires DistinctIds(rows)
    ensures |OwnedBy(rows, owner)| == |set r | r in rows && r.owner == owner|
  {
    OwnedByDistinct(rows, owner);
    var owned := OwnedBy(rows, owner);
    forall r ensures r in owned <==> r in rows && r.owner == owner {
      OwnedByMember(rows, owner, r);
    }
    DistinctCount(owned);
    assert (set r | r in owned) == (set r | r in rows && r.owner == owner);
  }

  lemma {:induction false} DistinctCount(rows: seq<Rental>)
    requires forall i, j :: 0 <= i < j < |rows| ==> rows[i] != rows[j]
    ensures |rows| == |set r | r in rows|
  {
    if rows != [] {
      var init, last := rows[..|rows| - 1], rows[|rows| - 1];
      DistinctCount(init);
      assert rows == init + [last] && last !in init;
      assert (set r | r in rows) == (set r | r in init) + {last};
    }
  }

  /** A creation is accepted exactly when its body fits, the account is open and has fewer names than
      its type may have, and the host name is available. */
  lemma CreateAcceptedIff(s: Store, owner: string, body: Body, env: Env, config: Config)
    requires Inv(s, config)
    ensures Succeeds(s, Create(owner, body, env), config) <==>
      && CreateFits(body, config) && env.user.Ok? && Open(env.user.value, env.clock) && !env.auditFails
      && !env.occupiedFails && Available(s, HostOf(body.value["name"].text, config))
      && |set r | r in s.rows && r.owner == owner| < if env.user.value.value.accountType == "CLUB_MEMBER" then 5 else 2
  {
    CreateReads(body, config);
    if CreateFits(body, config) && env.user.Ok? {
      AllowedIff(env.user.value, env.clock);
      OwnedCount(s.rows, owner);
      HostAvailable(s, HostOf(body.value["name"].text, config), env);
    }
  }

  /** An update is accepted exactly when its body fits, the account is open, the caller owns the row at
      the version sent, and a host name that changes is available. */
  lemma UpdateAcceptedIff(s: Store, owner: string, id: string, body: Body, env: Env, config: Config)
    requires Inv(s, config)
    ensures Succeeds(s, Update(owner, id, body, env), config) <==>
      && UpdateFits(body, config) && env.user.Ok? && Open(env.user.value, env.clock) && !env.auditFails
      && exists r :: (Owned(s, r, owner, id) && r.version == body.value["expectedVersion"].number &&
            (Sent(body.value, "name") && HostOf(body.value["name"].text, config) != r.hostname ==>
               !env.occupiedFails && Available(s, HostOf(body.value["name"].text, config))))
  {
    UpdateReads(body, config);
    if UpdateFits(body, config) && env.user.Ok? {
      ChangeGrantedIff(s, owner, id, ParseUpdate(body, config).value, env);
    }
  }

  lemma ChangeGrantedIff(s: Store, owner: string, id: string, c: Changes, env: Env)
    requires DistinctIds(s.rows) && env.user.Ok?
    ensures UpdateRefusal(s, owner, id, c, env).None? <==>
      && Open(env.user.value, env.clock) && !env.auditFails
      && exists r :: (Owned(s, r, owner, id) && r.version == c.version &&
            (c.hostname.Some? && c.hostname.value != r.hostname ==>
               !env.occupiedFails && Available(s, c.hostname.value)))
  {
    AllowedIff(env.user.value, env.clock);
    OwnedIsFound(s, owner, id);
    if c.hostname.Some? {
      HostAvailable(s, c.hostname.value, env);
    }
  }

  /** A removal is accepted exactly when its body fits, the account is open and the caller owns the row
      at the version sent. */
  lemma RemoveAcceptedIff(s: Store, owner: string, id: string, body: Body, env: Env, config: Config)
    requires Inv(s, config)
    ensures Succeeds(s, Remove(owner, id, body, env), config) <==>
      && RemoveFits(body) && env.user.Ok? && Open(env.user.value, env.clock) && !env.auditFails
      && exists r :: Owned(s, r, owner, id) && r.version == body.value["expectedVersion"].number
  {
    RemoveReads(body);
    if RemoveFits(body) && env.user.Ok? {
      AllowedIff(env.user.value, env.clock);
      OwnedIsFound(s, owner, id);
    }
  }

  lemma OwnedIsFound(s: Store, owner: string, id: string)
    requires DistinctIds(s.rows)
    ensures forall r :: Owned(s, r, owner, id) <==> Find(s.rows, id) == Some(r) && r.owner == owner
  {
    forall r ensures Owned(s, r, owner, id) <==> Find(s.rows, id) == Some(r) && r.owner == owner {
      if Owned(s, r, owner, id) {
        FindUnique(s.rows, r);
      }
    }
  }

  /** Why an update or removal with a body that fits is refused: first the account, then the row, which
      must be the caller's, then its version. */
  lemma TargetReasons(s: Store, owner: string, id: string, version: int, env: Env, config: Config)
    requires Inv(s, config) && env.user.Ok?
    ensures TargetRefusal(s, owner, id, version, env) == Some(AccountUnavailable) <==> !Open(env.user.value, env.clock)
    ensures TargetRefusal(s, owner, id, version, env) == Some(NotFound)
       <==> Open(env.user.value, env.clock) && forall r :: !Owned(s, r, owner, id)
    ensures TargetRefusal(s, owner, id, version, env) == Some(VersionConflict)
       <==> Open(env.user.value, env.clock) && exists r :: Owned(s, r, owner, id) && r.version != version
  {
    AllowedIff(env.user.value, env.clock);
    OwnedIsFound(s, owner, id);
  }

  // ---------------------------------------------------------------- what is stored

  /** The owner a job acts for. */
  function ActsFor(job: Job): Option<string> {
    match job
    case Create(owner, _, _) => Some(owner)
    case Update(owner, _, _, _) => Some(owner)
    case Remove(owner, _, _, _) => Some(owner)
    case ClaimDomain(_, _, _) => None
  }

  lemma PutMembers(rows: seq<Rental>, r: Rental, x: Rental)
    requires DistinctIds(rows)
    ensures x in Put(rows, r) <==> x == r || (x in rows && x.id != r.id)
  {
    PutTable(rows, r);
    PutHolds(rows, r);
    if x in rows && x.id != r.id {
      var i :| 0 <= i < |rows| && rows[i] == x;
      assert Put(rows, r)[i] == x;
    }
  }

  /** What an accepted creation stores. */
  lemma CreateStores(s: Store, owner: string, body: Body, env: Env, config: Config, x: Rental)
    requires Inv(s, config) && Admissible(s, Create(owner, body, env))
    requires Succeeds(s, Create(owner, body, env), config)
    ensures CreateFits(body, config)
    ensures var b, after := body.value, Apply(s, Create(owner, body, env), config);
      var r := Rental(env.newId, owner, HostOf(b["name"].text, config), HrefOf(b["targetUrl"], config),
                      Sent(b, "enabled") ==> b["enabled"].flag, 1, env.now, env.now);
      && (x in after.rows <==> x == r || x in s.rows)
      && after.events == s.events + [Event(owner, Created, r)] && after.domains == s.domains
  {
    CreateReads(body, config);
    var r := NewRow(owner, ParseCreate(body, config).value, env);
    PutMembers(s.rows, r, x);
    NewIdUnused(s, env.newId, x, config);
  }

  lemma NewIdUnused(s: Store, id: string, x: Rental, config: Config)
    requires Inv(s, config) && forall e :: e in s.events ==> e.rental.id != id
    ensures x in s.rows ==> x.id != id
  {
    if x in s.rows {
      assert LoggedRow(s.events, x);
    }
  }

  /** What an accepted update stores: the fields sent, the others as they were, the next version and
      the time. */
  lemma UpdateStores(s: Store, owner: string, id: string, body: Body, env: Env, config: Config, was: Rental, x: Rental)
    requires Inv(s, config) && Succeeds(s, Update(owner, id, body, env), config)
    requires was in s.rows && was.id == id
    ensures UpdateFits(body, config) && was.owner == owner && was.version == body.value["expectedVersion"].number
    ensures var b, after := body.value, Apply(s, Update(owner, id, body, env), config);
      var r := Rental(was.id, was.owner,
                      if Sent(b, "name") then HostOf(b["name"].text, config) else was.hostname,
                      if Sent(b, "targetUrl") then HrefOf(b["targetUrl"], config) else was.targetUrl,
                      if Sent(b, "enabled") then b["enabled"].flag else was.enabled,
                      was.version + 1, was.createdAt, env.now);
      && (x in after.rows <==> x == r || (x in s.rows && x.id != id))
      && after.events == s.events + [Event(owner, Updated, r)] && after.domains == s.domains
  {
    UpdateReads(body, config);
    FindUnique(s.rows, was);
    PutMembers(s.rows, Revised(was, ParseUpdate(body, config).value, env), x);
  }

  /** What an accepted removal leaves. */
  lemma RemoveDrops(s: Store, owner: string, id: string, body: Body, env: Env, config: Config, was: Rental, x: Rental)
    requires Inv(s, config) && Succeeds(s, Remove(owner, id, body, env), config)
    requires was in s.rows && was.id == id
    ensures was.owner == owner
    ensures var after := Apply(s, Remove(owner, id, body, env), config);
      && (x in after.rows <==> x in s.rows && x.id != id)
      && after.events == s.events + [Event(owner, Deleted, was)] && after.domains == s.domains
  {
    RemoveReads(body);
    FindUnique(s.rows, was);
    DropTable(s.rows, id);
  }

  /** Nobody's request touches the rows of another: whatever the job, and whether it is accepted or
      not, exactly the same rows of everybody else are there afterwards. */
  lemma OthersUntouched(s: Store, job: Job, config: Config, x: Rental)
    requires Inv(s, config) && Admissible(s, job) && ActsFor(job) != Some(x.owner)
    ensures x in Apply(s, job, config).rows <==> x in s.rows
  {
    if Succeeds(s, job, config) {
      match job
      case Create(owner, body, env) => CreateStores(s, owner, body, env, config, x);
      case Update(owner, id, body, env) =>
        UpdateAcceptedIff(s, owner, id, body, env, config);
        var was :| Owned(s, was, owner, id);
        UpdateStores(s, owner, id, body, env, config, was, x);
        SameIdSameOwner(s.rows, was, x);
      case Remove(owner, id, body, env) =>
        RemoveAcceptedIff(s, owner, id, body, env, config);
        var was :| Owned(s, was, owner, id);
        RemoveDrops(s, owner, id, body, env, config, was, x);
        SameIdSameOwner(s.rows, was, x);
      case ClaimDomain(_, _, _) =>
    }
  }

  lemma SameIdSameOwner(rows: seq<Rental>, a: Rental, b: Rental)
    requires DistinctIds(rows) && a in rows
    ensures b in rows && a.id == b.id ==> a == b
  {
    if b in rows && a.id == b.id {
      FindUnique(rows, a);
      FindUnique(rows, b);
    }
  }
}
