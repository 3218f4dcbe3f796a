/** Listing, quota suspension and redirect resolution of rented names
    (packages/core/src/domain-rentals.ts). */
module RentalResolver {
  import opened Text
  import opened RentalNames
  import opened RentalRows
  import opened RentalJobs
  import opened RentalRequests
  import opened Sorting

  /** Oldest first, ties broken by id. */
  predicate Before(a: Rental, b: Rental, less: Order) {
    if a.createdAt == b.createdAt then less(a.id, b.id) else less(a.createdAt, b.createdAt)
  }

  function ByAge(less: Order): (Rental, Rental) -> bool {
    (a, b) => Before(a, b, less)
  }

  /** An owner's names in the order the quota counts them. */
  function QuotaOrder(rows: seq<Rental>, owner: string, less: Order): seq<Rental> {
    Sorted(OwnedBy(rows, owner), ByAge(less))
  }

  type Users = string -> Option<User>

  datatype Listed = Listed(rental: Rental, quotaSuspended: bool)

  function Listing(s: Store, owner: string, users: Users, clock: int, less: Order): Result<seq<Listed>> {
    if !Allowed(users(owner), clock) then Err(AccountUnavailable)
    else
      var rentals := QuotaOrder(s.rows, owner, less);
      var limit := Limit(users(owner).value.accountType);
      Ok(seq(|rentals|, i requires 0 <= i < |rentals| => Listed(rentals[i], i >= limit)))
  }

  /** The names an owner's quota lets operate. */
  function Eligible(rows: seq<Rental>, owner: string, limit: nat, less: Order): seq<Rental> {
    Take(QuotaOrder(rows, owner, less), limit)
  }

  function Resolve(s: Store, host: string, users: Users, clock: int, config: Config,
                   less: Order): Result<Option<string>> {
    match RentalHostname(host, config)
    case None => Ok(None)
    case Some(hostname) =>
      match FindHost(s.rows, hostname)
      case None => Ok(None)
      case Some(rental) =>
        if !rental.enabled || !Allowed(users(rental.owner), clock) then Ok(None)
        else
          var user := users(rental.owner).value;
          var eligible := Eligible(s.rows, user.id, Limit(user.accountType), less);
          if !exists k :: 0 <= k < |eligible| && eligible[k].id == rental.id then Ok(None)
          else
            var target := NormalizeTarget(Text(rental.targetUrl), config);
            if target.Ok? then Ok(Some(target.value)) else Err(target.code)
  }

  lemma ByAgeStrict(less: Order)
    requires Total(less)
    ensures Strict(ByAge(less))
  {
  }

  /** The quota order lists exactly the owner's rows, oldest first. */
  lemma QuotaOrderSorts(rows: seq<Rental>, owner: string, less: Order)
    requires Total(less) && DistinctIds(rows)
    ensures Strict(ByAge(less)) && Ascending(QuotaOrder(rows, owner, less), ByAge(less))
    ensures forall x :: x in QuotaOrder(rows, owner, less) <==> x in rows && x.owner == owner
  {
    ByAgeStrict(less);
    OwnedByDistinct(rows, owner);
    SortedAscending(OwnedBy(rows, owner), ByAge(less));
    forall x ensures x in QuotaOrder(rows, owner, less) <==> x in rows && x.owner == owner {
      SortedMembers(OwnedBy(rows, owner), ByAge(less), x);
      OwnedByMember(rows, owner, x);
    }
  }

  // ---------------------------------------------------------------- main results

  /** Removing a rental at place `k` of its owner's quota order closes the gap and touches nothing
      else: if it was eligible, exactly the oldest suspended one takes the free slot; if it was
      suspended, the eligible ones stay as they were. */
  lemma RemovalPromotesNextOldest(rows: seq<Rental>, owner: string, k: nat, limit: nat, less: Order)
    requires Total(less) && DistinctIds(rows)
    requires k < |QuotaOrder(rows, owner, less)|
    ensures var q := QuotaOrder(rows, owner, less);
            var after := Eligible(Drop(rows, q[k].id), owner, limit, less);
      && QuotaOrder(Drop(rows, q[k].id), owner, less) == q[..k] + q[k + 1..]
      && (k >= limit ==> after == Eligible(rows, owner, limit, less))
      && (k < limit ==> after == q[..k] + (if |q| > limit then q[k + 1..limit + 1] else q[k + 1..]))
  {
    var q := QuotaOrder(rows, owner, less);
    RemovalClosesGap(rows, owner, k, less);
    GapPrefix(q, k, limit);
  }

  lemma RemovalClosesGap(rows: seq<Rental>, owner: string, k: nat, less: Order)
    requires Total(less) && DistinctIds(rows)
    requires k < |QuotaOrder(rows, owner, less)|
    ensures var q := QuotaOrder(rows, owner, less);
      QuotaOrder(Drop(rows, q[k].id), owner, less) == q[..k] + q[k + 1..]
  {
    var q := QuotaOrder(rows, owner, less);
    var removed := q[k];
    QuotaOrderSorts(rows, owner, less);
    DropTable(rows, removed.id);
    QuotaOrderSorts(Drop(rows, removed.id), owner, less);
    var q' := QuotaOrder(Drop(rows, removed.id), owner, less);
    var gap := q[..k] + q[k + 1..];
    GapAscending(q, k, ByAge(less));
    assert removed in rows && removed.owner == owner;
    FindUnique(rows, removed);
    forall x ensures x in gap <==> x in q' {
      GapMembers(q, k, x, ByAge(less));
      if x in rows {
        FindUnique(rows, x);
      }
    }
    AscendingUnique(gap, q', ByAge(less));
  }

  /** In every reachable state, for an allowed owner, a stored name resolves exactly when it is
      enabled and its entry in the owner's listing is not quota-suspended, and then to the stored
      target. */
  lemma ResolvesIffListed(domains: map<string, string>, jobs: seq<Job>, r: Rental,
                          users: Users, clock: int, config: Config, less: Order)
    requires Total(less) && ValidBase(config.baseDomain) && LawfulParser(config)
    requires AdmissibleRun(Start(domains), jobs, config) && r in Run(Start(domains), jobs, config).rows
    requires Allowed(users(r.owner), clock) && users(r.owner).value.id == r.owner
    ensures var s := Run(Start(domains), jobs, config);
            var list := Listing(s, r.owner, users, clock, less);
      && list.Ok?
      && exists k :: (0 <= k < |list.value| && list.value[k].rental == r &&
                      Resolve(s, r.hostname, users, clock, config, less)
                        == Ok(if r.enabled && !list.value[k].quotaSuspended then Some(r.targetUrl) else None))
  {
    RunKeepsInv(domains, jobs, config);
    StoredTargetsServe(domains, jobs, config);
    ResolvesAsListed(Run(Start(domains), jobs, config), r, users, clock, config, less);
  }

  lemma ResolvesAsListed(s: Store, r: Rental, users: Users, clock: int, config: Config, less: Order)
    requires Total(less) && ValidBase(config.baseDomain) && TableInv(s, config)
    requires r in s.rows && Servable(r.targetUrl, config)
    requires Allowed(users(r.owner), clock) && users(r.owner).value.id == r.owner
    ensures var list := Listing(s, r.owner, users, clock, less);
      && list.Ok?
      && exists k :: (0 <= k < |list.value| && list.value[k].rental == r &&
                      Resolve(s, r.hostname, users, clock, config, less)
                        == Ok(if r.enabled && !list.value[k].quotaSuspended then Some(r.targetUrl) else None))
  {
    assert GoodRow(s.domains, r, config);
    RentableHostRecognized(r.hostname, config);
    FindHostUnique(s.rows, r);
    QuotaOrderSorts(s.rows, r.owner, less);
    var q := QuotaOrder(s.rows, r.owner, less);
    var k :| 0 <= k < |q| && q[k] == r;
    var limit := Limit(users(r.owner).value.accountType);
    EligibleById(s.rows, r.owner, limit, less, k);
    var list := Listing(s, r.owner, users, clock, less).value;
    assert list[k].rental == r && list[k].quotaSuspended == (k >= limit);
  }

  lemma EligibleById(rows: seq<Rental>, owner: string, limit: nat, less: Order, k: nat)
    requires Total(less) && DistinctIds(rows)
    requires k < |QuotaOrder(rows, owner, less)|
    ensures var q, eligible := QuotaOrder(rows, owner, less), Eligible(rows, owner, limit, less);
      (exists i :: 0 <= i < |eligible| && eligible[i].id == q[k].id) <==> k < limit
  {
    var q, eligible := QuotaOrder(rows, owner, less), Eligible(rows, owner, limit, less);
    QuotaOrderSorts(rows, owner, less);
    if k < limit {
      assert eligible[k].id == q[k].id;
    }
    forall i | 0 <= i < |eligible| && eligible[i].id == q[k].id ensures k < limit {
      assert eligible[i] == q[i];
      assert q[i] in q && q[k] in q;
      FindUnique(rows, q[i]);
      FindUnique(rows, q[k]);
      AscendingDistinct(q, ByAge(less), i, k);
    }
  }

  /** However many names an owner keeps after a downgrade, at most the current limit resolve. */
  lemma AtMostLimitResolve(s: Store, owner: string, users: Users, clock: int, config: Config, less: Order)
    requires Total(less) && ValidBase(config.baseDomain) && TableInv(s, config)
    requires Allowed(users(owner), clock) && users(owner).value.id == owner
    ensures var serving := set r | r in s.rows && r.owner == owner && Serves(s, r, users, clock, config, less);
      |serving| <= Limit(users(owner).value.accountType)
  {
    var limit := Limit(users(owner).value.accountType);
    var eligible := Eligible(s.rows, owner, limit, less);
    var serving := set r | r in s.rows && r.owner == owner && Serves(s, r, users, clock, config, less);
    forall r | r in serving ensures r in eligible {
      FindHostUnique(s.rows, r);
      ServingIsEligible(s, r, users, clock, config, less);
    }
    SeqCardinality(eligible, serving);
  }

  predicate Serves(s: Store, r: Rental, users: Users, clock: int, config: Config, less: Order) {
    Resolve(s, r.hostname, users, clock, config, less) != Ok(None)
  }

  lemma ServingIsEligible(s: Store, r: Rental, users: Users, clock: int, config: Config, less: Order)
    requires Total(less) && ValidBase(config.baseDomain) && TableInv(s, config)
    requires r in s.rows && Serves(s, r, users, clock, config, less)
    requires users(r.owner).Some? ==> users(r.owner).value.id == r.owner
    ensures users(r.owner).Some? && r in Eligible(s.rows, r.owner, Limit(users(r.owner).value.accountType), less)
  {
    assert GoodRow(s.domains, r, config);
    RentableHostRecognized(r.hostname, config);
    FindHostUnique(s.rows, r);
    var eligible := Eligible(s.rows, r.owner, Limit(users(r.owner).value.accountType), less);
    var k :| 0 <= k < |eligible| && eligible[k].id == r.id;
    QuotaOrderSorts(s.rows, r.owner, less);
    assert eligible[k] in QuotaOrder(s.rows, r.owner, less);
    FindUnique(s.rows, r);
    FindUnique(s.rows, eligible[k]);
  }

  lemma {:induction false} SeqCardinality(s: seq<Rental>, t: set<Rental>)
    requires forall x :: x in t ==> x in s
    ensures |t| <= |s|
  {
    if s == [] {
      assert t == {};
    } else {
      var smaller := t - {s[0]};
      assert s == [s[0]] + s[1..];
      SeqCardinality(s[1..], smaller);
      assert t <= smaller + {s[0]};
      assert |t| <= |smaller + {s[0]}| by { SubsetCardinality(t, smaller + {s[0]}); }
    }
  }

  lemma {:induction false} SubsetCardinality(a: set<Rental>, b: set<Rental>)
    requires a <= b
    ensures |a| <= |b|
  {
    assert b == a + (b - a);
  }

  /** No redirect chain between rentals in any state, reachable or not: a target that is served
      has a host that no spelling of (letter case, port, trailing dot) resolves, for any users at
      any later time and after any further jobs. */
  lemma NoRedirectChain(s: Store, s': Store, config: Config, less: Order,
                        users: Users, clock: int, users': Users, clock': int, host: string, next: string)
    requires LawfulParser(config) && ValidBase(config.baseDomain)
    requires Resolve(s, host, users, clock, config, less).Ok?
    requires Resolve(s, host, users, clock, config, less).value.Some?
    ensures var target := config.parse(Resolve(s, host, users, clock, config, less).value.value);
      && target.Some?
      && (HostSpelling(next, target.value.hostname) ==> Resolve(s', next, users', clock', config, less) == Ok(None))
  {
    var r := FindHost(s.rows, RentalHostname(host, config).value).value;
    AcceptedIsLawful(Text(r.targetUrl), config);
    var u := config.parse(Trim(r.targetUrl)).value;
    if HostSpelling(next, u.hostname) {
      SpellingsStayOutside(next, u.hostname, config);
    }
  }

  // ---------------------------------------------------------------- told by fields

  /** In a strictly ascending sequence, what is before the element at `k` is what stands there. */
  lemma BeforeIsFront(q: seq<Rental>, k: nat, before: (Rental, Rental) -> bool)
    requires Strict(before) && Ascending(q, before) && k < |q|
    ensures (set x | x in q && before(x, q[k])) == (set x | x in q[..k])
    ensures |set x | x in q[..k]| == k
  {
    forall x ensures x in q && before(x, q[k]) <==> x in q[..k] {
      if x in q && before(x, q[k]) {
        var i :| 0 <= i < |q| && q[i] == x;
        assert i < k;
        assert q[..k][i] == x;
      }
    }
    var front := q[..k];
    forall i, j | 0 <= i < j < |front| ensures front[i] != front[j] {
      assert before(q[i], q[j]) && !before(q[j], q[j]);
    }
    DistinctCount(front);
  }

  /** The rows of an owner that are older than a given one. */
  ghost function Older(rows: seq<Rental>, owner: string, r: Rental, less: Order): set<Rental> {
    set x | x in rows && x.owner == owner
            && (less(x.createdAt, r.createdAt) || (x.createdAt == r.createdAt && less(x.id, r.id)))
  }

  lemma OlderIsPlace(rows: seq<Rental>, owner: string, k: nat, less: Order)
    requires Total(less) && DistinctIds(rows) && k < |QuotaOrder(rows, owner, less)|
    ensures |Older(rows, owner, QuotaOrder(rows, owner, less)[k], less)| == k
  {
    var q := QuotaOrder(rows, owner, less);
    QuotaOrderSorts(rows, owner, less);
    BeforeIsFront(q, k, ByAge(less));
    assert Older(rows, owner, q[k], less) == (set x | x in q && ByAge(less)(x, q[k]));
  }

  /** The listing of an open account holds exactly the owner's rows, oldest first by creation time and
      then id, and suspends exactly those with as many older ones as the account may have names. */
  lemma ListingByFields(s: Store, owner: string, users: Users, clock: int, less: Order)
    requires Total(less) && DistinctIds(s.rows)
    ensures Listing(s, owner, users, clock, less).Ok? <==> Open(users(owner), clock)
    ensures !Open(users(owner), clock) ==> Listing(s, owner, users, clock, less) == Err(AccountUnavailable)
    ensures Open(users(owner), clock) ==>
      var list := Listing(s, owner, users, clock, less).value;
      var limit := if users(owner).value.accountType == "CLUB_MEMBER" then 5 else 2;
      && (forall r :: r in s.rows && r.owner == owner <==> exists i :: 0 <= i < |list| && list[i].rental == r)
      && (forall i, j :: 0 <= i < j < |list| ==>
            || less(list[i].rental.createdAt, list[j].rental.createdAt)
            || (list[i].rental.createdAt == list[j].rental.createdAt && less(list[i].rental.id, list[j].rental.id)))
      && (forall i :: 0 <= i < |list| ==>
            (list[i].quotaSuspended <==> |Older(s.rows, owner, list[i].rental, less)| >= limit))
  {
    AllowedIff(users(owner), clock);
    if Open(users(owner), clock) {
      var list := Listing(s, owner, users, clock, less).value;
      OrderByFields(s.rows, owner, less);
      var q := QuotaOrder(s.rows, owner, less);
      assert |list| == |q| && forall i :: 0 <= i < |list| ==> list[i].rental == q[i];
      forall r ensures r in s.rows && r.owner == owner <==> exists i :: 0 <= i < |list| && list[i].rental == r {
        if r in q {
          var i :| 0 <= i < |q| && q[i] == r;
          assert list[i].rental == r;
        }
      }
    }
  }

  lemma OrderByFields(rows: seq<Rental>, owner: string, less: Order)
    requires Total(less) && DistinctIds(rows)
    ensures var q := QuotaOrder(rows, owner, less);
      && (forall r :: r in q <==> r in rows && r.owner == owner)
      && (forall i, j :: 0 <= i < j < |q| ==>
            less(q[i].createdAt, q[j].createdAt) || (q[i].createdAt == q[j].createdAt && less(q[i].id, q[j].id)))
      && forall i :: 0 <= i < |q| ==> |Older(rows, owner, q[i], less)| == i
  {
    var q := QuotaOrder(rows, owner, less);
    QuotaOrderSorts(rows, owner, less);
    forall i, j | 0 <= i < j < |q| ensures
      less(q[i].createdAt, q[j].createdAt) || (q[i].createdAt == q[j].createdAt && less(q[i].id, q[j].id))
    {
      assert ByAge(less)(q[i], q[j]);
    }
    forall i | 0 <= i < |q| ensures |Older(rows, owner, q[i], less)| == i {
      OlderIsPlace(rows, owner, i, less);
    }
  }

  /** A request for a host resolves exactly when its host part names a stored, enabled rental whose
      owner's account is open and has fewer older names than it may have, and then to the target. */
  lemma ResolvesByFields(s: Store, host: string, users: Users, clock: int, config: Config, less: Order, r: Rental)
    requires Total(less) && ValidBase(config.baseDomain) && TableInv(s, config)
    requires r in s.rows && RentalHostname(host, config) == Some(r.hostname) && Servable(r.targetUrl, config)
    requires users(r.owner).Some? ==> users(r.owner).value.id == r.owner
    ensures Resolve(s, host, users, clock, config, less)
         == Ok(if r.enabled && Open(users(r.owner), clock)
                  && |Older(s.rows, r.owner, r, less)|
                     < (if users(r.owner).value.accountType == "CLUB_MEMBER" then 5 else 2)
               then Some(r.targetUrl) else None)
  {
    FindHostUnique(s.rows, r);
    AllowedIff(users(r.owner), clock);
    if r.enabled && Open(users(r.owner), clock) {
      QuotaOrderSorts(s.rows, r.owner, less);
      var q := QuotaOrder(s.rows, r.owner, less);
      var k :| 0 <= k < |q| && q[k] == r;
      OlderIsPlace(s.rows, r.owner, k, less);
      EligibleById(s.rows, r.owner, Limit(users(r.owner).value.accountType), less, k);
    }
  }

  /** Any other host resolves to nothing. */
  lemma UnknownHostsResolveToNothing(s: Store, host: string, users: Users, clock: int, config: Config, less: Order)
    requires RentalHostname(host, config).Some? ==>
               forall i :: 0 <= i < |s.rows| ==> s.rows[i].hostname != RentalHostname(host, config).value
    ensures Resolve(s, host, users, clock, config, less) == Ok(None)
  {
  }
}
