/** The rental records and the ordered table the in-memory adapter keeps them in. */
module RentalRows {
  import opened Text

  datatype Rental = Rental(
    id: string, owner: string, hostname: string, targetUrl: string,
    enabled: bool, version: int, createdAt: string, updatedAt: string)

  datatype User = User(
    id: string, accountType: string, approvalStatus: string,
    bannedAt: Option<int>, banExpiresAt: Option<int>)

  /** Club members may hold five names, everyone else two. */
  function Limit(accountType: string): nat {
    if accountType == "CLUB_MEMBER" then 5 else 2
  }

  predicate Allowed(user: Option<User>, clock: int) {
    && user.Some? && user.value.approvalStatus == "APPROVED"
    && (user.value.bannedAt.None? || (user.value.banExpiresAt.Some? && user.value.banExpiresAt.value <= clock))
  }

  function Or<T>(o: Option<T>, otherwise: T): T {
    if o.Some? then o.value else otherwise
  }

  /** The next version of a row, with the fields that a change names. */
  function Amended(r: Rental, hostname: Option<string>, targetUrl: Option<string>, enabled: Option<bool>, now: string)
    : Rental
  {
    r.(hostname := Or(hostname, r.hostname), targetUrl := Or(targetUrl, r.targetUrl),
       enabled := Or(enabled, r.enabled), version := r.version + 1, updatedAt := now)
  }

  // The table keeps insertion order: a replaced row stays where it is.

  function IndexOf(rows: seq<Rental>, id: string): (k: nat)
    ensures k <= |rows|
    ensures forall i :: 0 <= i < k ==> rows[i].id != id
    ensures k < |rows| ==> rows[k].id == id
  {
    if rows == [] || rows[0].id == id then 0 else 1 + IndexOf(rows[1..], id)
  }

  function IndexOfHost(rows: seq<Rental>, hostname: string): (k: nat)
    ensures k <= |rows|
    ensures forall i :: 0 <= i < k ==> rows[i].hostname != hostname
    ensures k < |rows| ==> rows[k].hostname == hostname
  {
    if rows == [] || rows[0].hostname == hostname then 0 else 1 + IndexOfHost(rows[1..], hostname)
  }

  function Find(rows: seq<Rental>, id: string): Option<Rental> {
    var k := IndexOf(rows, id);
    if k < |rows| then Some(rows[k]) else None
  }

  function FindHost(rows: seq<Rental>, hostname: string): Option<Rental> {
    var k := IndexOfHost(rows, hostname);
    if k < |rows| then Some(rows[k]) else None
  }

  function Put(rows: seq<Rental>, r: Rental): seq<Rental> {
    var k := IndexOf(rows, r.id);
    if k < |rows| then rows[k := r] else rows + [r]
  }

  function Drop(rows: seq<Rental>, id: string): seq<Rental> {
    var k := IndexOf(rows, id);
    if k < |rows| then rows[..k] + rows[k + 1..] else rows
  }

  function OwnedBy(rows: seq<Rental>, owner: string): seq<Rental> {
    if rows == [] then []
    else
      var last := rows[|rows| - 1];
      OwnedBy(rows[..|rows| - 1], owner) + (if last.owner == owner then [last] else [])
  }

  ghost predicate DistinctIds(rows: seq<Rental>) {
    forall i, j :: 0 <= i < j < |rows| ==> rows[i].id != rows[j].id
  }

  ghost predicate DistinctHosts(rows: seq<Rental>) {
    forall i, j :: 0 <= i < j < |rows| ==> rows[i].hostname != rows[j].hostname
  }

  lemma {:induction false} OwnedByConcat(a: seq<Rental>, b: seq<Rental>, owner: string)
    ensures OwnedBy(a + b, owner) == OwnedBy(a, owner) + OwnedBy(b, owner)
  {
    if b == [] {
      assert a + b == a;
    } else {
      OwnedByConcat(a, b[..|b| - 1], owner);
      assert (a + b)[..|a + b| - 1] == a + b[..|b| - 1];
    }
  }

  lemma OwnedByOne(r: Rental, owner: string)
    ensures OwnedBy([r], owner) == if r.owner == owner then [r] else []
  {
    assert [r][..0] == [];
  }

  /** The rows around position `k`, as an owner sees them. */
  lemma {:induction false} OwnedByAround(rows: seq<Rental>, k: nat, owner: string)
    requires k < |rows|
    ensures OwnedBy(rows, owner)
         == OwnedBy(rows[..k], owner) + OwnedBy([rows[k]], owner) + OwnedBy(rows[k + 1..], owner)
  {
    assert rows == (rows[..k] + [rows[k]]) + rows[k + 1..];
    OwnedByConcat(rows[..k] + [rows[k]], rows[k + 1..], owner);
    OwnedByConcat(rows[..k], [rows[k]], owner);
  }

  lemma {:induction false} OwnedByMember(rows: seq<Rental>, owner: string, r: Rental)
    ensures r in OwnedBy(rows, owner) <==> r in rows && r.owner == owner
  {
    if rows != [] {
      var init, last := rows[..|rows| - 1], rows[|rows| - 1];
      OwnedByMember(init, owner, r);
      assert rows == init + [last];
    }
  }

  lemma {:induction false} OwnedByDistinct(rows: seq<Rental>, owner: string)
    requires DistinctIds(rows)
    ensures DistinctIds(OwnedBy(rows, owner))
  {
    if rows != [] {
      var init, last := rows[..|rows| - 1], rows[|rows| - 1];
      OwnedByDistinct(init, owner);
      var o := OwnedBy(init, owner);
      forall i | 0 <= i < |o| ensures o[i].id != last.id {
        OwnedByMember(init, owner, o[i]);
      }
    }
  }

  /** Replacing a row by one of the same owner leaves every holding as large as it was. */
  lemma {:induction false} HoldingsAfterReplacement(rows: seq<Rental>, r: Rental, owner: string)
    requires IndexOf(rows, r.id) < |rows| && rows[IndexOf(rows, r.id)].owner == r.owner
    ensures |OwnedBy(Put(rows, r), owner)| == |OwnedBy(rows, owner)|
  {
    var k := IndexOf(rows, r.id);
    var put := rows[k := r];
    OwnedByOne(r, owner);
    OwnedByOne(rows[k], owner);
    OwnedByAround(rows, k, owner);
    OwnedByAround(put, k, owner);
    assert put[..k] == rows[..k] && put[k + 1..] == rows[k + 1..];
  }

  lemma HoldingsAfterInsertion(rows: seq<Rental>, r: Rental, owner: string)
    ensures OwnedBy(rows + [r], owner) == OwnedBy(rows, owner) + (if r.owner == owner then [r] else [])
  {
    OwnedByOne(r, owner);
    OwnedByConcat(rows, [r], owner);
  }

  lemma {:induction false} HoldingsAfterRemoval(rows: seq<Rental>, id: string, owner: string)
    ensures |OwnedBy(Drop(rows, id), owner)| <= |OwnedBy(rows, owner)|
  {
    var k := IndexOf(rows, id);
    if k < |rows| {
      HoldingsAround(rows, k, owner);
      assert Drop(rows, id) == rows[..k] + rows[k + 1..];
    } else {
      assert Drop(rows, id) == rows;
    }
  }

  lemma {:induction false} HoldingsAround(rows: seq<Rental>, k: nat, owner: string)
    requires k < |rows|
    ensures |OwnedBy(rows[..k] + rows[k + 1..], owner)| <= |OwnedBy(rows, owner)|
  {
    OwnedByAround(rows, k, owner);
    OwnedByConcat(rows[..k], rows[k + 1..], owner);
  }

  lemma PutHolds(rows: seq<Rental>, r: Rental)
    ensures r in Put(rows, r)
  {
    assert Put(rows, r)[IndexOf(rows, r.id)] == r;
  }

  lemma PutTable(rows: seq<Rental>, r: Rental)
    requires DistinctIds(rows)
    ensures DistinctIds(Put(rows, r))
    ensures forall x :: x in Put(rows, r) ==> x == r || (x in rows && x.id != r.id)
  {
    var k := IndexOf(rows, r.id);
    var put := Put(rows, r);
    forall i | 0 <= i < |put| ensures put[i] == r || (put[i] in rows && put[i].id != r.id) {
      assert i != k ==> put[i] == rows[i];
    }
  }

  /** The host names stay distinct when the new one is free, or kept by the row that has it. */
  lemma PutHosts(rows: seq<Rental>, r: Rental)
    requires DistinctIds(rows) && DistinctHosts(rows)
    requires FindHost(rows, r.hostname).None? || (FindHost(rows, r.hostname).value.id == r.id)
    ensures DistinctHosts(Put(rows, r))
  {
    var k := IndexOf(rows, r.id);
    var put := Put(rows, r);
    forall i | 0 <= i < |put| && i != k ensures put[i].hostname != r.hostname {
      assert put[i] == rows[i];
    }
  }

  lemma {:induction false} DropTable(rows: seq<Rental>, id: string)
    requires DistinctIds(rows)
    ensures DistinctIds(Drop(rows, id))
    ensures DistinctHosts(rows) ==> DistinctHosts(Drop(rows, id))
    ensures forall x :: x in Drop(rows, id) <==> x in rows && x.id != id
  {
    var k := IndexOf(rows, id);
    if k < |rows| {
      CutTable(rows, k);
    }
  }

  lemma {:induction false} CutTable(rows: seq<Rental>, k: nat)
    requires k < |rows| && DistinctIds(rows)
    ensures var cut := rows[..k] + rows[k + 1..];
      && DistinctIds(cut) && (DistinctHosts(rows) ==> DistinctHosts(cut))
      && forall x :: x in cut <==> x in rows && x.id != rows[k].id
  {
    var cut := rows[..k] + rows[k + 1..];
    forall i | 0 <= i < |cut| ensures cut[i] == rows[Behind(i, k)] {
    }
    forall x ensures x in cut <==> x in rows && x.id != rows[k].id {
      CutMember(rows, k, x);
    }
  }

  /** Where the row at `i` stood before the row at `k` was cut out. */
  function Behind(i: nat, k: nat): nat {
    if i < k then i else i + 1
  }

  lemma {:induction false} CutMember(rows: seq<Rental>, k: nat, x: Rental)
    requires k < |rows| && DistinctIds(rows)
    ensures x in rows[..k] + rows[k + 1..] <==> x in rows && x.id != rows[k].id
  {
    var cut := rows[..k] + rows[k + 1..];
    if x in cut {
      var i :| 0 <= i < |cut| && cut[i] == x;
      assert rows[Behind(i, k)] == x;
    }
    if x in rows && x.id != rows[k].id {
      var i :| 0 <= i < |rows| && rows[i] == x;
      assert cut[if i < k then i else i - 1] == x;
    }
  }

  /** A host name found belongs to the row that has it. */
  lemma FindHostUnique(rows: seq<Rental>, r: Rental)
    requires DistinctHosts(rows) && r in rows
    ensures FindHost(rows, r.hostname) == Some(r)
  {
    var i :| 0 <= i < |rows| && rows[i] == r;
  }

  lemma FindUnique(rows: seq<Rental>, r: Rental)
    requires DistinctIds(rows) && r in rows
    ensures Find(rows, r.id) == Some(r)
  {
    var i :| 0 <= i < |rows| && rows[i] == r;
  }
}
