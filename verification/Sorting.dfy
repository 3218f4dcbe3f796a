/** Sorting by a strict order, as the source does with `Array.sort`: what it keeps, and that the
    result is determined by the elements. */
module Sorting {

  /** The string comparison the source sorts by, as a strict total order. */
  type Order = (string, string) -> bool

  ghost predicate Total(less: Order) {
    && (forall a :: !less(a, a))
    && (forall a, b :: a != b ==> less(a, b) || less(b, a))
    && (forall a, b, c :: less(a, b) && less(b, c) ==> less(a, c))
  }

  ghost predicate Strict<T(!new)>(before: (T, T) -> bool) {
    && (forall a :: !before(a, a))
    && (forall a, b, c :: before(a, b) && before(b, c) ==> before(a, c))
  }

  /** Every two elements of `s` are comparable. */
  ghost predicate Linear<T>(s: seq<T>, before: (T, T) -> bool) {
    forall i, j :: 0 <= i < j < |s| ==> before(s[i], s[j]) || before(s[j], s[i])
  }

  ghost predicate Ascending<T>(s: seq<T>, before: (T, T) -> bool) {
    forall i, j :: 0 <= i < j < |s| ==> before(s[i], s[j])
  }

  function InsertSorted<T>(x: T, s: seq<T>, before: (T, T) -> bool): seq<T> {
    if s == [] || before(x, s[0]) then [x] + s else [s[0]] + InsertSorted(x, s[1..], before)
  }

  function Sorted<T>(s: seq<T>, before: (T, T) -> bool): seq<T> {
    if s == [] then [] else InsertSorted(s[0], Sorted(s[1..], before), before)
  }

  function Take<T>(s: seq<T>, n: nat): (r: seq<T>)
    ensures |r| <= n && r <= s
  {
    if |s| <= n then s else s[..n]
  }

  lemma {:induction false} InsertSortedMembers<T>(x: T, s: seq<T>, before: (T, T) -> bool, y: T)
    ensures y in InsertSorted(x, s, before) <==> y == x || y in s
    ensures |InsertSorted(x, s, before)| == |s| + 1
  {
    if s != [] && !before(x, s[0]) {
      InsertSortedMembers(x, s[1..], before, y);
      assert s == [s[0]] + s[1..];
    }
  }

  lemma {:induction false} InsertSortedAscending<T(!new)>(x: T, s: seq<T>, before: (T, T) -> bool)
    requires Strict(before) && Ascending(s, before)
    requires forall i :: 0 <= i < |s| ==> before(x, s[i]) || before(s[i], x)
    ensures Ascending(InsertSorted(x, s, before), before)
  {
    if s == [] {
    } else if before(x, s[0]) {
      assert forall i :: 1 <= i < |s| ==> before(s[0], s[i]);
    } else {
      assert forall i :: 0 <= i < |s[1..]| ==> s[1..][i] == s[i + 1];
      InsertSortedAscending(x, s[1..], before);
      var tail := InsertSorted(x, s[1..], before);
      forall i | 0 <= i < |tail| ensures before(s[0], tail[i]) {
        InsertSortedMembers(x, s[1..], before, tail[i]);
      }
    }
  }

  lemma {:induction false} SortedMembers<T>(s: seq<T>, before: (T, T) -> bool, y: T)
    ensures y in Sorted(s, before) <==> y in s
    ensures |Sorted(s, before)| == |s|
  {
    if s != [] {
      SortedMembers(s[1..], before, y);
      InsertSortedMembers(s[0], Sorted(s[1..], before), before, y);
      assert s == [s[0]] + s[1..];
    }
  }

  lemma {:induction false} SortedAscending<T(!new)>(s: seq<T>, before: (T, T) -> bool)
    requires Strict(before) && Linear(s, before)
    ensures Ascending(Sorted(s, before), before)
  {
    if s != [] {
      var rest := s[1..];
      assert forall i :: 0 <= i < |rest| ==> rest[i] == s[i + 1];
      SortedAscending(rest, before);
      var tail := Sorted(rest, before);
      forall i | 0 <= i < |tail| ensures before(s[0], tail[i]) || before(tail[i], s[0]) {
        SortedMembers(rest, before, tail[i]);
      }
      InsertSortedAscending(s[0], tail, before);
    }
  }

  /** An ascending sequence is determined by its elements. */
  lemma {:induction false} AscendingUnique<T(!new)>(a: seq<T>, b: seq<T>, before: (T, T) -> bool)
    requires Strict(before) && Ascending(a, before) && Ascending(b, before)
    requires forall x :: x in a <==> x in b
    ensures a == b
  {
    assert (a != [] ==> a[0] in a) && (b != [] ==> b[0] in b);
    if a != [] {
      var i :| 0 <= i < |b| && b[i] == a[0];
      var j :| 0 <= j < |a| && a[j] == b[0];
      assert a[0] == b[0];
      forall x ensures x in a[1..] <==> x in b[1..] {
        HeadOnce(a, before, x);
        HeadOnce(b, before, x);
      }
      AscendingUnique(a[1..], b[1..], before);
    }
  }

  lemma HeadOnce<T(!new)>(a: seq<T>, before: (T, T) -> bool, x: T)
    requires Strict(before) && Ascending(a, before) && a != []
    ensures x in a[1..] <==> x in a && x != a[0]
  {
    assert a == [a[0]] + a[1..];
    assert forall i :: 1 <= i < |a| ==> before(a[0], a[i]);
  }

  lemma AscendingDistinct<T(!new)>(a: seq<T>, before: (T, T) -> bool, i: nat, j: nat)
    requires Strict(before) && Ascending(a, before)
    requires i < |a| && j < |a| && a[i] == a[j]
    ensures i == j
  {
  }

  // ---------------------------------------------------------------- one element taken out

  lemma GapAscending<T>(q: seq<T>, k: nat, before: (T, T) -> bool)
    requires Ascending(q, before) && k < |q|
    ensures Ascending(q[..k] + q[k + 1..], before)
  {
    var gap := q[..k] + q[k + 1..];
    assert forall i :: 0 <= i < |gap| ==> gap[i] == q[if i < k then i else i + 1];
  }

  lemma GapMembers<T(!new)>(q: seq<T>, k: nat, x: T, before: (T, T) -> bool)
    requires Strict(before) && Ascending(q, before) && k < |q|
    ensures x in q[..k] + q[k + 1..] <==> x in q && x != q[k]
  {
    var gap := q[..k] + q[k + 1..];
    if x in q && x != q[k] {
      var i :| 0 <= i < |q| && q[i] == x;
      assert gap[if i < k then i else i - 1] == x;
    }
    if x in gap {
      var i :| 0 <= i < |gap| && gap[i] == x;
      assert q[if i < k then i else i + 1] == x;
    }
  }

  lemma GapPrefix<T>(q: seq<T>, k: nat, limit: nat)
    requires k < |q|
    ensures k >= limit ==> Take(q[..k] + q[k + 1..], limit) == Take(q, limit)
    ensures k < limit ==>
      Take(q[..k] + q[k + 1..], limit) == q[..k] + (if |q| > limit then q[k + 1..limit + 1] else q[k + 1..])
  {
  }
}
