/** Ordering of query results. A `.sort({ createdAt: -1 })` query or an
    aggregation `$sort` stage returns the matching documents in an order that
    respects a comparator; the model computes one such order with an
    insertion sort and proves that it is ordered and a permutation. */
module Sorting {
  import opened Common

  /** `before(a, b)`: `a` may be listed ahead of `b`. A usable comparator is
      total and transitive. */
  ghost predicate TotalPreorder<T(!new)>(before: (T, T) -> bool)
  {
    (forall a, b :: before(a, b) || before(b, a))
    && (forall a, b, c :: before(a, b) && before(b, c) ==> before(a, c))
  }

  ghost predicate Sorted<T>(xs: seq<T>, before: (T, T) -> bool)
  {
    forall i, j :: 0 <= i < j < |xs| ==> before(xs[i], xs[j])
  }

  /** Places `x` ahead of the first element it may precede. */
  function Insert<T(!new)>(x: T, xs: seq<T>, before: (T, T) -> bool): (r: seq<T>)
    requires TotalPreorder(before)
    requires Sorted(xs, before)
    ensures multiset(r) == multiset(xs) + multiset{x}
    ensures Sorted(r, before)
  {
    if xs == [] then [x]
    else if before(x, xs[0]) then
      assert forall k :: 0 <= k < |xs| ==> before(x, xs[k]) by {
        forall k | 0 < k < |xs| ensures before(x, xs[k]) {
          assert before(xs[0], xs[k]);
        }
      }
      ConsSorted(x, xs, before);
      [x] + xs
    else
      var rest := Insert(x, xs[1..], before);
      assert xs == [xs[0]] + xs[1..];
      assert forall k :: 0 <= k < |rest| ==> before(xs[0], rest[k]) by {
        forall k | 0 <= k < |rest|
          ensures before(xs[0], rest[k])
        {
          assert rest[k] in multiset(rest);
          assert rest[k] == x || rest[k] in multiset(xs[1..]);
        }
      }
      ConsSorted(xs[0], rest, before);
      [xs[0]] + rest
  }

  lemma ConsSorted<T>(h: T, rest: seq<T>, before: (T, T) -> bool)
    requires Sorted(rest, before)
    requires forall k :: 0 <= k < |rest| ==> before(h, rest[k])
    ensures Sorted([h] + rest, before)
  {
    var r := [h] + rest;
    forall i, j | 0 <= i < j < |r| ensures before(r[i], r[j]) {
      assert r[j] == rest[j - 1];
      if i > 0 {
        assert r[i] == rest[i - 1];
      }
    }
  }

  /** The input, reordered so that every element may precede every later one. */
  function SortBy<T(!new)>(xs: seq<T>, before: (T, T) -> bool): (r: seq<T>)
    requires TotalPreorder(before)
    ensures multiset(r) == multiset(xs)
    ensures |r| == |xs|
    ensures Sorted(r, before)
  {
    if xs == [] then []
    else
      assert xs == [xs[0]] + xs[1..];
      var r := Insert(xs[0], SortBy(xs[1..], before), before);
      assert |r| == |multiset(r)|;
      r
  }

  /** Newest first: a larger timestamp goes ahead. */
  function NewestFirst<T(!new)>(stamp: T -> int): ((T, T) -> bool)
  {
    (a: T, b: T) => stamp(a) >= stamp(b)
  }

  lemma NewestFirstIsPreorder<T(!new)>(stamp: T -> int)
    ensures TotalPreorder(NewestFirst(stamp))
  {
  }

  /** `.sort({ createdAt: -1 })`. */
  function SortNewestFirst<T(!new)>(xs: seq<T>, stamp: T -> int): (r: seq<T>)
    ensures multiset(r) == multiset(xs)
    ensures |r| == |xs|
    ensures forall i, j :: 0 <= i < j < |r| ==> stamp(r[i]) >= stamp(r[j])
    ensures forall k :: 0 <= k < |r| ==> r[k] in xs
  {
    NewestFirstIsPreorder(stamp);
    var r := SortBy(xs, NewestFirst(stamp));
    assert forall i, j :: 0 <= i < j < |r| ==> NewestFirst(stamp)(r[i], r[j]);
    assert forall k :: 0 <= k < |r| ==> r[k] in multiset(xs);
    r
  }

  /** `.sort({ createdAt: -1 }).skip((page - 1) * limit).limit(limit)`. */
  function NewestPage<T(!new)>(xs: seq<T>, stamp: T -> int, page: nat, limit: nat): (s: seq<T>)
    requires page >= 1
    ensures s == Page(SortNewestFirst(xs, stamp), page, limit)
    ensures |s| <= limit
    ensures forall k :: 0 <= k < |s| ==> s[k] in xs
    ensures forall i, j :: 0 <= i < j < |s| ==> stamp(s[i]) >= stamp(s[j])
  {
    var sorted := SortNewestFirst(xs, stamp);
    PageOfSorted(xs, sorted, stamp, page, limit);
    Page(sorted, page, limit)
  }

  lemma PageOfSorted<T>(xs: seq<T>, sorted: seq<T>, stamp: T -> int, page: nat, limit: nat)
    requires page >= 1
    requires forall k :: 0 <= k < |sorted| ==> sorted[k] in xs
    requires forall i, j :: 0 <= i < j < |sorted| ==> stamp(sorted[i]) >= stamp(sorted[j])
    ensures var s := Page(sorted, page, limit);
      (forall k :: 0 <= k < |s| ==> s[k] in xs) && forall i, j :: 0 <= i < j < |s| ==> stamp(s[i]) >= stamp(s[j])
  {
    var s := Page(sorted, page, limit);
    var start := Skip(page, limit);
    forall k | 0 <= k < |s| ensures s[k] in xs {
      assert s[k] == sorted[start + k];
    }
    forall i, j | 0 <= i < j < |s| ensures stamp(s[i]) >= stamp(s[j]) {
      assert s[i] == sorted[start + i] && s[j] == sorted[start + j];
    }
  }

  /** When everything fits on the first page, that page is a reordering of
      the whole input. */
  lemma {:induction false} FirstPageHoldsAll<T(!new)>(xs: seq<T>, stamp: T -> int, limit: nat)
    requires |xs| <= limit
    ensures multiset(NewestPage(xs, stamp, 1, limit)) == multiset(xs)
  {
    var sorted := SortNewestFirst(xs, stamp);
  }

  /** The `k`-th newest row is shown on page `k / limit + 1`, which the page
      count `CeilDiv(|xs|, limit)` announces, and on no other page. */
  lemma {:induction false} NewestRowOnOnePage<T(!new)>(xs: seq<T>, stamp: T -> int, limit: nat, k: nat) returns (page: nat)
    requires limit >= 1 && k < |xs|
    ensures page == k / limit + 1 && page <= CeilDiv(|xs|, limit)
    ensures SortNewestFirst(xs, stamp)[k] in NewestPage(xs, stamp, page, limit)
    ensures forall p :: p >= 1 && Skip(p, limit) <= k < Skip(p, limit) + limit ==> p == page
  {
    var sorted := SortNewestFirst(xs, stamp);
    page := k / limit + 1;
    PageOfIndex(|xs|, limit, k);
    OnItsPage(sorted, page, limit, k);
    forall p | p >= 1 && Skip(p, limit) <= k < Skip(p, limit) + limit ensures p == page {
      OnlyPageOfIndex(limit, k, p);
    }
  }

  /** Every row of `xs` is shown on some page the page count announces. */
  lemma {:induction false} EveryRowIsListed<T(!new)>(xs: seq<T>, stamp: T -> int, limit: nat, x: T) returns (page: nat)
    requires limit >= 1 && x in xs
    ensures 1 <= page <= CeilDiv(|xs|, limit) && x in NewestPage(xs, stamp, page, limit)
  {
    page := EveryRowIsListedBy(xs, SortNewestFirst(xs, stamp), limit, x);
  }

  /** Every row of `xs` is on some page, within the page count, of any
      reordering of `xs`. */
  lemma {:induction false} EveryRowIsListedBy<T>(xs: seq<T>, sorted: seq<T>, limit: nat, x: T) returns (page: nat)
    requires limit >= 1 && multiset(sorted) == multiset(xs) && |sorted| == |xs| && x in xs
    ensures 1 <= page <= CeilDiv(|xs|, limit) && x in Page(sorted, page, limit)
  {
    assert x in multiset(sorted);
    assert exists k :: 0 <= k < |sorted| && sorted[k] == x;
    var k :| 0 <= k < |sorted| && sorted[k] == x;
    page := k / limit + 1;
    PageOfIndex(|xs|, limit, k);
    OnItsPage(sorted, page, limit, k);
  }

  /** The survivors of a filter keep the order they had. */
  lemma {:induction false} FilterKeepsOrder<T>(xs: seq<T>, before: (T, T) -> bool, p: T -> bool)
    requires Sorted(xs, before)
    ensures Sorted(Filter(xs, p), before)
  {
    if xs != [] {
      var rest := xs[1..];
      assert Sorted(rest, before) by {
        forall i, j | 0 <= i < j < |rest| ensures before(rest[i], rest[j]) {
          assert rest[i] == xs[i + 1] && rest[j] == xs[j + 1];
        }
      }
      FilterKeepsOrder(rest, before, p);
      if p(xs[0]) {
        var r := Filter(xs, p);
        var fr := Filter(rest, p);
        assert r == [xs[0]] + fr;
        forall j | 0 < j < |r| ensures before(r[0], r[j]) {
          assert r[j] == fr[j - 1];
          assert fr[j - 1] in rest;
          var k :| 0 <= k < |rest| && rest[k] == fr[j - 1];
          assert rest[k] == xs[k + 1];
        }
      }
    }
  }

  // ---------------------------------------------------------------------
  // Strings in ascending order (`.sort({ username: 1 })`)
  // ---------------------------------------------------------------------

  /** Lexicographic order by code point, a prefix ahead of its extensions:
      the binary string order of the store. */
  predicate LexLeq(a: string, b: string)
  {
    a == [] || (b != [] && (a[0] < b[0] || (a[0] == b[0] && LexLeq(a[1..], b[1..]))))
  }

  lemma {:induction false} LexLeqTotal(a: string, b: string)
    ensures LexLeq(a, b) || LexLeq(b, a)
  {
    if a != [] && b != [] && a[0] == b[0] {
      LexLeqTotal(a[1..], b[1..]);
    }
  }

  lemma {:induction false} LexLeqTransitive(a: string, b: string, c: string)
    requires LexLeq(a, b) && LexLeq(b, c)
    ensures LexLeq(a, c)
  {
    if a != [] && a[0] == b[0] && b[0] == c[0] {
      LexLeqTransitive(a[1..], b[1..], c[1..]);
    }
  }

  /** Ascending by a string key. */
  function Ascending<T(!new)>(key: T -> string): ((T, T) -> bool)
  {
    (a: T, b: T) => LexLeq(key(a), key(b))
  }

  lemma AscendingIsPreorder<T(!new)>(key: T -> string)
    ensures TotalPreorder(Ascending(key))
  {
    forall a: T, b: T ensures Ascending(key)(a, b) || Ascending(key)(b, a) {
      LexLeqTotal(key(a), key(b));
    }
    forall a: T, b: T, c: T | Ascending(key)(a, b) && Ascending(key)(b, c) ensures Ascending(key)(a, c) {
      LexLeqTransitive(key(a), key(b), key(c));
    }
  }

  /** A page of a sorted reordering of `xs` holds elements of `xs`, in order. */
  lemma PageOfSortedBy<T>(xs: seq<T>, sorted: seq<T>, before: (T, T) -> bool, page: nat, limit: nat)
    requires page >= 1
    requires multiset(sorted) == multiset(xs) && Sorted(sorted, before)
    ensures var s := Page(sorted, page, limit);
      (forall k :: 0 <= k < |s| ==> s[k] in xs) && Sorted(s, before)
  {
    var s := Page(sorted, page, limit);
    var start := Skip(page, limit);
    forall k | 0 <= k < |s| ensures s[k] in xs {
      assert s[k] == sorted[start + k];
      assert s[k] in multiset(sorted);
    }
    forall i, j | 0 <= i < j < |s| ensures before(s[i], s[j]) {
      assert s[i] == sorted[start + i] && s[j] == sorted[start + j];
    }
  }
}
