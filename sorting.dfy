/**
 * Python's `sorted(xs, key=...)`: a stable sort, modelled as an insertion
 * sort under an order `le` ("`a` may come before `b`"). `reverse=True`
 * keeps equal elements in their input order, so it is the same sort under
 * the flipped order.
 */
module Sorting {

  /** `le` is total and transitive: an order on keys lifted to the elements. */
  ghost predicate TotalPreorder<T(!new)>(le: (T, T) -> bool) {
    && (forall a, b :: le(a, b) || le(b, a))
    && (forall a, b, c :: le(a, b) && le(b, c) ==> le(a, c))
  }

  predicate SortedBy<T>(xs: seq<T>, le: (T, T) -> bool) {
    forall i, j | 0 <= i < j < |xs| :: le(xs[i], xs[j])
  }

  /** Places `x` after every leading element that may come before it. */
  function InsertBy<T>(x: T, ys: seq<T>, le: (T, T) -> bool): (r: seq<T>)
    ensures multiset(r) == multiset(ys) + multiset{x}
    decreases |ys|
  {
    if ys == [] then [x]
    else if le(ys[0], x) then
      assert ys == [ys[0]] + ys[1..];
      [ys[0]] + InsertBy(x, ys[1..], le)
    else [x] + ys
  }

  /** Each element in input order is inserted into the sorted earlier ones. */
  function SortBy<T>(xs: seq<T>, le: (T, T) -> bool): (r: seq<T>)
    ensures multiset(r) == multiset(xs)
    decreases |xs|
  {
    if xs == [] then []
    else
      assert xs == xs[..|xs| - 1] + [xs[|xs| - 1]];
      InsertBy(xs[|xs| - 1], SortBy(xs[..|xs| - 1], le), le)
  }

  lemma {:induction false} InsertSorted<T(!new)>(x: T, ys: seq<T>, le: (T, T) -> bool)
    requires TotalPreorder(le) && SortedBy(ys, le)
    ensures SortedBy(InsertBy(x, ys, le), le)
    decreases |ys|
  {
    if ys != [] {
      var r := InsertBy(x, ys, le);
      if le(ys[0], x) {
        var tail := InsertBy(x, ys[1..], le);
        InsertSorted(x, ys[1..], le);
        forall j | 0 < j < |r|
          ensures le(r[0], r[j])
        {
          assert r[j] in multiset(tail);
          if r[j] != x {
            assert r[j] in ys[1..];
          }
        }
      } else {
        assert le(x, ys[0]);
      }
    }
  }

  /** The result is sorted. */
  lemma {:induction false} SortBySorted<T(!new)>(xs: seq<T>, le: (T, T) -> bool)
    requires TotalPreorder(le)
    ensures SortedBy(SortBy(xs, le), le)
    decreases |xs|
  {
    if xs != [] {
      SortBySorted(xs[..|xs| - 1], le);
      InsertSorted(xs[|xs| - 1], SortBy(xs[..|xs| - 1], le), le);
    }
  }

  /** Elements tied under `le2` are ordered by `le1`. */
  predicate TiesSortedBy<T>(xs: seq<T>, le2: (T, T) -> bool, le1: (T, T) -> bool) {
    forall i, j | 0 <= i < j < |xs| :: le2(xs[j], xs[i]) ==> le1(xs[i], xs[j])
  }

  lemma {:induction false} InsertTies<T(!new)>(x: T, ys: seq<T>, le1: (T, T) -> bool, le2: (T, T) -> bool)
    requires TotalPreorder(le2)
    requires SortedBy(ys, le2) && TiesSortedBy(ys, le2, le1)
    requires forall y | y in ys :: le1(y, x)
    ensures TiesSortedBy(InsertBy(x, ys, le2), le2, le1)
    decreases |ys|
  {
    if ys != [] {
      var r := InsertBy(x, ys, le2);
      if le2(ys[0], x) {
        var tail := InsertBy(x, ys[1..], le2);
        InsertTies(x, ys[1..], le1, le2);
        forall j | 0 < j < |r| && le2(r[j], r[0])
          ensures le1(r[0], r[j])
        {
          assert r[j] in multiset(tail);
          if r[j] != x {
            var k :| 1 <= k < |ys| && ys[k] == r[j];
          }
        }
      } else {
        forall j | 0 < j < |r|
          ensures !le2(r[j], r[0])
        {
          if j > 1 {
            assert le2(ys[0], ys[j - 1]);
          }
        }
      }
    }
  }

  /**
   * Sorting by `le2` a sequence already sorted by `le1` leaves every tie of
   * `le2` in `le1` order: the double stable sort orders by `le2`, then `le1`.
   */
  lemma {:induction false} SortByTies<T(!new)>(xs: seq<T>, le1: (T, T) -> bool, le2: (T, T) -> bool)
    requires TotalPreorder(le2)
    requires SortedBy(xs, le1)
    ensures TiesSortedBy(SortBy(xs, le2), le2, le1)
    decreases |xs|
  {
    if xs != [] {
      var init, last := xs[..|xs| - 1], xs[|xs| - 1];
      var done := SortBy(init, le2);
      SortByTies(init, le1, le2);
      SortBySorted(init, le2);
      forall y | y in done
        ensures le1(y, last)
      {
        assert y in multiset(init);
        var k :| 0 <= k < |init| && init[k] == y;
      }
      InsertTies(last, done, le1, le2);
    }
  }

  // Small cases, written on sequence displays

  lemma SortByOne<T>(a: T, le: (T, T) -> bool)
    ensures SortBy([a], le) == [a]
  {
    assert [a][..0] == [];
  }

  lemma SortByTwo<T>(a: T, b: T, le: (T, T) -> bool)
    ensures SortBy([a, b], le) == InsertBy(b, [a], le)
  {
    assert [a, b][..1] == [a];
    SortByOne(a, le);
  }

  lemma SortByThree<T>(a: T, b: T, c: T, le: (T, T) -> bool)
    ensures SortBy([a, b, c], le) == InsertBy(c, SortBy([a, b], le), le)
  {
    assert [a, b, c][..2] == [a, b];
  }

  lemma InsertIntoOne<T>(x: T, y: T, le: (T, T) -> bool)
    ensures InsertBy(x, [y], le) == if le(y, x) then [y, x] else [x, y]
  {
    assert [y][1..] == [];
  }

  lemma InsertIntoTwo<T>(x: T, y: T, z: T, le: (T, T) -> bool)
    ensures le(y, x) ==> InsertBy(x, [y, z], le) == [y] + InsertBy(x, [z], le)
    ensures !le(y, x) ==> InsertBy(x, [y, z], le) == [x, y, z]
  {
    assert [y, z][1..] == [z];
  }

  /** Three elements already in order stay in order. */
  lemma SortThreeInOrder<T>(a: T, b: T, c: T, le: (T, T) -> bool)
    requires le(a, b) && le(b, c) && le(a, c)
    ensures SortBy([a, b, c], le) == [a, b, c]
  {
    SortByTwo(a, b, le);
    InsertIntoOne(b, a, le);
    SortByThree(a, b, c, le);
    InsertIntoTwo(c, a, b, le);
    InsertIntoOne(c, b, le);
  }

  /** The second of three goes first and the first goes last. */
  lemma SortThreeRotated<T>(a: T, b: T, c: T, le: (T, T) -> bool)
    requires !le(a, b) && le(b, c) && !le(a, c)
    ensures SortBy([a, b, c], le) == [b, c, a]
  {
    SortByTwo(a, b, le);
    InsertIntoOne(b, a, le);
    SortByThree(a, b, c, le);
    InsertIntoTwo(c, b, a, le);
    InsertIntoOne(c, a, le);
  }
}
