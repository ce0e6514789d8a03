/** The stable sort that `Array.prototype.sort` performs for a consistent comparator. */
module Sorting {

  /** `leq(a, b)` holds when the comparator does not put `b` strictly before `a`. */
  ghost predicate TotalPreorder<T(!new)>(leq: (T, T) -> bool) {
    && (forall a, b :: leq(a, b) || leq(b, a))
    && (forall a, b, c :: leq(a, b) && leq(b, c) ==> leq(a, c))
  }

  ghost predicate Sorted<T>(xs: seq<T>, leq: (T, T) -> bool) {
    forall i, j :: 0 <= i < j < |xs| ==> leq(xs[i], xs[j])
  }

  function Insert<T>(x: T, xs: seq<T>, leq: (T, T) -> bool): (r: seq<T>)
    ensures |r| == |xs| + 1
  {
    if xs == [] || leq(x, xs[0]) then [x] + xs else [xs[0]] + Insert(x, xs[1..], leq)
  }

  function Sort<T>(xs: seq<T>, leq: (T, T) -> bool): (r: seq<T>)
    ensures |r| == |xs|
  {
    if xs == [] then [] else Insert(xs[0], Sort(xs[1..], leq), leq)
  }

  /** The elements that tie with `x`, in order. */
  ghost function Ties<T>(xs: seq<T>, x: T, leq: (T, T) -> bool): seq<T> {
    if xs == [] then []
    else (if leq(xs[0], x) && leq(x, xs[0]) then [xs[0]] else []) + Ties(xs[1..], x, leq)
  }

  lemma InsertFront<T>(x: T, xs: seq<T>, leq: (T, T) -> bool)
    requires xs == [] || leq(x, xs[0])
    ensures Insert(x, xs, leq) == [x] + xs
  {}

  lemma InsertPast<T>(x: T, head: T, rest: seq<T>, leq: (T, T) -> bool)
    requires !leq(x, head)
    ensures Insert(x, [head] + rest, leq) == [head] + Insert(x, rest, leq)
  {
    assert ([head] + rest)[1..] == rest;
  }

  lemma {:induction false} InsertAddsOne<T>(x: T, xs: seq<T>, leq: (T, T) -> bool)
    ensures multiset(Insert(x, xs, leq)) == multiset{x} + multiset(xs)
  {
    hide Insert;
    if xs == [] || leq(x, xs[0]) {
      InsertFront(x, xs, leq);
    } else {
      assert xs == [xs[0]] + xs[1..];
      InsertPast(x, xs[0], xs[1..], leq);
      InsertAddsOne(x, xs[1..], leq);
    }
  }

  lemma PrependSorted<T(!new)>(head: T, rest: seq<T>, leq: (T, T) -> bool)
    requires Sorted(rest, leq) && forall i :: 0 <= i < |rest| ==> leq(head, rest[i])
    ensures Sorted([head] + rest, leq)
  {}

  lemma HeadIsLeast<T(!new)>(xs: seq<T>, leq: (T, T) -> bool)
    requires TotalPreorder(leq) && Sorted(xs, leq) && xs != []
    ensures Sorted(xs[1..], leq) && forall y :: y in xs ==> leq(xs[0], y)
  {
    assert leq(xs[0], xs[0]);
  }

  lemma {:induction false} InsertSorted<T(!new)>(x: T, xs: seq<T>, leq: (T, T) -> bool)
    requires TotalPreorder(leq) && Sorted(xs, leq)
    ensures Sorted(Insert(x, xs, leq), leq)
    ensures multiset(Insert(x, xs, leq)) == multiset{x} + multiset(xs)
  {
    hide Insert, Sorted;
    InsertAddsOne(x, xs, leq);
    if xs == [] {
      InsertFront(x, xs, leq);
      PrependSorted(x, xs, leq);
    } else if leq(x, xs[0]) {
      InsertFront(x, xs, leq);
      HeadIsLeast(xs, leq);
      forall i | 0 <= i < |xs| ensures leq(x, xs[i]) { assert leq(xs[0], xs[i]); }
      PrependSorted(x, xs, leq);
    } else {
      var head, rest := xs[0], xs[1..];
      assert xs == [head] + rest;
      HeadIsLeast(xs, leq);
      InsertSorted(x, rest, leq);
      InsertPast(x, head, rest, leq);
      var r := Insert(x, rest, leq);
      forall i | 0 <= i < |r| ensures leq(head, r[i]) {
        assert r[i] in multiset(r);
        if r[i] != x { assert r[i] in multiset(rest) && r[i] in xs; }
      }
      PrependSorted(head, r, leq);
    }
  }

  /** Sorting orders the elements and loses or invents none. */
  lemma {:induction false} SortIsSortedPermutation<T(!new)>(xs: seq<T>, leq: (T, T) -> bool)
    requires TotalPreorder(leq)
    ensures Sorted(Sort(xs, leq), leq)
    ensures multiset(Sort(xs, leq)) == multiset(xs)
  {
    if xs != [] {
      assert xs == [xs[0]] + xs[1..];
      SortIsSortedPermutation(xs[1..], leq);
      InsertSorted(xs[0], Sort(xs[1..], leq), leq);
    }
  }

  lemma {:induction false} InsertKeepsTies<T(!new)>(x: T, xs: seq<T>, y: T, leq: (T, T) -> bool)
    requires TotalPreorder(leq) && Sorted(xs, leq)
    ensures Ties(Insert(x, xs, leq), y, leq) == Ties([x] + xs, y, leq)
  {
    assert ([x] + xs)[1..] == xs;
    if xs == [] || leq(x, xs[0]) {
    } else {
      InsertKeepsTies(x, xs[1..], y, leq);
      var r := Insert(x, xs, leq);
      assert r[0] == xs[0] && r[1..] == Insert(x, xs[1..], leq);
      assert ([x] + xs[1..])[1..] == xs[1..];
    }
  }

  /** Elements that compare equal keep the order they came in. */
  lemma {:induction false} SortIsStable<T(!new)>(xs: seq<T>, y: T, leq: (T, T) -> bool)
    requires TotalPreorder(leq)
    ensures Ties(Sort(xs, leq), y, leq) == Ties(xs, y, leq)
  {
    if xs != [] {
      SortIsStable(xs[1..], y, leq);
      SortIsSortedPermutation(xs[1..], leq);
      InsertKeepsTies(xs[0], Sort(xs[1..], leq), y, leq);
      var r := Sort(xs[1..], leq);
      assert ([xs[0]] + r)[1..] == r;
    }
  }

  function Map<T, U>(f: T -> U, xs: seq<T>): (r: seq<U>)
    ensures |r| == |xs| && forall i :: 0 <= i < |xs| ==> r[i] == f(xs[i])
  {
    seq(|xs|, i requires 0 <= i < |xs| => f(xs[i]))
  }

  lemma MapStep<T, U>(f: T -> U, x: T, rest: seq<T>)
    ensures Map(f, [x] + rest) == [f(x)] + Map(f, rest)
  {}

  lemma {:induction false} InsertCommutesWithMap<T(!new)>(x: T, xs: seq<T>, f: T -> T, leq: (T, T) -> bool)
    requires forall a, b :: leq(f(a), f(b)) == leq(a, b)
    ensures Insert(f(x), Map(f, xs), leq) == Map(f, Insert(x, xs, leq))
  {
    hide Insert, Map;
    if xs == [] || leq(x, xs[0]) {
      InsertFront(x, xs, leq);
      InsertFront(f(x), Map(f, xs), leq);
      MapStep(f, x, xs);
    } else {
      var head, rest := xs[0], xs[1..];
      assert xs == [head] + rest;
      InsertCommutesWithMap(x, rest, f, leq);
      InsertPast(x, head, rest, leq);
      MapStep(f, head, rest);
      InsertPast(f(x), f(head), Map(f, rest), leq);
      MapStep(f, head, Insert(x, rest, leq));
    }
  }

  /** Changing fields the comparator does not look at commutes with sorting. */
  lemma {:induction false} SortCommutesWithMap<T(!new)>(xs: seq<T>, f: T -> T, leq: (T, T) -> bool)
    requires forall a, b :: leq(f(a), f(b)) == leq(a, b)
    ensures Sort(Map(f, xs), leq) == Map(f, Sort(xs, leq))
  {
    if xs != [] {
      SortCommutesWithMap(xs[1..], f, leq);
      assert Map(f, xs)[1..] == Map(f, xs[1..]);
      InsertCommutesWithMap(xs[0], Sort(xs[1..], leq), f, leq);
    }
  }

  lemma TiesOfFirst<T(!new)>(xs: seq<T>, y: T, leq: (T, T) -> bool)
    requires xs != [] && leq(xs[0], y) && leq(y, xs[0])
    ensures Ties(xs, y, leq) == [xs[0]] + Ties(xs[1..], y, leq)
  {}

  lemma TiesOfOther<T(!new)>(xs: seq<T>, y: T, leq: (T, T) -> bool)
    requires xs != [] && !(leq(xs[0], y) && leq(y, xs[0]))
    ensures Ties(xs, y, leq) == Ties(xs[1..], y, leq)
  {}

  ghost predicate SameTies<T(!new)>(a: seq<T>, b: seq<T>, leq: (T, T) -> bool) {
    forall y :: Ties(a, y, leq) == Ties(b, y, leq)
  }

  lemma TiesAreMembers<T(!new)>(xs: seq<T>, y: T, leq: (T, T) -> bool)
    ensures forall z :: z in Ties(xs, y, leq) ==> z in xs
  {}

  lemma {:induction false} TiesWithItself<T(!new)>(xs: seq<T>, y: T, leq: (T, T) -> bool)
    requires TotalPreorder(leq) && y in xs
    ensures y in Ties(xs, y, leq)
  {
    assert leq(y, y);
    if xs[0] == y {
    } else {
      TiesWithItself(xs[1..], y, leq);
    }
  }

  /** Of two sorted sequences with the same ties, the first elements are the same. */
  lemma SameFirst<T(!new)>(a: seq<T>, b: seq<T>, leq: (T, T) -> bool)
    requires TotalPreorder(leq) && Sorted(a, leq) && Sorted(b, leq) && SameTies(a, b, leq) && a != []
    ensures b != [] && a[0] == b[0]
  {
    assert Ties(a, a[0], leq) == Ties(b, a[0], leq);
    TiesWithItself(a, a[0], leq);
    TiesAreMembers(b, a[0], leq);
    var i :| 0 <= i < |b| && b[i] == a[0];
    assert leq(b[0], a[0]) by { if i > 0 { assert leq(b[0], b[i]); } else { assert leq(b[0], b[0]); } }
    assert Ties(a, b[0], leq) == Ties(b, b[0], leq);
    TiesWithItself(b, b[0], leq);
    TiesAreMembers(a, b[0], leq);
    var j :| 0 <= j < |a| && a[j] == b[0];
    assert leq(a[0], b[0]) by { if j > 0 { assert leq(a[0], a[j]); } else { assert leq(a[0], a[0]); } }
    assert leq(a[0], a[0]);
    TiesOfFirst(a, a[0], leq);
    TiesOfFirst(b, a[0], leq);
  }

  /** A sorted sequence is determined by the order of its ties. */
  lemma {:induction false} SortedWithTies<T(!new)>(a: seq<T>, b: seq<T>, leq: (T, T) -> bool)
    requires TotalPreorder(leq) && Sorted(a, leq) && Sorted(b, leq) && SameTies(a, b, leq)
    ensures a == b
  {
    hide Ties;
    if a == [] {
      if b != [] { SameFirst(b, a, leq); }
    } else {
      SameFirst(a, b, leq);
      forall y ensures Ties(a[1..], y, leq) == Ties(b[1..], y, leq) {
        assert Ties(a, y, leq) == Ties(b, y, leq);
        if leq(a[0], y) && leq(y, a[0]) {
          TiesOfFirst(a, y, leq);
          TiesOfFirst(b, y, leq);
          assert Ties(a, y, leq)[1..] == Ties(a[1..], y, leq) && Ties(b, y, leq)[1..] == Ties(b[1..], y, leq);
        } else {
          TiesOfOther(a, y, leq);
          TiesOfOther(b, y, leq);
        }
      }
      SortedWithTies(a[1..], b[1..], leq);
      assert a == [a[0]] + a[1..] && b == [b[0]] + b[1..];
    }
  }

  /** Two listings sort alike exactly when elements that compare equal stand in the same order in both. */
  lemma SortsAlikeIff<T(!new)>(xs: seq<T>, ys: seq<T>, leq: (T, T) -> bool)
    requires TotalPreorder(leq)
    ensures Sort(xs, leq) == Sort(ys, leq) <==> SameTies(xs, ys, leq)
  {
    hide Sort, Ties, Sorted;
    SortIsSortedPermutation(xs, leq);
    SortIsSortedPermutation(ys, leq);
    forall y
      ensures Ties(Sort(xs, leq), y, leq) == Ties(xs, y, leq) && Ties(Sort(ys, leq), y, leq) == Ties(ys, y, leq)
    {
      SortIsStable(xs, y, leq);
      SortIsStable(ys, y, leq);
    }
    if SameTies(xs, ys, leq) {
      SortedWithTies(Sort(xs, leq), Sort(ys, leq), leq);
    }
    if Sort(xs, leq) == Sort(ys, leq) {
      forall y ensures Ties(xs, y, leq) == Ties(ys, y, leq) {
        assert Ties(Sort(xs, leq), y, leq) == Ties(Sort(ys, leq), y, leq);
      }
    }
  }

  function Filter<T>(keep: T -> bool, rows: seq<T>): seq<T> {
    if rows == [] then []
    else Filter(keep, rows[..|rows| - 1]) + (if keep(rows[|rows| - 1]) then [rows[|rows| - 1]] else [])
  }

  lemma {:induction false} FilterHead<T>(keep: T -> bool, x: T, xs: seq<T>)
    ensures Filter(keep, [x] + xs) == (if keep(x) then [x] else []) + Filter(keep, xs)
  {
    if xs == [] {
      assert [x] + xs == [x] && [x][..0] == [];
    } else {
      FilterHead(keep, x, xs[..|xs| - 1]);
      assert ([x] + xs)[..|xs|] == [x] + xs[..|xs| - 1];
    }
  }

  lemma {:induction false} FilteredMembers<T>(keep: T -> bool, xs: seq<T>)
    ensures forall y :: y in Filter(keep, xs) ==> y in xs
  {
    if xs != [] { FilteredMembers(keep, xs[..|xs| - 1]); }
  }

  lemma NotPastKept<T(!new)>(keep: T -> bool, x: T, xs: seq<T>, leq: (T, T) -> bool)
    requires TotalPreorder(leq) && Sorted(xs, leq) && (xs == [] || leq(x, xs[0]))
    ensures Filter(keep, xs) == [] || leq(x, Filter(keep, xs)[0])
  {
    FilteredMembers(keep, xs);
    var kept := Filter(keep, xs);
    if kept != [] {
      assert kept[0] in kept;
      var i :| 0 <= i < |xs| && xs[i] == kept[0];
      assert leq(xs[0], xs[i]) by { if i == 0 { assert leq(xs[0], xs[0]); } }
    }
  }

  lemma {:induction false} FilterOfInsert<T(!new)>(keep: T -> bool, x: T, xs: seq<T>, leq: (T, T) -> bool)
    requires TotalPreorder(leq) && Sorted(xs, leq)
    ensures Filter(keep, Insert(x, xs, leq)) == if keep(x) then Insert(x, Filter(keep, xs), leq) else Filter(keep, xs)
  {
    hide Insert, Filter, TotalPreorder;
    if xs == [] || leq(x, xs[0]) {
      InsertFront(x, xs, leq);
      FilterHead(keep, x, xs);
      NotPastKept(keep, x, xs, leq);
      InsertFront(x, Filter(keep, xs), leq);
      assert [] + Filter(keep, xs) == Filter(keep, xs);
    } else {
      var head, rest := xs[0], xs[1..];
      assert xs == [head] + rest;
      FilterOfInsert(keep, x, rest, leq);
      hide Sorted;
      InsertPast(x, head, rest, leq);
      FilterHead(keep, head, Insert(x, rest, leq));
      FilterHead(keep, head, rest);
      InsertPast(x, head, Filter(keep, rest), leq);
      assert [] + Filter(keep, rest) == Filter(keep, rest);
      assert [] + Filter(keep, Insert(x, rest, leq)) == Filter(keep, Insert(x, rest, leq));
    }
  }

  lemma SortStep<T>(x: T, rest: seq<T>, leq: (T, T) -> bool)
    ensures Sort([x] + rest, leq) == Insert(x, Sort(rest, leq), leq)
  {
    assert ([x] + rest)[1..] == rest;
  }

  /** Sorting what is kept is keeping from what is sorted. */
  lemma {:induction false} SortOfFilter<T(!new)>(keep: T -> bool, xs: seq<T>, leq: (T, T) -> bool)
    requires TotalPreorder(leq)
    ensures Sort(Filter(keep, xs), leq) == Filter(keep, Sort(xs, leq))
  {
    if xs == [] {
    } else {
      hide Insert, Filter, Sort, TotalPreorder, Sorted;
      var x, rest := xs[0], xs[1..];
      assert xs == [x] + rest;
      SortOfFilter(keep, rest, leq);
      SortIsSortedPermutation(rest, leq);
      FilterOfInsert(keep, x, Sort(rest, leq), leq);
      FilterHead(keep, x, rest);
      SortStep(x, rest, leq);
      SortStep(x, Filter(keep, rest), leq);
      assert [] + Filter(keep, rest) == Filter(keep, rest);
    }
  }
}
