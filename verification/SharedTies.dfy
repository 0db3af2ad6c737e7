// Ties in the sort key when one page number is applied to several results at once, and
// every page of every result is cut from the order its own query produced.

module SharedTies {
  import opened Common
  import opened Paging
  import opened SharedPaging

  /** orders[i][p - 1] is the order behind page p of result i. */
  function OrderedGrid<T>(orders: seq<seq<seq<T>>>, size: nat): Grid<T> {
    (i: nat, p: nat) => if i < |orders| && 1 <= p <= |orders[i]| then Page(orders[i][p - 1], p, size) else []
  }

  /** An order for each of the first n pages of each result. */
  ghost predicate AllPageOrders<T(!new)>(orders: seq<seq<seq<T>>>, bases: seq<seq<T>>, key: T -> int, n: nat) {
    |orders| == |bases| && forall i :: 0 <= i < |bases| ==> PageOrders(orders[i], Elements(bases[i]), key, n)
  }

  /** Pages 1 to n show every row of the results as often as it is there. */
  ghost predicate ShowsAll<T(!new)>(grid: Grid<T>, bases: seq<seq<T>>, n: nat) {
    forall x :: Occurrences(SharedWalk(grid, n, |bases|), x) == Occurrences(Joined(bases, |bases|), x)
  }

  ghost predicate NoTies<T>(bases: seq<seq<T>>, key: T -> int, size: nat) {
    forall i :: 0 <= i < |bases| ==> NoTieAcrossPages(bases[i], key, size)
  }

  lemma {:induction false} OwnWalkOfOrders<T>(orders: seq<seq<seq<T>>>, size: nat, p: nat, i: nat)
    requires i < |orders| && p <= |orders[i]|
    ensures OwnWalk(OrderedGrid(orders, size), p, i) == WalkOf(orders[i][..p], size)
  {
    if p > 0 {
      OwnWalkOfOrders(orders, size, p - 1, i);
      assert orders[i][..p][..p - 1] == orders[i][..p - 1];
    }
  }

  lemma {:induction false} ElementsAtMost<T>(s: seq<T>)
    ensures |Elements(s)| <= |s|
  {
    if s != [] {
      var n := |s| - 1;
      ElementsAtMost(s[..n]);
      assert Elements(s) == Elements(s[..n]) + {s[n]} by { assert s == s[..n] + [s[n]]; }
    }
  }

  /** A list as long as its set has no repeats. */
  lemma {:induction false} NoRepeats<T>(s: seq<T>, x: T)
    requires |Elements(s)| == |s|
    ensures Occurrences(s, x) == if x in s then 1 else 0
  {
    if s != [] {
      var n := |s| - 1;
      assert s == s[..n] + [s[n]];
      assert Elements(s) == Elements(s[..n]) + {s[n]};
      ElementsAtMost(s[..n]);
      NoRepeats(s[..n], x);
      OccurrencesConcat(s[..n], [s[n]], x);
      assert CountTo([s[n]], x, 0) == 0;
    }
  }

  lemma EachOnceOccurs<T(!new)>(shown: seq<T>, base: seq<T>, rows: set<T>, key: T -> int, x: T)
    requires Ordering(base, rows, key) && EachOnce(shown, rows)
    ensures Occurrences(shown, x) == Occurrences(base, x)
  {
    ElementsCount(base);
    assert Elements(shown) == rows == Elements(base);
    NoRepeats(shown, x);
    NoRepeats(base, x);
  }

  /** How often the own walks of the first n results show x, in all. */
  function ShownTimes<T(==)>(grid: Grid<T>, p: nat, x: T, n: nat): nat {
    if n == 0 then 0 else ShownTimes(grid, p, x, n - 1) + Occurrences(OwnWalk(grid, p, n - 1), x)
  }

  /** How often the first n results hold x, in all. */
  function HeldTimes<T(==)>(bases: seq<seq<T>>, x: T, n: nat): nat
    requires n <= |bases|
  {
    if n == 0 then 0 else HeldTimes(bases, x, n - 1) + Occurrences(bases[n - 1], x)
  }

  lemma OneMoreWalk<T>(grid: Grid<T>, p: nat, x: T, n: nat)
    requires 0 < n
    ensures Occurrences(OneByOne(grid, p, n), x) == Occurrences(OneByOne(grid, p, n - 1), x) + Occurrences(OwnWalk(grid, p, n - 1), x)
  {
    var before, own := OneByOne(grid, p, n - 1), OwnWalk(grid, p, n - 1);
    assert OneByOne(grid, p, n) == before + own;
    OccurrencesConcat(before, own, x);
  }

  lemma {:induction false} OneByOneShown<T>(grid: Grid<T>, p: nat, x: T, n: nat)
    ensures Occurrences(OneByOne(grid, p, n), x) == ShownTimes(grid, p, x, n)
  {
    if n > 0 {
      OneByOneShown(grid, p, x, n - 1);
      OneMoreWalk(grid, p, x, n);
    }
  }

  lemma {:induction false} JoinedHeld<T>(bases: seq<seq<T>>, x: T, n: nat)
    requires n <= |bases|
    ensures Occurrences(Joined(bases, n), x) == HeldTimes(bases, x, n)
  {
    if n > 0 {
      JoinedHeld(bases, x, n - 1);
      OccurrencesConcat(Joined(bases, n - 1), bases[n - 1], x);
    }
  }

  /** One result that hides x is not made up for by the others. */
  lemma {:induction false} ShownAtMostHeld<T>(grid: Grid<T>, bases: seq<seq<T>>, p: nat, n: nat, x: T)
    requires n <= |bases| && forall i :: 0 <= i < n ==> Occurrences(OwnWalk(grid, p, i), x) <= Occurrences(bases[i], x)
    ensures ShownTimes(grid, p, x, n) <= HeldTimes(bases, x, n)
    ensures ShownTimes(grid, p, x, n) == HeldTimes(bases, x, n) <==>
      forall i :: 0 <= i < n ==> Occurrences(OwnWalk(grid, p, i), x) == Occurrences(bases[i], x)
  {
    if n > 0 {
      ShownAtMostHeld(grid, bases, p, n - 1, x);
    }
  }

  /** The shared walk shows x as often as the results hold it exactly when each own walk does,
      if none shows it more often. */
  lemma SharedShowsIff<T>(grid: Grid<T>, bases: seq<seq<T>>, p: nat, x: T)
    requires forall i :: 0 <= i < |bases| ==> Occurrences(OwnWalk(grid, p, i), x) <= Occurrences(bases[i], x)
    ensures Occurrences(SharedWalk(grid, p, |bases|), x) == Occurrences(Joined(bases, |bases|), x) <==>
      forall i :: 0 <= i < |bases| ==> Occurrences(OwnWalk(grid, p, i), x) == Occurrences(bases[i], x)
  {
    SharedWalkShowsAll(grid, p, |bases|, x);
    OneByOneShown(grid, p, x, |bases|);
    JoinedHeld(bases, x, |bases|);
    ShownAtMostHeld(grid, bases, p, |bases|, x);
  }

  lemma RepeatOnce<T>(base: seq<T>, size: nat, n: nat)
    requires n > 0
    ensures WalkOf(Repeat(base, n), size) == WalkOf(Repeat(base, n - 1), size) + Page(base, n, size)
  {
    assert Repeat(base, n)[..n - 1] == Repeat(base, n - 1);
  }

  lemma {:induction false} WalkOfRepeat<T>(base: seq<T>, size: nat, n: nat)
    ensures WalkOf(Repeat(base, n), size) == Walk(base, size, n)
  {
    if n > 0 {
      WalkOfRepeat(base, size, n - 1);
      RepeatOnce(base, size, n);
    }
  }

  /** Every order is the given one, except in result j, which has an order for each page. */
  function OnlyOneVaries<T>(bases: seq<seq<T>>, n: nat, j: nat, orders: seq<seq<T>>): seq<seq<seq<T>>> {
    seq(|bases|, i requires 0 <= i < |bases| => if i == j then orders else Repeat(bases[i], n))
  }

  lemma VariedOrders<T(!new)>(bases: seq<seq<T>>, key: T -> int, n: nat, j: nat, orders: seq<seq<T>>)
    requires j < |bases| && PageOrders(orders, Elements(bases[j]), key, n)
    requires forall i :: 0 <= i < |bases| ==> Ordering(bases[i], Elements(bases[i]), key)
    ensures AllPageOrders(OnlyOneVaries(bases, n, j, orders), bases, key, n)
  {
  }

  lemma UnvariedWalk<T>(bases: seq<seq<T>>, size: nat, n: nat, j: nat, orders: seq<seq<T>>, i: nat)
    requires size >= 1 && i < |bases| && i != j && n >= PageCount(|bases[i]|, size)
    ensures OwnWalk(OrderedGrid(OnlyOneVaries(bases, n, j, orders), size), n, i) == bases[i]
  {
    var all := OnlyOneVaries(bases, n, j, orders);
    assert all[i][..n] == all[i] == Repeat(bases[i], n);
    OwnWalkOfOrders(all, size, n, i);
    WalkOfRepeat(bases[i], size, n);
    PageCountCovers(|bases[i]|, size, n);
    WalkIsAll(bases[i], size, n);
  }

  lemma VariedWalk<T>(bases: seq<seq<T>>, size: nat, n: nat, j: nat, orders: seq<seq<T>>, x: T)
    requires j < |bases| && |orders| == n && x in bases[j] && x !in WalkOf(orders, size)
    ensures Occurrences(OwnWalk(OrderedGrid(OnlyOneVaries(bases, n, j, orders), size), n, j), x) < Occurrences(bases[j], x)
  {
    var all := OnlyOneVaries(bases, n, j, orders);
    assert all[j][..n] == all[j] == orders;
    OwnWalkOfOrders(all, size, n, j);
    OccursIffIn(WalkOf(orders, size), x);
    OccursIffIn(bases[j], x);
  }

  lemma HiddenRow<T(!new)>(base: seq<T>, key: T -> int, size: nat, n: nat) returns (orders: seq<seq<T>>, x: T)
    requires size >= 1 && n >= PageCount(|base|, size) && Ordering(base, Elements(base), key) && !NoTieAcrossPages(base, key, size)
    ensures PageOrders(orders, Elements(base), key, n) && x in base && x !in WalkOf(orders, size)
  {
    var p: nat :| p >= 1 && 0 < PageEnd(p, size) < |base| && key(base[PageEnd(p, size) - 1]) == key(base[PageEnd(p, size)]);
    PageExists(|base|, size, p);
    orders := TieHidesARow(base, Elements(base), key, size, p, n);
    x := base[PageEnd(p, size) - 1];
  }

  lemma TieHidesSomething<T(!new)>(bases: seq<seq<T>>, key: T -> int, size: nat, n: nat, j: nat) returns (all: seq<seq<seq<T>>>)
    requires size >= 1 && j < |bases| && !NoTieAcrossPages(bases[j], key, size)
    requires forall i :: 0 <= i < |bases| ==> Ordering(bases[i], Elements(bases[i]), key) && n >= PageCount(|bases[i]|, size)
    ensures AllPageOrders(all, bases, key, n) && !ShowsAll(OrderedGrid(all, size), bases, n)
  {
    var orders, x := HiddenRow(bases[j], key, size, n);
    all := OnlyOneVaries(bases, n, j, orders);
    var grid := OrderedGrid(all, size);
    VariedOrders(bases, key, n, j, orders);
    VariedWalk(bases, size, n, j, orders, x);
    forall i | 0 <= i < |bases| ensures Occurrences(OwnWalk(grid, n, i), x) <= Occurrences(bases[i], x) {
      if i != j {
        UnvariedWalk(bases, size, n, j, orders, i);
      }
    }
    SharedShowsIff(grid, bases, n, x);
  }

  lemma OwnWalkExact<T(!new)>(orders: seq<seq<seq<T>>>, bases: seq<seq<T>>, key: T -> int, size: nat, n: nat, i: nat, x: T)
    requires size >= 1 && i < |bases| && AllPageOrders(orders, bases, key, n)
    requires Ordering(bases[i], Elements(bases[i]), key) && n >= PageCount(|bases[i]|, size)
    requires NoTieAcrossPages(bases[i], key, size)
    ensures Occurrences(OwnWalk(OrderedGrid(orders, size), n, i), x) == Occurrences(bases[i], x)
  {
    var rows := Elements(bases[i]);
    OwnWalkOfOrders(orders, size, n, i);
    assert orders[i][..n] == orders[i];
    WalkIsExactIff(bases[i], rows, key, size, n);
    assert PageOrders(orders[i], rows, key, n);
    EachOnceOccurs(WalkOf(orders[i], size), bases[i], rows, key, x);
  }

  /** Whatever order each query of each result picks among ties, the walk over all shared
      pages, or more, shows every row as often as it is there if and only if in no result a
      tie straddles a page boundary. */
  lemma SharedWalkIsExactIff<T(!new)>(bases: seq<seq<T>>, key: T -> int, size: nat, n: nat)
    requires size >= 1
    requires forall i :: 0 <= i < |bases| ==> Ordering(bases[i], Elements(bases[i]), key) && n >= PageCount(|bases[i]|, size)
    ensures NoTies(bases, key, size) <==>
      forall orders: seq<seq<seq<T>>> :: AllPageOrders(orders, bases, key, n) ==> ShowsAll(OrderedGrid(orders, size), bases, n)
  {
    if NoTies(bases, key, size) {
      forall orders: seq<seq<seq<T>>>, x | AllPageOrders(orders, bases, key, n)
        ensures Occurrences(SharedWalk(OrderedGrid(orders, size), n, |bases|), x) == Occurrences(Joined(bases, |bases|), x)
      {
        forall i | 0 <= i < |bases|
          ensures Occurrences(OwnWalk(OrderedGrid(orders, size), n, i), x) == Occurrences(bases[i], x)
        {
          OwnWalkExact(orders, bases, key, size, n, i, x);
        }
        SharedShowsIff(OrderedGrid(orders, size), bases, n, x);
      }
    } else {
      var j :| 0 <= j < |bases| && !NoTieAcrossPages(bases[j], key, size);
      var orders := TieHidesSomething(bases, key, size, n, j);
    }
  }
}
