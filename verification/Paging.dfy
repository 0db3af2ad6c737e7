// OFFSET/LIMIT paging as the admin endpoints use it, and what becomes of it when
// the ORDER BY column has ties, so that every query may order the rows differently.

module Paging {
  import opened Common

  /** p * size, counted up page by page so that proofs about pages stay linear. */
  function PageEnd(p: nat, size: nat): nat {
    if p == 0 then 0 else PageEnd(p - 1, size) + size
  }

  lemma {:induction false} PageEndIsProduct(p: nat, size: nat)
    ensures PageEnd(p, size) == p * size
  {
    if p > 0 {
      PageEndIsProduct(p - 1, size);
    }
  }

  lemma {:induction false} PageEndMonotone(p: nat, q: nat, size: nat)
    requires p <= q
    ensures PageEnd(p, size) <= PageEnd(q, size)
  {
    if p < q {
      PageEndMonotone(p, q - 1, size);
    }
  }

  /** Rows of a 1-based page: OFFSET (page - 1) * size LIMIT size. */
  function Page<T>(rows: seq<T>, page: nat, size: nat): seq<T>
    requires page >= 1
  {
    var lo := Min(PageEnd(page - 1, size), |rows|);
    rows[lo..Min(lo + size, |rows|)]
  }

  /** OFFSET and LIMIT as the endpoints compute them. */
  lemma PageIsOffsetLimit<T>(rows: seq<T>, page: nat, size: nat)
    requires page >= 1
    ensures var offset := (page - 1) * size;
      Page(rows, page, size) == rows[Min(offset, |rows|)..][..Min(size, |rows| - Min(offset, |rows|))]
  {
    PageEndIsProduct(page - 1, size);
  }

  /** ceil(total / size) */
  function PageCount(total: nat, size: nat): nat
    requires size >= 1
  {
    (total + size - 1) / size
  }

  lemma PageCountCovers(total: nat, size: nat, n: nat)
    requires size >= 1 && n >= PageCount(total, size)
    ensures PageEnd(n, size) >= total
  {
    var q := PageCount(total, size);
    assert total + size - 1 == q * size + (total + size - 1) % size;
    PageEndIsProduct(q, size);
    PageEndMonotone(q, n, size);
  }

  /** There is a page after every boundary inside the rows. */
  lemma PageExists(total: nat, size: nat, p: nat)
    requires size >= 1 && PageEnd(p, size) < total
    ensures p < PageCount(total, size)
  {
    if p >= PageCount(total, size) {
      PageCountCovers(total, size, p);
    }
  }

  /** The last page is needed. */
  lemma PageCountIsTight(total: nat, size: nat)
    requires size >= 1 && total >= 1
    ensures PageCount(total, size) >= 1 && PageEnd(PageCount(total, size) - 1, size) < total
  {
    var q := PageCount(total, size);
    assert total + size - 1 == q * size + (total + size - 1) % size;
    PageEndIsProduct(q, size);
    assert q >= 1;
  }

  lemma PageCountMonotone(a: nat, b: nat, size: nat)
    requires size >= 1 && a <= b
    ensures PageCount(a, size) <= PageCount(b, size)
  {
    if a >= 1 {
      PageCountIsTight(a, size);
      PageExists(b, size, PageCount(a, size) - 1);
    }
  }

  /** Pages 1 to n of an unchanging result, one after the other. */
  function Walk<T>(rows: seq<T>, size: nat, n: nat): seq<T> {
    if n == 0 then [] else Walk(rows, size, n - 1) + Page(rows, n, size)
  }

  lemma {:induction false} WalkIsPrefix<T>(rows: seq<T>, size: nat, n: nat)
    ensures Walk(rows, size, n) == rows[..Min(PageEnd(n, size), |rows|)]
  {
    if n > 0 {
      WalkIsPrefix(rows, size, n - 1);
      Extend(rows, Min(PageEnd(n - 1, size), |rows|), Min(PageEnd(n, size), |rows|));
    }
  }

  lemma Extend<T>(rows: seq<T>, lo: nat, hi: nat)
    requires lo <= hi <= |rows|
    ensures rows[..lo] + rows[lo..hi] == rows[..hi]
  {
  }

  /** Walking all pages yields the result, each row once and in order. */
  lemma WalkIsAll<T>(rows: seq<T>, size: nat, n: nat)
    requires PageEnd(n, size) >= |rows|
    ensures Walk(rows, size, n) == rows
  {
    WalkIsPrefix(rows, size, n);
  }

  // ----- Ties -----

  /** A result of `ORDER BY key DESC` over the rows. */
  ghost predicate Ordering<T(!new)>(order: seq<T>, rows: set<T>, key: T -> int) {
    && (forall x :: x in order <==> x in rows)
    && (forall i, j :: 0 <= i < j < |order| ==> order[i] != order[j] && key(order[i]) >= key(order[j]))
  }

  /** Page p taken from the order its own query produced. */
  function WalkOf<T>(orders: seq<seq<T>>, size: nat): seq<T> {
    if orders == [] then []
    else WalkOf(orders[..|orders| - 1], size) + Page(orders[|orders| - 1], |orders|, size)
  }

  ghost predicate EachOnce<T(!new)>(shown: seq<T>, rows: set<T>) {
    && (forall x :: x in shown <==> x in rows)
    && |shown| == |rows|
  }

  /** Rows with equal keys never sit on both sides of a page boundary. */
  ghost predicate NoTieAcrossPages<T>(order: seq<T>, key: T -> int, size: nat) {
    forall p: nat :: p >= 1 && 0 < PageEnd(p, size) < |order| ==>
      key(order[PageEnd(p, size) - 1]) != key(order[PageEnd(p, size)])
  }

  /** Where the key drops, every order has the same rows before that place. */
  lemma SamePrefix<T(!new)>(base: seq<T>, other: seq<T>, rows: set<T>, key: T -> int, b: nat)
    requires Ordering(base, rows, key) && Ordering(other, rows, key)
    requires b <= |base| && (0 < b < |base| ==> key(base[b - 1]) != key(base[b]))
    ensures |other| == |base| && Elements(other[..b]) == Elements(base[..b])
  {
    ElementsCount(base);
    ElementsCount(other);
    assert Elements(base) == rows == Elements(other);
    if b == |base| {
      assert base[..b] == base && other[..b] == other;
    } else if b > 0 {
      var high := Elements(base[..b]);
      ElementsCount(base[..b]);
      ElementsCount(other[..b]);
      assert forall x :: x in rows && key(x) >= key(base[b - 1]) ==> x in base[..b] by {
        assert forall i :: b <= i < |base| ==> key(base[i]) < key(base[b - 1]);
      }
      forall i | 0 <= i < b ensures other[i] in high {
        HighComesFirst(base, other, rows, key, b, i);
      }
      SubsetCount(Elements(other[..b]), high);
    }
  }

  lemma HighComesFirst<T(!new)>(base: seq<T>, other: seq<T>, rows: set<T>, key: T -> int, b: nat, i: nat)
    requires Ordering(base, rows, key) && Ordering(other, rows, key)
    requires i < b < |base| && b <= |other|
    requires forall x :: x in rows && key(x) >= key(base[b - 1]) ==> x in base[..b]
    ensures other[i] in base[..b]
  {
    assert other[i] in other;
    if key(other[i]) < key(base[b - 1]) {
      forall x | x in Elements(base[..b]) ensures x in Elements(other[..i]) {
        var m :| 0 <= m < b && base[m] == x;
        assert x in base && key(x) >= key(base[b - 1]);
        var j :| 0 <= j < |other| && other[j] == x;
        assert j < i && other[..i][j] == x;
      }
      ElementsCount(base[..b]);
      ElementsCount(other[..i]);
      SubsetCount(Elements(base[..b]), Elements(other[..i]));
    }
  }

  lemma SamePage<T(!new)>(base: seq<T>, other: seq<T>, rows: set<T>, key: T -> int, size: nat, p: nat)
    requires size >= 1 && p >= 1 && NoTieAcrossPages(base, key, size)
    requires Ordering(base, rows, key) && Ordering(other, rows, key)
    ensures |Page(other, p, size)| == |Page(base, p, size)|
    ensures forall x :: x in Page(other, p, size) <==> x in Page(base, p, size)
  {
    var lo, hi := Min(PageEnd(p - 1, size), |base|), Min(PageEnd(p, size), |base|);
    SamePrefix(base, other, rows, key, lo);
    SamePrefix(base, other, rows, key, hi);
    assert Page(base, p, size) == base[lo..hi] && Page(other, p, size) == other[lo..hi];
    forall x ensures x in other[lo..hi] <==> x in base[lo..hi] {
      SliceElements(base, lo, hi, x);
      SliceElements(other, lo, hi, x);
    }
  }

  lemma SliceElements<T>(o: seq<T>, lo: nat, hi: nat, x: T)
    requires lo <= hi <= |o|
    requires forall i, j :: 0 <= i < j < |o| ==> o[i] != o[j]
    ensures x in o[lo..hi] <==> x in Elements(o[..hi]) && x !in Elements(o[..lo])
  {
  }

  lemma {:induction false} WalksAgree<T(!new)>(base: seq<T>, orders: seq<seq<T>>, rows: set<T>, key: T -> int, size: nat)
    requires size >= 1 && NoTieAcrossPages(base, key, size) && Ordering(base, rows, key)
    requires forall o :: o in orders ==> Ordering(o, rows, key)
    ensures |WalkOf(orders, size)| == |Walk(base, size, |orders|)|
    ensures forall x :: x in WalkOf(orders, size) <==> x in Walk(base, size, |orders|)
  {
    if orders != [] {
      var n := |orders| - 1;
      WalksAgree(base, orders[..n], rows, key, size);
      SamePage(base, orders[n], rows, key, size, n + 1);
    }
  }

  function Repeat<T>(s: seq<T>, n: nat): seq<seq<T>> {
    seq(n, i => s)
  }

  lemma {:induction false} WalkWithout<T>(orders: seq<seq<T>>, size: nat, x: T)
    requires forall i :: 0 <= i < |orders| ==> x !in Page(orders[i], i + 1, size)
    ensures x !in WalkOf(orders, size)
  {
    if orders != [] {
      var n := |orders| - 1;
      WalkWithout(orders[..n], size, x);
    }
  }

  /** The tied rows change places for page p only. */
  lemma SwapOnePage<T(!new)>(base: seq<T>, rows: set<T>, key: T -> int, p: nat, n: nat, b: nat) returns (orders: seq<seq<T>>)
    requires Ordering(base, rows, key) && 1 <= p <= n && 0 < b < |base| && key(base[b - 1]) == key(base[b])
    ensures |orders| == n && forall o :: o in orders ==> Ordering(o, rows, key)
    ensures forall i :: 0 <= i < n ==> orders[i] == if i + 1 == p then base[b - 1 := base[b]][b := base[b - 1]] else base
  {
    SwapIsOrdering(base, rows, key, b);
    orders := Repeat(base, n)[p - 1 := base[b - 1 := base[b]][b := base[b - 1]]];
  }

  /** The last row of page p, when it changes places with its successor for page p only. */
  lemma SwapHides<T>(base: seq<T>, size: nat, p: nat, q: nat)
    requires size >= 1 && p >= 1 && q >= 1 && 0 < PageEnd(p, size) < |base|
    requires forall i, j :: 0 <= i < j < |base| ==> base[i] != base[j]
    ensures var b := PageEnd(p, size);
      base[b - 1] !in Page(if q == p then base[b - 1 := base[b]][b := base[b - 1]] else base, q, size)
  {
    var b := PageEnd(p, size);
    if q == p {
      NotOnPage(base[b - 1 := base[b]][b := base[b - 1]], size, p, b, p);
    } else {
      NotOnPage(base, size, q, b - 1, p);
    }
  }

  /** With a tie across the end of page p there are orders that never show some row. */
  lemma TieHidesARow<T(!new)>(base: seq<T>, rows: set<T>, key: T -> int, size: nat, p: nat, n: nat)
    returns (orders: seq<seq<T>>)
    requires size >= 1 && Ordering(base, rows, key) && 1 <= p <= n
    requires 0 < PageEnd(p, size) < |base|
    requires key(base[PageEnd(p, size) - 1]) == key(base[PageEnd(p, size)])
    ensures |orders| == n && (forall o :: o in orders ==> Ordering(o, rows, key))
    ensures base[PageEnd(p, size) - 1] !in WalkOf(orders, size)
  {
    var b := PageEnd(p, size);
    var x := base[b - 1];
    orders := SwapOnePage(base, rows, key, p, n, b);
    forall i | 0 <= i < n ensures x !in Page(orders[i], i + 1, size) {
      SwapHides(base, size, p, i + 1);
    }
    WalkWithout(orders, size, x);
  }

  /** Page q does not reach the end of page p, unless it is page p. */
  lemma PagesApart(size: nat, q: nat, p: nat)
    requires size >= 1 && q >= 1 && p >= 1
    ensures PageEnd(q, size) == PageEnd(q - 1, size) + size
    ensures q < p ==> PageEnd(q, size) <= PageEnd(p, size) - size
    ensures q > p ==> PageEnd(p, size) <= PageEnd(q - 1, size)
  {
    if q < p {
      PageEndMonotone(q, p - 1, size);
    } else if q > p {
      PageEndMonotone(p, q - 1, size);
    }
  }

  /** A row just before the end of page p is on no other page; one just after it, not on p. */
  lemma NotOnPage<T>(o: seq<T>, size: nat, q: nat, i: nat, p: nat)
    requires size >= 1 && q >= 1 && p >= 1 && i < |o|
    requires forall i, j :: 0 <= i < j < |o| ==> o[i] != o[j]
    requires if q == p then i == PageEnd(p, size) else i == PageEnd(p, size) - 1
    ensures o[i] !in Page(o, q, size)
  {
    PagesApart(size, q, p);
    var lo := Min(PageEnd(q - 1, size), |o|);
    var hi := Min(lo + size, |o|);
    assert i < lo || i >= hi;
    forall j | 0 <= j < hi - lo ensures o[lo..hi][j] != o[i] {
      assert o[lo..hi][j] == o[lo + j];
    }
    assert Page(o, q, size) == o[lo..hi];
  }

  lemma SwapIsOrdering<T(!new)>(base: seq<T>, rows: set<T>, key: T -> int, b: nat)
    requires Ordering(base, rows, key) && 0 < b < |base| && key(base[b - 1]) == key(base[b])
    ensures Ordering(base[b - 1 := base[b]][b := base[b - 1]], rows, key)
  {
    var s := base[b - 1 := base[b]][b := base[b - 1]];
    forall x | x in base ensures x in s {
      var i :| 0 <= i < |base| && base[i] == x;
      assert s[if i == b then b - 1 else if i == b - 1 then b else i] == x;
    }
  }

  /** An order for each of the first n pages, each a possible result of its query. */
  ghost predicate PageOrders<T(!new)>(orders: seq<seq<T>>, rows: set<T>, key: T -> int, n: nat) {
    |orders| == n && forall o :: o in orders ==> Ordering(o, rows, key)
  }

  /** Whatever order each query picks among ties, a walk over all pages, or more, shows
      every row exactly once if and only if no tie straddles a page boundary. */
  lemma WalkIsExactIff<T(!new)>(base: seq<T>, rows: set<T>, key: T -> int, size: nat, n: nat)
    requires size >= 1 && n >= PageCount(|base|, size) && Ordering(base, rows, key)
    ensures NoTieAcrossPages(base, key, size) <==>
      forall orders: seq<seq<T>> :: PageOrders(orders, rows, key, n) ==> EachOnce(WalkOf(orders, size), rows)
  {
    if NoTieAcrossPages(base, key, size) {
      forall orders: seq<seq<T>> | PageOrders(orders, rows, key, n)
        ensures EachOnce(WalkOf(orders, size), rows)
      {
        ElementsCount(base);
        assert Elements(base) == rows;
        PageCountCovers(|base|, size, n);
        WalkIsAll(base, size, n);
        WalksAgree(base, orders, rows, key, size);
      }
    } else {
      var orders := TieBreaksAWalk(base, rows, key, size, n);
    }
  }

  lemma TieBreaksAWalk<T(!new)>(base: seq<T>, rows: set<T>, key: T -> int, size: nat, n: nat) returns (orders: seq<seq<T>>)
    requires size >= 1 && n >= PageCount(|base|, size) && Ordering(base, rows, key) && !NoTieAcrossPages(base, key, size)
    ensures PageOrders(orders, rows, key, n) && !EachOnce(WalkOf(orders, size), rows)
  {
    var p: nat :| p >= 1 && 0 < PageEnd(p, size) < |base| &&
      key(base[PageEnd(p, size) - 1]) == key(base[PageEnd(p, size)]);
    PageExists(|base|, size, p);
    orders := TieHidesARow(base, rows, key, size, p, n);
    assert base[PageEnd(p, size) - 1] in rows;
  }
}
