// hindsight_manager/api/task_monitor.py: the details, walked page by page, when rows of one
// schema share a created_at, the only column the query orders by.

module TaskMonitorTies {
  import opened Common
  import opened Paging
  import opened SharedPaging
  import opened SharedTies
  import opened TaskMonitor

  /** Newest first, each row once. */
  ghost predicate Sorted(ops: seq<Operation>) {
    forall i, j :: 0 <= i < j < |ops| ==> ops[i] != ops[j] && ops[i].createdAt >= ops[j].createdAt
  }

  ghost predicate NewestFirst(src: Source) {
    src.table.Rows? ==> Sorted(src.table.rows)
  }

  const CREATED_AT := (x: Item) => x.op.createdAt

  /** The rows of each source that can be listed at all: none if it fails before the first. */
  function Lists(shares: seq<Share>): (lists: seq<seq<Item>>)
    ensures |lists| == |shares|
    ensures forall i :: 0 <= i < |shares| ==> lists[i] == if shares[i].kept == 0 then [] else shares[i].items
  {
    seq(|shares|, i requires 0 <= i < |shares| => if shares[i].kept == 0 then [] else shares[i].items)
  }

  /** What request p finds when the query of source i returns its rows in orders[i][p - 1]. */
  function SharesAt(orders: seq<seq<seq<Item>>>, p: nat): (shares: seq<Share>)
    ensures |shares| == |orders|
    ensures forall i :: 0 <= i < |orders| && 1 <= p <= |orders[i]| ==> shares[i] == Share(orders[i][p - 1], |orders[i][p - 1]|)
    ensures forall i :: 0 <= i < |orders| && !(1 <= p <= |orders[i]|) ==> shares[i] == Share([], 0)
  {
    seq(|orders|, i requires 0 <= i < |orders| =>
      if 1 <= p <= |orders[i]| then Share(orders[i][p - 1], |orders[i][p - 1]|) else Share([], 0))
  }

  /** The answers of requests 1 to n, one after the other. */
  function Answers(orders: seq<seq<seq<Item>>>, size: nat, n: nat): seq<Item> {
    if n == 0 then [] else Answers(orders, size, n - 1) + PageItems(SharesAt(orders, n), n, size)
  }

  lemma OwnPageOfOrder(orders: seq<seq<seq<Item>>>, p: nat, size: nat, i: nat)
    requires p >= 1 && i < |orders|
    ensures OwnPage(SharesAt(orders, p), size, i, p) == OrderedGrid(orders, size)(i, p)
  {
  }

  /** Request p answers the page of the grid of orders. */
  lemma {:induction false} PageOfOrders(orders: seq<seq<seq<Item>>>, p: nat, size: nat, n: nat)
    requires p >= 1 && n <= |orders|
    ensures SharedPage(Pages(SharesAt(orders, p), size), p, n) == SharedPage(OrderedGrid(orders, size), p, n)
  {
    if n > 0 {
      PageOfOrders(orders, p, size, n - 1);
      OwnPageOfOrder(orders, p, size, n - 1);
    }
  }

  lemma {:induction false} AnswersWalkTheGrid(orders: seq<seq<seq<Item>>>, size: nat, n: nat)
    ensures Answers(orders, size, n) == SharedWalk(OrderedGrid(orders, size), n, |orders|)
  {
    if n > 0 {
      AnswersWalkTheGrid(orders, size, n - 1);
      PageOfOrders(orders, n, size, |orders|);
    }
  }

  lemma {:induction false} MatchingIsSome(rows: seq<Operation>, f: Filter, n: nat)
    requires n <= |rows|
    ensures forall op :: op in Matching(rows, f, n) ==> op in rows[..n]
  {
    if n > 0 {
      MatchingIsSome(rows, f, n - 1);
      assert rows[..n] == rows[..n - 1] + [rows[n - 1]];
    }
  }

  lemma SortedSnoc(ops: seq<Operation>, op: Operation)
    requires Sorted(ops) && forall x :: x in ops ==> x != op && x.createdAt >= op.createdAt
    ensures Sorted(ops + [op])
  {
  }

  lemma {:induction false} MatchingKeepsOrder(rows: seq<Operation>, f: Filter, n: nat)
    requires n <= |rows| && Sorted(rows)
    ensures Sorted(Matching(rows, f, n))
  {
    if n > 0 {
      MatchingKeepsOrder(rows, f, n - 1);
      MatchingIsSome(rows, f, n - 1);
      forall x | x in Matching(rows, f, n - 1) ensures x != rows[n - 1] && x.createdAt >= rows[n - 1].createdAt {
        assert x in rows[..n - 1];
      }
      SortedSnoc(Matching(rows, f, n - 1), rows[n - 1]);
    }
  }

  lemma ShareIsOrdered(src: Source, f: Filter)
    requires NewestFirst(src)
    ensures Ordering(ShareOf(src, f).items, Elements(ShareOf(src, f).items), CREATED_AT)
  {
    var ops, items := Counted(src, f), ShareOf(src, f).items;
    if src.table.Rows? {
      MatchingKeepsOrder(src.table.rows, f, |src.table.rows|);
    }
    assert Sorted(ops);
    forall i, j | 0 <= i < j < |items| ensures items[i] != items[j] && CREATED_AT(items[i]) >= CREATED_AT(items[j]) {
      assert items[i].op == ops[i] && items[j].op == ops[j];
    }
  }

  /** Sources that list all of a page or nothing show their lists. */
  lemma ListsAreShown(shares: seq<Share>, size: nat, i: nat)
    requires size >= 1 && i < |shares| && (shares[i].kept == 0 || |shares[i].items| <= shares[i].kept)
    ensures Lists(shares)[i] == Shown(shares[i], size)
  {
    var share := shares[i];
    if share.kept == 0 {
      NoneVisible(share, size, |share.items|);
    } else {
      AllVisible(share, size, |share.items|);
      assert share.items[..|share.items|] == share.items;
    }
  }

  lemma {:induction false} NoneVisible(share: Share, size: nat, n: nat)
    requires size >= 1 && n <= |share.items| && share.kept == 0
    ensures Visible(share, size, n) == []
  {
    if n > 0 {
      NoneVisible(share, size, n - 1);
    }
  }

  lemma ListsAreAllShown(shares: seq<Share>, size: nat)
    requires size >= 1 && forall i :: 0 <= i < |shares| ==> shares[i].kept == 0 || |shares[i].items| <= shares[i].kept
    ensures Lists(shares) == ShownLists(shares, size)
  {
    forall i | 0 <= i < |shares| ensures Lists(shares)[i] == Shown(shares[i], size) {
      ListsAreShown(shares, size, i);
    }
  }

  lemma UiPagesSuffice(shares: seq<Share>, size: nat, i: nat)
    requires size >= 1 && i < |shares|
    ensures UiPages(shares, size) >= PageCount(|Lists(shares)[i]|, size)
  {
    TotalCoversEach(shares, |shares|);
    PageCountMonotone(|Lists(shares)[i]|, Total(shares, |shares|), size);
  }

  /** Every row is answered as often as the lists hold it. */
  ghost predicate AnswersAll(orders: seq<seq<seq<Item>>>, shares: seq<Share>, size: nat, n: nat)
    requires size >= 1
  {
    forall x :: Occurrences(Answers(orders, size, n), x) == Occurrences(AllShown(shares, size), x)
  }

  /** The requests for the pages the UI offers, when every query orders equal times its own
      way, answer every row that can be shown exactly as often as it is there, if and only if
      no asked tenant has matching rows of one time on both sides of a page boundary. A tenant
      may fail before it lists anything, but not in the middle of a page. */
  lemma DetailsExactIffNoTie(srcs: seq<Source>, f: Filter, size: nat)
    requires size >= 1 && forall i :: 0 <= i < |srcs| ==> NewestFirst(srcs[i])
    requires forall i :: 0 <= i < |srcs| && srcs[i].fault.AfterCount? ==> srcs[i].fault.kept == 0
    ensures var shares := Shares(srcs, f);
      var n := UiPages(shares, size);
      NoTies(Lists(shares), CREATED_AT, size) <==>
        forall orders: seq<seq<seq<Item>>> :: AllPageOrders(orders, Lists(shares), CREATED_AT, n) ==>
          AnswersAll(orders, shares, size, n)
  {
    var shares := Shares(srcs, f);
    var lists, n := Lists(shares), UiPages(shares, size);
    forall i | 0 <= i < |lists|
      ensures Ordering(lists[i], Elements(lists[i]), CREATED_AT) && n >= PageCount(|lists[i]|, size)
    {
      ShareIsOrdered(srcs[i], f);
      UiPagesSuffice(shares, size, i);
    }
    SharedWalkIsExactIff(lists, CREATED_AT, size, n);
    ListsAreAllShown(shares, size);
    forall orders: seq<seq<seq<Item>>> | AllPageOrders(orders, lists, CREATED_AT, n)
      ensures ShowsAll(OrderedGrid(orders, size), lists, n) <==> AnswersAll(orders, shares, size, n)
    {
      AnswersWalkTheGrid(orders, size, n);
    }
  }
}
