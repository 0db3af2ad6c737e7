// hindsight_manager/api/task_monitor.py: statistics and details over the
// async_operations tables of many tenant schemas.

module TaskMonitor {
  import opened Common
  import opened Models
  import opened Paging
  import opened SharedPaging

  datatype Operation = Operation(id: Id, operationType: string, status: string, createdAt: int)

  /** The operations of a schema in the order its query returns them, if it has the table. */
  datatype Table = Missing | Rows(rows: seq<Operation>)

  /** Where the work on a schema raises, if it does: before its rows are counted, or after,
      when `kept` items of the page are built. */
  datatype Fault = NoFault | BeforeCount | AfterCount(kept: nat)

  datatype Source = Source(tenant: Tenant, table: Table, fault: Fault)

  /** Both endpoints roll the session back for a missing table and after a failure. */
  predicate RollsBack(src: Source) {
    src.table.Missing? || src.fault != NoFault
  }

  /** A rollback expires the tenants that were loaded, and reading the next one then raises
      where nothing handles it: the request is not answered. */
  predicate Breaks(srcs: seq<Source>) {
    exists i :: 0 <= i < |srcs| - 1 && RollsBack(srcs[i])
  }

  /** None of the first n sources rolls back. */
  predicate Intact(srcs: seq<Source>, n: nat)
    requires n <= |srcs|
  {
    n == 0 || (Intact(srcs, n - 1) && !RollsBack(srcs[n - 1]))
  }

  lemma {:induction false} IntactMeans(srcs: seq<Source>, n: nat)
    requires n <= |srcs|
    ensures Intact(srcs, n) <==> forall i :: 0 <= i < n ==> !RollsBack(srcs[i])
  {
    if n > 0 {
      IntactMeans(srcs, n - 1);
    }
  }

  lemma UnbrokenEnd(srcs: seq<Source>)
    requires Intact(srcs, Max(0, |srcs| - 1))
    ensures !Breaks(srcs)
  {
    IntactMeans(srcs, Max(0, |srcs| - 1));
  }

  const STATUSES: seq<string> := ["pending", "processing", "completed", "failed", "cancelled"]

  function Active(all: seq<Source>): seq<Source> {
    if all == [] then [] else (if all[0].tenant.status == ACTIVE then [all[0]] else []) + Active(all[1..])
  }

  /** The listed sources are those of the ACTIVE tenants, all of them and no others. */
  lemma {:induction false} ActiveFrom(all: seq<Source>)
    ensures forall src :: src in Active(all) <==> src in all && src.tenant.status == ACTIVE
  {
    if all != [] {
      ActiveFrom(all[1..]);
      assert all == [all[0]] + all[1..];
    }
  }

  /** They keep their order, each as often as it is there. */
  lemma {:induction false} ActiveConcat(a: seq<Source>, b: seq<Source>)
    ensures Active(a + b) == Active(a) + Active(b)
  {
    if a == [] {
      assert a + b == b;
    } else {
      ActiveConcat(a[1..], b);
      assert (a + b)[1..] == a[1..] + b;
    }
  }

  lemma ActiveOne(src: Source)
    ensures Active([src]) == if src.tenant.status == ACTIVE then [src] else []
  {
    assert [src][1..] == [];
  }

  // ----- Statistics -----

  /** How many of the first n rows have status s. */
  function CountStatus(rows: seq<Operation>, s: string, n: nat): nat
    requires n <= |rows|
  {
    if n == 0 then 0 else CountStatus(rows, s, n - 1) + if rows[n - 1].status == s then 1 else 0
  }

  function StatusCount(src: Source, s: string): nat {
    if src.fault == NoFault && src.table.Rows? then CountStatus(src.table.rows, s, |src.table.rows|) else 0
  }

  function SumCounts(srcs: seq<Source>, s: string, n: nat): nat
    requires n <= |srcs|
  {
    if n == 0 then 0 else SumCounts(srcs, s, n - 1) + StatusCount(srcs[n - 1], s)
  }

  function Get(counts: map<string, nat>, s: string): nat {
    if s in counts then counts[s] else 0
  }

  /** SELECT status, COUNT(*) ... GROUP BY status; nothing without the table or on failure. */
  method QueryTenantStats(src: Source) returns (counts: map<string, nat>)
    ensures forall s :: Get(counts, s) == StatusCount(src, s)
    ensures src.table.Missing? || src.fault != NoFault ==> counts == map[]
    ensures src.table.Rows? && src.fault == NoFault ==>
      forall s :: Get(counts, s) == CountStatus(src.table.rows, s, |src.table.rows|)
  {
    counts := map[];
    if src.fault != NoFault || src.table.Missing? {
      return;
    }
    var rows := src.table.rows;
    for i := 0 to |rows|
      invariant forall s :: Get(counts, s) == CountStatus(rows, s, i)
    {
      counts := counts[rows[i].status := Get(counts, rows[i].status) + 1];
    }
  }

  lemma StatusesDistinct()
    ensures forall i, j :: 0 <= i < j < |STATUSES| ==> STATUSES[i] != STATUSES[j]
  {
  }

  /** The inner loop of the statistics: one tenant's counts are added up. */
  method Accumulate(counts: map<string, nat>, rowCounts: map<string, nat>) returns (acc: map<string, nat>)
    ensures forall k :: 0 <= k < |STATUSES| ==> Get(acc, STATUSES[k]) == Get(counts, STATUSES[k]) + Get(rowCounts, STATUSES[k])
  {
    StatusesDistinct();
    acc := counts;
    for j := 0 to |STATUSES|
      invariant forall k :: 0 <= k < j ==> Get(acc, STATUSES[k]) == Get(counts, STATUSES[k]) + Get(rowCounts, STATUSES[k])
      invariant forall k :: j <= k < |STATUSES| ==> Get(acc, STATUSES[k]) == Get(counts, STATUSES[k])
    {
      acc := acc[STATUSES[j] := Get(acc, STATUSES[j]) + Get(rowCounts, STATUSES[j])];
    }
  }

  lemma StatusTexts()
    ensures |STATUSES| == 5
    ensures STATUSES[0] == "pending" && STATUSES[1] == "processing" && STATUSES[2] == "completed"
    ensures STATUSES[3] == "failed" && STATUSES[4] == "cancelled"
  {
  }

  datatype Stats = Stats(pending: nat, processing: nat, completed: nat, failed: nat, cancelled: nat)

  function MakeStats(counts: map<string, nat>): (r: Stats)
    ensures r.pending == Get(counts, "pending") && r.processing == Get(counts, "processing")
    ensures r.completed == Get(counts, "completed") && r.failed == Get(counts, "failed")
    ensures r.cancelled == Get(counts, "cancelled")
  {
    Stats(pending := Get(counts, "pending"), processing := Get(counts, "processing"), completed := Get(counts, "completed"),
          failed := Get(counts, "failed"), cancelled := Get(counts, "cancelled"))
  }

  datatype TenantEntry = TenantEntry(tenantId: Id, tenantName: string, stats: Stats)

  ghost predicate EntryOf(e: TenantEntry, src: Source) {
    && e.tenantId == src.tenant.id && e.tenantName == src.tenant.name
    && e.stats.pending == StatusCount(src, "pending") && e.stats.processing == StatusCount(src, "processing")
    && e.stats.completed == StatusCount(src, "completed") && e.stats.failed == StatusCount(src, "failed")
    && e.stats.cancelled == StatusCount(src, "cancelled")
  }

  /** One entry for each listed source: every ACTIVE tenant has one, and there are no others. */
  lemma EntriesCover(all: seq<Source>, entries: seq<TenantEntry>)
    requires |entries| == |Active(all)| && forall i :: 0 <= i < |entries| ==> EntryOf(entries[i], Active(all)[i])
    ensures forall src :: src in all && src.tenant.status == ACTIVE ==> exists e :: e in entries && EntryOf(e, src)
    ensures forall e :: e in entries ==> exists src :: src in all && src.tenant.status == ACTIVE && EntryOf(e, src)
  {
    ActiveFrom(all);
    forall src | src in all && src.tenant.status == ACTIVE ensures exists e :: e in entries && EntryOf(e, src) {
      var i :| 0 <= i < |entries| && Active(all)[i] == src;
      assert entries[i] in entries;
    }
    forall e | e in entries ensures exists src :: src in all && src.tenant.status == ACTIVE && EntryOf(e, src) {
      var i :| 0 <= i < |entries| && entries[i] == e;
      assert Active(all)[i] in Active(all);
    }
  }

  datatype StatsAnswer = StatsAnswer(globalStats: Stats, byTenant: seq<TenantEntry>)

  function EntryFor(src: Source): TenantEntry {
    TenantEntry(src.tenant.id, src.tenant.name,
      Stats(pending := StatusCount(src, "pending"), processing := StatusCount(src, "processing"),
            completed := StatusCount(src, "completed"), failed := StatusCount(src, "failed"),
            cancelled := StatusCount(src, "cancelled")))
  }

  /** One tenant's statistics. */
  method TenantStats(src: Source) returns (entry: TenantEntry, rowCounts: map<string, nat>)
    ensures entry == EntryFor(src) && forall s :: Get(rowCounts, s) == StatusCount(src, s)
  {
    rowCounts := QueryTenantStats(src);
    entry := TenantEntry(src.tenant.id, src.tenant.name, MakeStats(rowCounts));
  }

  /** The counts of each status over the first n tenants. */
  ghost predicate SumsTo(acc: map<string, nat>, tenants: seq<Source>, n: nat)
    requires n <= |tenants|
  {
    forall k :: 0 <= k < |STATUSES| ==> Get(acc, STATUSES[k]) == SumCounts(tenants, STATUSES[k], n)
  }

  /** The entries of the first n tenants. */
  function EntriesFor(tenants: seq<Source>, n: nat): seq<TenantEntry>
    requires n <= |tenants|
  {
    if n == 0 then [] else EntriesFor(tenants, n - 1) + [EntryFor(tenants[n - 1])]
  }

  lemma {:induction false} EntriesAt(tenants: seq<Source>, n: nat)
    requires n <= |tenants|
    ensures |EntriesFor(tenants, n)| == n && forall i :: 0 <= i < n ==> EntriesFor(tenants, n)[i] == EntryFor(tenants[i])
  {
    if n > 0 {
      EntriesAt(tenants, n - 1);
    }
  }

  /** The loop over the tenants: the counts of all of them, and an entry for each. */
  method CollectStats(tenants: seq<Source>) returns (acc: map<string, nat>, byTenant: Option<seq<TenantEntry>>)
    ensures byTenant.None? <==> Breaks(tenants)
    ensures byTenant.Some? ==> SumsTo(acc, tenants, |tenants|) && byTenant.value == EntriesFor(tenants, |tenants|)
  {
    acc := map[];
    var entries := [];
    for i := 0 to |tenants|
      invariant entries == EntriesFor(tenants, i)
      invariant SumsTo(acc, tenants, i)
      invariant Intact(tenants, Max(0, i - 1))
    {
      if i > 0 && RollsBack(tenants[i - 1]) {
        assert Breaks(tenants);
        return acc, None;
      }
      var entry, rowCounts := TenantStats(tenants[i]);
      entries := entries + [entry];
      acc := Accumulate(acc, rowCounts);
    }
    UnbrokenEnd(tenants);
    return acc, Some(entries);
  }

  lemma CountsAreSums(acc: map<string, nat>, tenants: seq<Source>)
    requires SumsTo(acc, tenants, |tenants|)
    ensures Get(acc, "pending") == SumCounts(tenants, "pending", |tenants|)
    ensures Get(acc, "processing") == SumCounts(tenants, "processing", |tenants|)
    ensures Get(acc, "completed") == SumCounts(tenants, "completed", |tenants|)
    ensures Get(acc, "failed") == SumCounts(tenants, "failed", |tenants|)
    ensures Get(acc, "cancelled") == SumCounts(tenants, "cancelled", |tenants|)
  {
    StatusTexts();
    assert forall k :: 0 <= k < 5 ==> Get(acc, STATUSES[k]) == SumCounts(tenants, STATUSES[k], |tenants|);
  }

  method GetTaskStats(all: seq<Source>) returns (answer: Option<StatsAnswer>)
    ensures answer.None? <==> Breaks(Active(all))
    ensures answer.Some? ==>
      var total, tenants, n := answer.value.globalStats, Active(all), |Active(all)|;
      && total.pending == SumCounts(tenants, "pending", n) && total.processing == SumCounts(tenants, "processing", n)
      && total.completed == SumCounts(tenants, "completed", n) && total.failed == SumCounts(tenants, "failed", n)
      && total.cancelled == SumCounts(tenants, "cancelled", n)
    ensures answer.Some? ==> |answer.value.byTenant| == |Active(all)|
    ensures answer.Some? ==> forall i :: 0 <= i < |Active(all)| ==>
      var e, src := answer.value.byTenant[i], Active(all)[i];
      && e.tenantId == src.tenant.id && e.tenantName == src.tenant.name
      && e.stats.pending == StatusCount(src, "pending") && e.stats.processing == StatusCount(src, "processing")
      && e.stats.completed == StatusCount(src, "completed") && e.stats.failed == StatusCount(src, "failed")
      && e.stats.cancelled == StatusCount(src, "cancelled")
    ensures answer.Some? ==> forall src :: src in all && src.tenant.status == ACTIVE ==>
      exists e :: e in answer.value.byTenant && EntryOf(e, src)
    ensures answer.Some? ==> forall e :: e in answer.value.byTenant ==>
      exists src :: src in all && src.tenant.status == ACTIVE && EntryOf(e, src)
  {
    var acc, byTenant := CollectStats(Active(all));
    if byTenant.None? {
      return None;
    }
    CountsAreSums(acc, Active(all));
    EntriesAt(Active(all), |Active(all)|);
    EntriesCover(all, byTenant.value);
    return Some(StatsAnswer(MakeStats(acc), byTenant.value));
  }

  // ----- Details -----

  /** The WHERE clause; an absent or empty parameter adds no condition. */
  datatype Filter = Filter(status: Option<string>, operationType: Option<string>) {
    predicate Keeps(op: Operation) {
      && (status.Some? && status.value != "" ==> op.status == status.value)
      && (operationType.Some? && operationType.value != "" ==> op.operationType == operationType.value)
    }
  }

  /** The matching ones of the first n rows. */
  function Matching(rows: seq<Operation>, f: Filter, n: nat): seq<Operation>
    requires n <= |rows|
  {
    if n == 0 then [] else Matching(rows, f, n - 1) + if f.Keeps(rows[n - 1]) then [rows[n - 1]] else []
  }

  datatype Item = Item(tenantId: Id, op: Operation)

  function Items(t: Tenant, ops: seq<Operation>): (items: seq<Item>)
    ensures |items| == |ops| && forall i :: 0 <= i < |ops| ==> items[i] == Item(t.id, ops[i])
  {
    seq(|ops|, i requires 0 <= i < |ops| => Item(t.id, ops[i]))
  }

  /** The rows a source counts towards the total. */
  function Counted(src: Source, f: Filter): seq<Operation> {
    if src.table.Missing? || src.fault == BeforeCount then [] else Matching(src.table.rows, f, |src.table.rows|)
  }

  /** What a source contributes to a request: the rows it counts, and how many of a page it
      lists before it fails. */
  datatype Share = Share(items: seq<Item>, kept: nat)

  function ShareOf(src: Source, f: Filter): Share {
    var items := Items(src.tenant, Counted(src, f));
    Share(items, if src.fault.AfterCount? then src.fault.kept else |items|)
  }

  function Shares(srcs: seq<Source>, f: Filter): (shares: seq<Share>)
    ensures |shares| == |srcs| && forall i :: 0 <= i < |srcs| ==> shares[i] == ShareOf(srcs[i], f)
  {
    seq(|srcs|, i requires 0 <= i < |srcs| => ShareOf(srcs[i], f))
  }

  /** COUNT(*) summed over the first n sources. */
  function Total(shares: seq<Share>, n: nat): nat
    requires n <= |shares|
  {
    if n == 0 then 0 else Total(shares, n - 1) + |shares[n - 1].items|
  }

  function Take<T>(s: seq<T>, n: nat): seq<T> {
    s[..Min(n, |s|)]
  }

  /** Page p of source i; there is no page 0. */
  function OwnPage(shares: seq<Share>, size: nat, i: nat, p: nat): seq<Item> {
    if i < |shares| && p >= 1 then Take(Page(shares[i].items, p, size), shares[i].kept) else []
  }

  function Pages(shares: seq<Share>, size: nat): Grid<Item> {
    (i: nat, p: nat) => OwnPage(shares, size, i, p)
  }

  /** A page: OFFSET and LIMIT are applied in every schema on its own. */
  function PageItems(shares: seq<Share>, page: nat, size: nat): seq<Item> {
    SharedPage(Pages(shares, size), page, |shares|)
  }

  lemma PageOfItems(t: Tenant, ops: seq<Operation>, page: nat, size: nat, kept: nat)
    requires page >= 1
    ensures Items(t, Take(Page(ops, page, size), kept)) == Take(Page(Items(t, ops), page, size), kept)
  {
    assert Items(t, Page(ops, page, size)) == Page(Items(t, ops), page, size);
  }

  /** The items of a page, up to the one that raises. */
  method DetailItems(t: Tenant, data: seq<Operation>, raises: Option<nat>) returns (items: seq<Item>)
    ensures items == Items(t, Take(data, if raises.Some? then raises.value else |data|))
  {
    items := [];
    for j := 0 to |data|
      invariant |items| == j && forall k :: 0 <= k < j ==> items[k] == Item(t.id, data[k])
      invariant raises.Some? ==> j <= raises.value
    {
      if raises == Some(j) {
        return;
      }
      items := items + [Item(t.id, data[j])];
    }
  }

  /** What a table and a failure make of a source's share: nothing without the table or before
      the count, all matching rows otherwise, of which a failure after the count keeps some. */
  lemma ShareCases(src: Source, f: Filter)
    ensures src.table.Missing? || src.fault == BeforeCount ==> ShareOf(src, f).items == []
    ensures src.table.Rows? && src.fault != BeforeCount ==>
      ShareOf(src, f).items == Items(src.tenant, Matching(src.table.rows, f, |src.table.rows|))
    ensures src.fault == NoFault ==> ShareOf(src, f).kept == |ShareOf(src, f).items|
    ensures src.fault.AfterCount? ==> ShareOf(src, f).kept == src.fault.kept
  {
  }

  /** What a source adds to a page, fetched in its own schema. */
  method SourcePage(src: Source, f: Filter, page: nat, pageSize: nat, ghost share: Share) returns (items: seq<Item>, count: nat)
    requires page >= 1 && share == ShareOf(src, f)
    ensures items == Take(Page(share.items, page, pageSize), share.kept) && count == |share.items|
  {
    items, count := [], 0;
    if src.table.Missing? || src.fault == BeforeCount {
      return;
    }
    var ops := Matching(src.table.rows, f, |src.table.rows|);
    count := |ops|;
    items := DetailItems(src.tenant, Page(ops, page, pageSize), if src.fault.AfterCount? then Some(src.fault.kept) else None);
    PageOfItems(src.tenant, ops, page, pageSize, share.kept);
  }

  /** What the first n sources add to a page. */
  function ListedTo(shares: seq<Share>, page: nat, size: nat, n: nat): seq<Item>
    requires page >= 1 && n <= |shares|
  {
    if n == 0 then []
    else ListedTo(shares, page, size, n - 1) + Take(Page(shares[n - 1].items, page, size), shares[n - 1].kept)
  }

  lemma {:induction false} ListedIsPage(shares: seq<Share>, page: nat, size: nat, n: nat)
    requires page >= 1 && n <= |shares|
    ensures ListedTo(shares, page, size, n) == SharedPage(Pages(shares, size), page, n)
  {
    if n > 0 {
      ListedIsPage(shares, page, size, n - 1);
    }
  }

  datatype DetailsAnswer = DetailsAnswer(items: seq<Item>, total: nat)

  /** The loop over the sources of a request. */
  method CollectPages(srcs: seq<Source>, f: Filter, page: nat, pageSize: nat, ghost shares: seq<Share>)
    returns (answer: Option<DetailsAnswer>)
    requires page >= 1 && shares == Shares(srcs, f)
    ensures answer.None? <==> Breaks(srcs)
    ensures answer.Some? ==> answer.value == DetailsAnswer(PageItems(shares, page, pageSize), Total(shares, |shares|))
  {
    var items, total := [], 0;
    for i := 0 to |srcs|
      invariant items == ListedTo(shares, page, pageSize, i) && total == Total(shares, i)
      invariant Intact(srcs, Max(0, i - 1))
    {
      if i > 0 && RollsBack(srcs[i - 1]) {
        assert Breaks(srcs);
        return None;
      }
      var more, count := SourcePage(srcs[i], f, page, pageSize, shares[i]);
      items, total := items + more, total + count;
    }
    UnbrokenEnd(srcs);
    ListedIsPage(shares, page, pageSize, |shares|);
    return Some(DetailsAnswer(items, total));
  }

  /** The sources a request is about: one tenant of any status, or all active ones. */
  function Asked(all: seq<Source>, tenantId: Option<Id>): seq<Source> {
    match tenantId
    case None => Active(all)
    case Some(id) => WithId(all, id)
  }

  function WithId(all: seq<Source>, id: Id): seq<Source> {
    if all == [] then [] else if all[0].tenant.id == id then [all[0]] else WithId(all[1..], id)
  }

  method GetTaskDetails(all: seq<Source>, tenantId: Option<Id>, f: Filter, page: nat, pageSize: nat)
    returns (answer: Option<DetailsAnswer>)
    requires page >= 1 && 1 <= pageSize <= 100
    ensures answer.None? <==> Breaks(Asked(all, tenantId))
    ensures answer.Some? ==> var shares := Shares(Asked(all, tenantId), f);
      answer.value == DetailsAnswer(PageItems(shares, page, pageSize), Total(shares, |shares|))
  {
    var srcs := Asked(all, tenantId);
    if tenantId.Some? && srcs == [] {
      return Some(DetailsAnswer([], 0));
    }
    answer := CollectPages(srcs, f, page, pageSize, Shares(srcs, f));
  }

  /** A request about one tenant is always answered; one about all, as the statistics are,
      if and only if every ACTIVE tenant but the last has its table and does not fail. */
  lemma AnsweredIff(all: seq<Source>, tenantId: Option<Id>)
    ensures !Breaks(Asked(all, tenantId)) <==>
      tenantId.Some? || forall i :: 0 <= i < |Active(all)| - 1 ==> Active(all)[i].table.Rows? && Active(all)[i].fault == NoFault
  {
    if tenantId.Some? {
      WithIdIsOne(all, tenantId.value);
    } else {
      assert forall i :: 0 <= i < |Active(all)| ==>
        (RollsBack(Active(all)[i]) <==> !(Active(all)[i].table.Rows? && Active(all)[i].fault == NoFault));
    }
  }

  lemma {:induction false} WithIdIsOne(all: seq<Source>, id: Id)
    ensures |WithId(all, id)| <= 1
  {
    if all != [] {
      WithIdIsOne(all[1..], id);
    }
  }

  /** A new tenant, whose schema has no table yet, listed before another: no statistics and
      no details for anyone. */
  lemma NewTenantBreaksBoth()
    ensures Breaks(Active([Source(Tenant(1, "a", "tenant_a", ACTIVE, 0), Missing, NoFault),
                           Source(Tenant(2, "b", "tenant_b", ACTIVE, 0), Rows([]), NoFault)]))
  {
    var a := Source(Tenant(1, "a", "tenant_a", ACTIVE, 0), Missing, NoFault);
    var b := Source(Tenant(2, "b", "tenant_b", ACTIVE, 0), Rows([]), NoFault);
    assert [a, b][1..] == [b] && [b][1..] == [];
    assert Active([b]) == [b];
    assert Active([a, b])[0] == a;
  }

  // ----- Walking the pages -----

  /** The place of row q on its page, counted up row by row. */
  function Place(q: nat, size: nat): nat
    requires size >= 1
  {
    if q == 0 then 0 else if Place(q - 1, size) + 1 == size then 0 else Place(q - 1, size) + 1
  }

  /** Those of the first n items that are shown: the first `kept` of every page. */
  function Visible(share: Share, size: nat, n: nat): seq<Item>
    requires size >= 1 && n <= |share.items|
  {
    if n == 0 then []
    else if Place(n - 1, size) < share.kept then Visible(share, size, n - 1) + [share.items[n - 1]]
    else Visible(share, size, n - 1)
  }

  /** Everything a source shows on its pages. */
  function Shown(share: Share, size: nat): seq<Item>
    requires size >= 1
  {
    Visible(share, size, |share.items|)
  }

  function ShownLists(shares: seq<Share>, size: nat): (lists: seq<seq<Item>>)
    requires size >= 1
    ensures |lists| == |shares| && forall i :: 0 <= i < |shares| ==> lists[i] == Shown(shares[i], size)
  {
    seq(|shares|, i requires 0 <= i < |shares| => Shown(shares[i], size))
  }

  /** Everything the sources show. */
  function AllShown(shares: seq<Share>, size: nat): seq<Item>
    requires size >= 1
  {
    Joined(ShownLists(shares, size), |shares|)
  }

  /** The pages the UI offers: ceil(total / size). */
  function UiPages(shares: seq<Share>, size: nat): nat
    requires size >= 1
  {
    PageCount(Total(shares, |shares|), size)
  }

  /** All pages the UI offers, one after the other. */
  function WalkItems(shares: seq<Share>, size: nat): seq<Item>
    requires size >= 1
  {
    SharedWalk(Pages(shares, size), UiPages(shares, size), |shares|)
  }

  lemma {:induction false} TotalCoversEach(shares: seq<Share>, n: nat)
    requires n <= |shares|
    ensures forall i :: 0 <= i < n ==> |shares[i].items| <= Total(shares, n)
  {
    if n > 0 {
      TotalCoversEach(shares, n - 1);
    }
  }

  lemma {:induction false} PlaceOnPage(p: nat, size: nat, r: nat)
    requires r < size
    ensures Place(PageEnd(p, size) + r, size) == r
    decreases p, r
  {
    if r > 0 {
      PlaceOnPage(p, size, r - 1);
    } else if p > 0 {
      PlaceOnPage(p - 1, size, size - 1);
    }
  }

  lemma {:induction false} PlaceBound(q: nat, size: nat)
    requires size >= 1
    ensures Place(q, size) < size && Place(q, size) <= q && (q < size ==> Place(q, size) == q)
  {
    if q > 0 {
      PlaceBound(q - 1, size);
    }
  }

  lemma TakeNext(share: Share, lo: nat, r: nat)
    requires r > 0 && lo + r <= |share.items|
    ensures var before := Take(share.items[lo..lo + r - 1], share.kept);
      Take(share.items[lo..lo + r], share.kept) == if r - 1 < share.kept then before + [share.items[lo + r - 1]] else before
  {
    assert share.items[lo..lo + r] == share.items[lo..lo + r - 1] + [share.items[lo + r - 1]];
  }

  lemma VisibleNext(share: Share, size: nat, p: nat, lo: nat, r: nat)
    requires size >= 1 && 0 < r <= size && lo == PageEnd(p, size) && lo + r <= |share.items|
    ensures var before := Visible(share, size, lo + r - 1);
      Visible(share, size, lo + r) == if r - 1 < share.kept then before + [share.items[lo + r - 1]] else before
  {
    PlaceOnPage(p, size, r - 1);
  }

  lemma Regroup<T>(a: seq<T>, b: seq<T>, c: seq<T>)
    ensures (a + b) + c == a + (b + c)
  {
  }

  /** The first r rows of a page, as far as they are shown. */
  lemma {:induction false} VisiblePage(share: Share, size: nat, p: nat, lo: nat, r: nat)
    requires size >= 1 && r <= size && lo == PageEnd(p, size) && lo + r <= |share.items|
    ensures Visible(share, size, lo + r) == Visible(share, size, lo) + Take(share.items[lo..lo + r], share.kept)
  {
    if r > 0 {
      VisiblePage(share, size, p, lo, r - 1);
      VisibleNext(share, size, p, lo, r);
      TakeNext(share, lo, r);
      Regroup(Visible(share, size, lo), Take(share.items[lo..lo + r - 1], share.kept), [share.items[lo + r - 1]]);
    }
  }

  lemma PageRows<T>(rows: seq<T>, size: nat, p: nat)
    requires p >= 1
    ensures var n, lo := |rows|, PageEnd(p - 1, size);
      if lo < n then Page(rows, p, size) == rows[lo..lo + Min(size, n - lo)] && Min(PageEnd(p, size), n) == lo + Min(size, n - lo)
      else Page(rows, p, size) == [] && Min(PageEnd(p, size), n) == n == Min(lo, n)
  {
  }

  lemma PageInside(share: Share, size: nat, p: nat)
    requires size >= 1 && p >= 1 && PageEnd(p - 1, size) < |share.items|
    ensures var n := |share.items|;
      Visible(share, size, Min(PageEnd(p, size), n)) ==
        Visible(share, size, Min(PageEnd(p - 1, size), n)) + Take(Page(share.items, p, size), share.kept)
  {
    PageRows(share.items, size, p);
    VisiblePage(share, size, p - 1, PageEnd(p - 1, size), Min(size, |share.items| - PageEnd(p - 1, size)));
  }

  /** Page p of a source shows what there is to see between its ends. */
  lemma OwnPageIsVisible(share: Share, size: nat, p: nat)
    requires size >= 1 && p >= 1
    ensures var n := |share.items|;
      Visible(share, size, Min(PageEnd(p, size), n)) ==
        Visible(share, size, Min(PageEnd(p - 1, size), n)) + Take(Page(share.items, p, size), share.kept)
  {
    if PageEnd(p - 1, size) < |share.items| {
      PageInside(share, size, p);
    } else {
      PageRows(share.items, size, p);
    }
  }

  lemma {:induction false} OwnWalkIsVisible(shares: seq<Share>, size: nat, p: nat, i: nat)
    requires size >= 1 && i < |shares|
    ensures OwnWalk(Pages(shares, size), p, i) == Visible(shares[i], size, Min(PageEnd(p, size), |shares[i].items|))
  {
    if p > 0 {
      OwnWalkIsVisible(shares, size, p - 1, i);
      OwnPageIsVisible(shares[i], size, p);
    }
  }

  /** The pages the UI offers show every row that is shown at all exactly as often as it is
      there, which is once, although each schema is paged on its own. */
  lemma PagesCoverEachRowOnce(shares: seq<Share>, size: nat, x: Item)
    requires size >= 1
    ensures Occurrences(WalkItems(shares, size), x) == Occurrences(AllShown(shares, size), x)
    ensures |WalkItems(shares, size)| == |AllShown(shares, size)|
  {
    var n := UiPages(shares, size);
    TotalCoversEach(shares, |shares|);
    PageCountCovers(Total(shares, |shares|), size, n);
    forall i | 0 <= i < |shares| ensures OwnWalk(Pages(shares, size), n, i) == Shown(shares[i], size) {
      OwnWalkIsVisible(shares, size, n, i);
    }
    OneByOneIsJoined(Pages(shares, size), ShownLists(shares, size), n, |shares|);
    SharedWalkShowsAll(Pages(shares, size), n, |shares|, x);
  }

  /** A source shows its first n rows exactly when it lists a whole page, or all of them,
      before it fails. */
  lemma {:induction false} VisibleCount(share: Share, size: nat, n: nat)
    requires size >= 1 && n <= |share.items|
    ensures |Visible(share, size, n)| <= n
    ensures |Visible(share, size, n)| == n <==> Min(size, n) <= share.kept
  {
    if n > 0 {
      VisibleCount(share, size, n - 1);
      PlaceBound(n - 1, size);
    }
  }

  lemma {:induction false} JoinedCount(lists: seq<seq<Item>>, shares: seq<Share>, n: nat)
    requires n <= |shares| == |lists| && forall i :: 0 <= i < n ==> |lists[i]| <= |shares[i].items|
    ensures |Joined(lists, n)| <= Total(shares, n)
    ensures |Joined(lists, n)| == Total(shares, n) <==> forall i :: 0 <= i < n ==> |lists[i]| == |shares[i].items|
  {
    if n > 0 {
      JoinedCount(lists, shares, n - 1);
    }
  }

  /** The items of all pages number `total` if and only if every source that fails after its
      count had listed a whole page, or all its rows, by then; without failures they always do. */
  lemma ItemCountsSumToTotalIff(srcs: seq<Source>, f: Filter, size: nat)
    requires size >= 1
    ensures var shares := Shares(srcs, f);
      |WalkItems(shares, size)| == Total(shares, |shares|) <==>
        forall i :: 0 <= i < |srcs| && srcs[i].fault.AfterCount? ==> Min(size, |Counted(srcs[i], f)|) <= srcs[i].fault.kept
  {
    var shares := Shares(srcs, f);
    PagesCoverEachRowOnce(shares, size, Item(0, Operation(0, "", "", 0)));
    forall i | 0 <= i < |srcs|
      ensures |Shown(shares[i], size)| <= |shares[i].items|
      ensures |Shown(shares[i], size)| == |shares[i].items| <==>
        (srcs[i].fault.AfterCount? ==> Min(size, |Counted(srcs[i], f)|) <= srcs[i].fault.kept)
    {
      VisibleCount(shares[i], size, |shares[i].items|);
    }
    JoinedCount(ShownLists(shares, size), shares, |shares|);
  }

  // ----- The length of a page -----

  /** What the first n sources list at an offset. */
  function LeftAt(shares: seq<Share>, offset: nat, size: nat, n: nat): nat
    requires n <= |shares|
  {
    if n == 0 then 0
    else LeftAt(shares, offset, size, n - 1) + Min(shares[n - 1].kept, Max(0, Min(size, |shares[n - 1].items| - offset)))
  }

  lemma TakenLength<T>(rows: seq<T>, page: nat, size: nat, kept: nat)
    requires page >= 1
    ensures |Take(Page(rows, page, size), kept)| == Min(kept, Max(0, Min(size, |rows| - PageEnd(page - 1, size))))
  {
  }

  lemma {:induction false} ListedLength(shares: seq<Share>, page: nat, size: nat, n: nat)
    requires page >= 1 && n <= |shares|
    ensures |ListedTo(shares, page, size, n)| == LeftAt(shares, PageEnd(page - 1, size), size, n)
  {
    if n > 0 {
      ListedLength(shares, page, size, n - 1);
      TakenLength(shares[n - 1].items, page, size, shares[n - 1].kept);
    }
  }

  lemma SharedPageLength(shares: seq<Share>, page: nat, size: nat)
    requires page >= 1
    ensures |PageItems(shares, page, size)| == LeftAt(shares, PageEnd(page - 1, size), size, |shares|)
  {
    ListedLength(shares, page, size, |shares|);
    ListedIsPage(shares, page, size, |shares|);
  }

  /** The first page is the longest. */
  lemma {:induction false} LeftAtFirst(shares: seq<Share>, offset: nat, size: nat, n: nat)
    requires n <= |shares|
    ensures LeftAt(shares, offset, size, n) <= LeftAt(shares, 0, size, n)
  {
    if n > 0 {
      LeftAtFirst(shares, offset, size, n - 1);
    }
  }

  /** How many rows a source could list on one page. */
  function Reach(share: Share): nat {
    Min(share.kept, |share.items|)
  }

  function ReachAll(shares: seq<Share>, n: nat): nat
    requires n <= |shares|
  {
    if n == 0 then 0 else ReachAll(shares, n - 1) + Reach(shares[n - 1])
  }

  /** At most one source has rows to list. */
  ghost predicate OneSource(shares: seq<Share>) {
    forall i, j :: 0 <= i < j < |shares| ==> Reach(shares[i]) == 0 || Reach(shares[j]) == 0
  }

  lemma {:induction false} LeftAtLeast(shares: seq<Share>, size: nat, n: nat)
    requires n <= |shares|
    ensures LeftAt(shares, 0, size, n) <= ReachAll(shares, n)
    ensures forall i :: 0 <= i < n ==> LeftAt(shares, 0, size, n) >= Min(size, Reach(shares[i]))
    ensures (forall i :: 0 <= i < n ==> Reach(shares[i]) <= size) ==> LeftAt(shares, 0, size, n) == ReachAll(shares, n)
  {
    if n > 0 {
      LeftAtLeast(shares, size, n - 1);
    }
  }

  lemma {:induction false} LeftAtOfTwo(shares: seq<Share>, size: nat, i: nat, j: nat, n: nat)
    requires i < j < n <= |shares|
    ensures LeftAt(shares, 0, size, n) >= Min(size, Reach(shares[i])) + Min(size, Reach(shares[j]))
    decreases n
  {
    if j == n - 1 {
      LeftAtLeast(shares, size, n - 1);
    } else {
      LeftAtOfTwo(shares, size, i, j, n - 1);
    }
  }

  lemma {:induction false} LeftAtOfOne(shares: seq<Share>, size: nat, n: nat)
    requires n <= |shares| && OneSource(shares)
    ensures LeftAt(shares, 0, size, n) <= size
    ensures LeftAt(shares, 0, size, n) > 0 ==> exists i :: 0 <= i < n && Reach(shares[i]) > 0
  {
    if n > 0 {
      LeftAtOfOne(shares, size, n - 1);
    }
  }

  /** A page holds what each tenant has left at its offset, up to page_size of each and to
      where it fails. */
  lemma PageLength(shares: seq<Share>, page: nat, size: nat)
    requires page >= 1
    ensures |PageItems(shares, page, size)| == LeftAt(shares, (page - 1) * size, size, |shares|)
  {
    SharedPageLength(shares, page, size);
    PageEndIsProduct(page - 1, size);
  }

  lemma FirstPageOverflows(shares: seq<Share>, size: nat)
    requires size >= 1 && ReachAll(shares, |shares|) > size && !OneSource(shares)
    ensures LeftAt(shares, 0, size, |shares|) > size
  {
    var i, j :| 0 <= i < j < |shares| && Reach(shares[i]) != 0 && Reach(shares[j]) != 0;
    LeftAtLeast(shares, size, |shares|);
    if k :| 0 <= k < |shares| && Reach(shares[k]) > size {
      if k == i {
        LeftAtOfTwo(shares, size, i, j, |shares|);
      } else {
        LeftAtOfTwo(shares, size, Min(k, i), Max(k, i), |shares|);
      }
    }
  }

  lemma FirstPageFitsIff(shares: seq<Share>, size: nat)
    requires size >= 1
    ensures LeftAt(shares, 0, size, |shares|) <= size <==> ReachAll(shares, |shares|) <= size || OneSource(shares)
  {
    LeftAtLeast(shares, size, |shares|);
    if OneSource(shares) {
      LeftAtOfOne(shares, size, |shares|);
    } else if ReachAll(shares, |shares|) > size {
      FirstPageOverflows(shares, size);
    }
  }

  lemma FirstPageIsLongest(shares: seq<Share>, page: nat, size: nat)
    requires page >= 1
    ensures |PageItems(shares, page, size)| <= |PageItems(shares, 1, size)| == LeftAt(shares, 0, size, |shares|)
  {
    SharedPageLength(shares, page, size);
    SharedPageLength(shares, 1, size);
    LeftAtFirst(shares, PageEnd(page - 1, size), size, |shares|);
  }

  /** Every page keeps to page_size if and only if what the tenants can list fits on one page
      or no two tenants have anything to list. */
  lemma PagesKeepToSizeIff(shares: seq<Share>, size: nat)
    requires size >= 1
    ensures (forall page: nat :: page >= 1 ==> |PageItems(shares, page, size)| <= size) <==>
      ReachAll(shares, |shares|) <= size || OneSource(shares)
  {
    FirstPageFitsIff(shares, size);
    forall page: nat | page >= 1 ensures |PageItems(shares, page, size)| <= |PageItems(shares, 1, size)| {
      FirstPageIsLongest(shares, page, size);
    }
    FirstPageIsLongest(shares, 1, size);
  }

  /** Two ACTIVE tenants with one row each: a page of size 1 has two items. */
  lemma PageOverflows()
    ensures var op := Operation(1, "retain", "pending", 0);
      var all := [Source(Tenant(1, "a", "tenant_a", ACTIVE, 0), Rows([op]), NoFault),
                  Source(Tenant(2, "b", "tenant_b", ACTIVE, 0), Rows([op]), NoFault)];
      |PageItems(Shares(Asked(all, None), Filter(None, None)), 1, 1)| == 2
  {
    var op, f := Operation(1, "retain", "pending", 0), Filter(None, None);
    var a := Source(Tenant(1, "a", "tenant_a", ACTIVE, 0), Rows([op]), NoFault);
    var b := Source(Tenant(2, "b", "tenant_b", ACTIVE, 0), Rows([op]), NoFault);
    assert [a, b][1..] == [b] && [b][1..] == [];
    assert Active([b]) == [b] && Asked([a, b], None) == [a, b];
    assert Matching([op], f, 1) == [op];
    var shares := Shares([a, b], f);
    PageLength(shares, 1, 1);
    assert LeftAt(shares, 0, 1, 1) == 1;
  }

  // ----- What the pages show -----

  lemma {:induction false} MatchingCounts(rows: seq<Operation>, f: Filter, n: nat, op: Operation)
    requires n <= |rows|
    ensures Occurrences(Matching(rows, f, n), op) == if f.Keeps(op) then CountTo(rows, op, n) else 0
  {
    if n > 0 {
      MatchingCounts(rows, f, n - 1, op);
      OccurrencesConcat(Matching(rows, f, n - 1), [rows[n - 1]], op);
      CountOne(rows[n - 1], op);
      assert Matching(rows, f, n - 1) + [] == Matching(rows, f, n - 1);
    }
  }

  lemma CountOne(a: Operation, op: Operation)
    ensures Occurrences([a], op) == if a == op then 1 else 0
  {
    assert CountTo([a], op, 0) == 0;
  }

  lemma {:induction false} ItemsCount(t: Tenant, ops: seq<Operation>, n: nat, x: Item)
    requires n <= |ops|
    ensures CountTo(Items(t, ops), x, n) == if x.tenantId == t.id then CountTo(ops, x.op, n) else 0
  {
    if n > 0 {
      ItemsCount(t, ops, n - 1, x);
    }
  }

  /** A query parameter that is not given, or is that value. */
  predicate Allows(parameter: Option<string>, value: string) {
    parameter.None? || parameter.value == "" || parameter.value == value
  }

  /** How many rows of the source the item stands for, if it passes both parameters. */
  function RowsOf(src: Source, f: Filter, x: Item): nat {
    if src.table.Rows? && x.tenantId == src.tenant.id
       && Allows(f.status, x.op.status) && Allows(f.operationType, x.op.operationType)
    then Occurrences(src.table.rows, x.op) else 0
  }

  /** The same over the first n sources. */
  function RowsOfAll(srcs: seq<Source>, f: Filter, x: Item, n: nat): nat
    requires n <= |srcs|
  {
    if n == 0 then 0 else RowsOfAll(srcs, f, x, n - 1) + RowsOf(srcs[n - 1], f, x)
  }

  /** Without a failure everything is shown. */
  lemma {:induction false} AllVisible(share: Share, size: nat, n: nat)
    requires size >= 1 && n <= |share.items| <= share.kept
    ensures Visible(share, size, n) == share.items[..n]
  {
    if n > 0 {
      AllVisible(share, size, n - 1);
      PlaceBound(n - 1, size);
    }
  }

  lemma SourceShows(src: Source, f: Filter, size: nat, x: Item)
    requires size >= 1 && src.fault == NoFault
    ensures Occurrences(Shown(ShareOf(src, f), size), x) == RowsOf(src, f, x)
  {
    var ops, share := Counted(src, f), ShareOf(src, f);
    AllVisible(share, size, |share.items|);
    assert share.items[..|share.items|] == share.items;
    ItemsCount(src.tenant, ops, |ops|, x);
    if src.table.Rows? {
      MatchingCounts(src.table.rows, f, |src.table.rows|, x.op);
    }
  }

  lemma {:induction false} JoinedOccur(srcs: seq<Source>, f: Filter, lists: seq<seq<Item>>, n: nat, x: Item)
    requires n <= |srcs| == |lists| && forall i :: 0 <= i < n ==> Occurrences(lists[i], x) == RowsOf(srcs[i], f, x)
    ensures Occurrences(Joined(lists, n), x) == RowsOfAll(srcs, f, x, n)
  {
    if n > 0 {
      JoinedOccur(srcs, f, lists, n - 1, x);
      OccurrencesConcat(Joined(lists, n - 1), lists[n - 1], x);
    }
  }

  /** Without failures, the pages show exactly the matching rows of all schemas, each as
      often as it is there. */
  lemma PagesShowTheMatching(srcs: seq<Source>, f: Filter, size: nat, x: Item)
    requires size >= 1 && forall i :: 0 <= i < |srcs| ==> srcs[i].fault == NoFault
    ensures Occurrences(WalkItems(Shares(srcs, f), size), x) == RowsOfAll(srcs, f, x, |srcs|)
    ensures x in WalkItems(Shares(srcs, f), size) <==> RowsOfAll(srcs, f, x, |srcs|) > 0
  {
    var shares := Shares(srcs, f);
    PagesCoverEachRowOnce(shares, size, x);
    forall i | 0 <= i < |srcs| ensures Occurrences(Shown(shares[i], size), x) == RowsOf(srcs[i], f, x) {
      SourceShows(srcs[i], f, size, x);
    }
    JoinedOccur(srcs, f, ShownLists(shares, size), |srcs|, x);
    OccursIffIn(WalkItems(shares, size), x);
  }

  // ----- Statistics and details -----

  lemma {:induction false} CountIsMatching(rows: seq<Operation>, s: string, n: nat)
    requires s != "" && n <= |rows|
    ensures CountStatus(rows, s, n) == |Matching(rows, Filter(Some(s), None), n)|
  {
    if n > 0 {
      CountIsMatching(rows, s, n - 1);
    }
  }

  lemma CountIsShare(src: Source, s: string)
    requires s != "" && src.fault == NoFault
    ensures StatusCount(src, s) == |ShareOf(src, Filter(Some(s), None)).items|
  {
    if src.table.Rows? {
      CountIsMatching(src.table.rows, s, |src.table.rows|);
    }
  }

  lemma {:induction false} TotalIsSum(srcs: seq<Source>, s: string, shares: seq<Share>, n: nat)
    requires n <= |srcs| == |shares| && forall i :: 0 <= i < n ==> StatusCount(srcs[i], s) == |shares[i].items|
    ensures SumCounts(srcs, s, n) == Total(shares, n)
  {
    if n > 0 {
      TotalIsSum(srcs, s, shares, n - 1);
    }
  }

  /** On a snapshot without failures the count of each status on the statistics panel is the
      total of the details filtered by that status. */
  lemma {:induction false} StatsAgreeWithDetails(srcs: seq<Source>, s: string)
    requires s != "" && forall i :: 0 <= i < |srcs| ==> srcs[i].fault == NoFault
    ensures SumCounts(srcs, s, |srcs|) == Total(Shares(srcs, Filter(Some(s), None)), |srcs|)
  {
    forall i | 0 <= i < |srcs| ensures StatusCount(srcs[i], s) == |Shares(srcs, Filter(Some(s), None))[i].items| {
      CountIsShare(srcs[i], s);
    }
    TotalIsSum(srcs, s, Shares(srcs, Filter(Some(s), None)), |srcs|);
  }

  /** What a request for the details of all tenants answers, if it is answered. */
  function AllDetails(all: seq<Source>, status: string, page: nat, size: nat): DetailsAnswer
    requires page >= 1
  {
    var shares := Shares(Asked(all, None), Filter(Some(status), None));
    DetailsAnswer(PageItems(shares, page, size), Total(shares, |shares|))
  }

  lemma TotalAgrees(all: seq<Source>, s: string, page: nat, size: nat)
    requires page >= 1 && s != "" && forall src :: src in all && src.tenant.status == ACTIVE ==> src.fault == NoFault
    ensures SumCounts(Active(all), s, |Active(all)|) == AllDetails(all, s, page, size).total
  {
    ActiveFrom(all);
    StatsAgreeWithDetails(Active(all), s);
  }

  /** The two endpoints agree, when they answer: on one snapshot in which no ACTIVE tenant's
      queries fail, what the statistics answer of each status is the total that the details of
      all tenants answer when they are filtered by it. */
  lemma EndpointsAgree(all: seq<Source>, stats: Stats, page: nat, size: nat, pending: DetailsAnswer, processing: DetailsAnswer,
                       completed: DetailsAnswer, failed: DetailsAnswer, cancelled: DetailsAnswer)
    requires page >= 1 && forall src :: src in all && src.tenant.status == ACTIVE ==> src.fault == NoFault
    requires var srcs, n := Active(all), |Active(all)|;
      && stats.pending == SumCounts(srcs, "pending", n) && stats.processing == SumCounts(srcs, "processing", n)
      && stats.completed == SumCounts(srcs, "completed", n) && stats.failed == SumCounts(srcs, "failed", n)
      && stats.cancelled == SumCounts(srcs, "cancelled", n)
    requires pending == AllDetails(all, "pending", page, size) && processing == AllDetails(all, "processing", page, size)
    requires completed == AllDetails(all, "completed", page, size) && failed == AllDetails(all, "failed", page, size)
    requires cancelled == AllDetails(all, "cancelled", page, size)
    ensures stats.pending == pending.total && stats.processing == processing.total && stats.completed == completed.total
    ensures stats.failed == failed.total && stats.cancelled == cancelled.total
  {
    TotalAgrees(all, "pending", page, size);
    TotalAgrees(all, "processing", page, size);
    TotalAgrees(all, "completed", page, size);
    TotalAgrees(all, "failed", page, size);
    TotalAgrees(all, "cancelled", page, size);
  }

  // ----- Whose rows -----

  lemma {:induction false} WithIdFinds(all: seq<Source>, id: Id)
    requires forall i, j :: 0 <= i < j < |all| ==> all[i].tenant.id != all[j].tenant.id
    ensures forall src :: WithId(all, id) == [src] <==> src in all && src.tenant.id == id
    ensures WithId(all, id) == [] <==> forall src :: src in all ==> src.tenant.id != id
  {
    if all != [] {
      WithIdFinds(all[1..], id);
      assert all == [all[0]] + all[1..];
      forall src | src in all[1..] ensures src.tenant.id != all[0].tenant.id {
        var j :| 0 <= j < |all[1..]| && all[1..][j] == src;
        assert all[j + 1] == src;
      }
    }
  }

  /** A request about one tenant reads that tenant, whatever its status, and no other; one
      about all reads the ACTIVE ones. */
  lemma AskedAre(all: seq<Source>, tenantId: Option<Id>)
    requires forall i, j :: 0 <= i < j < |all| ==> all[i].tenant.id != all[j].tenant.id
    ensures tenantId.Some? ==> forall src :: Asked(all, tenantId) == [src] <==> src in all && src.tenant.id == tenantId.value
    ensures tenantId.Some? ==> (Asked(all, tenantId) == [] <==> forall src :: src in all ==> src.tenant.id != tenantId.value)
    ensures forall src :: src in Asked(all, tenantId) <==>
      src in all && if tenantId.Some? then src.tenant.id == tenantId.value else src.tenant.status == ACTIVE
  {
    ActiveFrom(all);
    if tenantId.Some? {
      WithIdFinds(all, tenantId.value);
      WithIdIsOne(all, tenantId.value);
      if Asked(all, tenantId) != [] {
        assert Asked(all, tenantId) == [Asked(all, tenantId)[0]];
      }
    }
  }

  lemma {:induction false} RowsOfAllPositive(srcs: seq<Source>, f: Filter, x: Item, n: nat)
    requires n <= |srcs|
    ensures RowsOfAll(srcs, f, x, n) > 0 <==> exists i :: 0 <= i < n && RowsOf(srcs[i], f, x) > 0
  {
    if n > 0 {
      RowsOfAllPositive(srcs, f, x, n - 1);
    }
  }

  /** The item is a row of the source that passes both parameters. */
  predicate RowPasses(x: Item, src: Source, f: Filter) {
    && src.table.Rows? && x.tenantId == src.tenant.id && x.op in src.table.rows
    && Allows(f.status, x.op.status) && Allows(f.operationType, x.op.operationType)
  }

  lemma PagesShowPassing(srcs: seq<Source>, f: Filter, size: nat, x: Item)
    requires size >= 1 && forall src :: src in srcs ==> src.fault == NoFault
    ensures x in WalkItems(Shares(srcs, f), size) <==> exists src :: src in srcs && RowPasses(x, src, f)
  {
    PagesShowTheMatching(srcs, f, size, x);
    RowsOfAllPositive(srcs, f, x, |srcs|);
    forall i | 0 <= i < |srcs| ensures RowsOf(srcs[i], f, x) > 0 <==> RowPasses(x, srcs[i], f) {
      if srcs[i].table.Rows? {
        OccursIffIn(srcs[i].table.rows, x.op);
      }
    }
  }

  /** Without failures, what the pages of a request show are exactly the matching rows of the
      tenant asked about, or, when none is given, of the ACTIVE tenants. */
  lemma PagesShowTheAsked(all: seq<Source>, tenantId: Option<Id>, f: Filter, size: nat, x: Item)
    requires size >= 1 && forall i, j :: 0 <= i < j < |all| ==> all[i].tenant.id != all[j].tenant.id
    requires forall src :: src in all ==> src.fault == NoFault
    ensures x in WalkItems(Shares(Asked(all, tenantId), f), size) <==>
      exists src :: src in all && RowPasses(x, src, f)
        && if tenantId.Some? then src.tenant.id == tenantId.value else src.tenant.status == ACTIVE
  {
    AskedAre(all, tenantId);
    PagesShowPassing(Asked(all, tenantId), f, size, x);
  }
}
