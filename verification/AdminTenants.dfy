// hindsight_manager/api/admin.py: the searched and paged tenant list.

module AdminTenants {
  import opened Common
  import opened LikeSearch
  import opened Models
  import opened Paging

  /** The WHERE clause of both queries. No search text, or an empty one, adds nothing. */
  predicate Selected(t: Tenant, fold: char -> char, search: Option<string>) {
    && t.status != DELETED
    && (search.Some? && search.value != "" ==> ILike(fold, LikePattern(search.value), t.name))
  }

  /** The selected rows of a query that visits the table in this order. */
  function Query(order: seq<Tenant>, fold: char -> char, search: Option<string>): seq<Tenant> {
    if order == [] then []
    else (if Selected(order[0], fold, search) then [order[0]] else []) + Query(order[1..], fold, search)
  }

  datatype Item = Item(tenant: Tenant, memberCount: nat, apiKeyCount: nat, ownerUserId: Option<Id>,
                       owner: Option<string>, ownerDisplayName: Option<string>)

  /** What the platform knows of a user; either name can be missing. */
  datatype User = User(username: Option<string>, displayName: Option<string>)

  ghost predicate Describes(item: Item, t: Tenant, members: set<TenantMember>, keys: set<ApiKey>) {
    && item.tenant == t
    && item.memberCount == |set m | m in members && m.tenantId == t.id|
    && item.apiKeyCount == |set k | k in keys && k.tenantId == t.id|
    && (item.ownerUserId.None? <==> forall m :: m in members && m.tenantId == t.id ==> m.role != OWNER)
    && (item.ownerUserId.Some? ==> TenantMember(item.ownerUserId.value, t.id, OWNER) in members)
  }

  /** The names of the owner, if there is one and the platform knows the user. */
  predicate NamesOwner(item: Item, platform: Id -> Option<User>) {
    var user := if item.ownerUserId.Some? then platform(item.ownerUserId.value) else None;
    && item.owner == (if user.Some? then user.value.username else None)
    && item.ownerDisplayName == (if user.Some? then user.value.displayName else None)
  }

  /** The owners' names, filled in after one batch request to the platform. */
  method NameOwners(items: seq<Item>, platform: Id -> Option<User>) returns (named: seq<Item>)
    requires forall i :: 0 <= i < |items| ==> items[i].owner == None && items[i].ownerDisplayName == None
    ensures |named| == |items|
    ensures forall i :: 0 <= i < |items| ==>
      NamesOwner(named[i], platform) && items[i] == named[i].(owner := None, ownerDisplayName := None)
  {
    named := items;
    for i := 0 to |items|
      invariant |named| == |items| && forall j :: i <= j < |items| ==> named[j] == items[j]
      invariant forall j :: 0 <= j < i ==>
        NamesOwner(named[j], platform) && items[j] == named[j].(owner := None, ownerDisplayName := None)
    {
      var owner := items[i].ownerUserId;
      if owner.Some? && platform(owner.value).Some? {
        var user := platform(owner.value).value;
        named := named[i := items[i].(owner := user.username, ownerDisplayName := user.displayName)];
      }
    }
  }

  /** `platform` is what the platform answers for each user it is asked about. */
  method ListTenantsAdmin(order: seq<Tenant>, fold: char -> char, search: Option<string>, page: nat, pageSize: nat,
                          members: set<TenantMember>, keys: set<ApiKey>, platform: Id -> Option<User>)
    returns (items: seq<Item>, total: nat)
    requires page >= 1 && 1 <= pageSize <= 100
    ensures total == |Query(order, fold, search)|
    ensures var tenants := Page(Query(order, fold, search), page, pageSize);
      |items| == |tenants| && forall i :: 0 <= i < |items| ==>
        Describes(items[i], tenants[i], members, keys) && NamesOwner(items[i], platform)
    ensures var tenants := Page(Query(order, fold, search), page, pageSize);
      forall i :: 0 <= i < |items| ==>
        var item, t := items[i], tenants[i];
        && item.tenant == t && item.memberCount == |set m | m in members && m.tenantId == t.id|
        && item.apiKeyCount == |set k | k in keys && k.tenantId == t.id|
    ensures forall i :: 0 <= i < |items| && items[i].ownerUserId.Some? ==>
      && TenantMember(items[i].ownerUserId.value, items[i].tenant.id, OWNER) in members
      && (platform(items[i].ownerUserId.value).Some? ==>
            && items[i].owner == platform(items[i].ownerUserId.value).value.username
            && items[i].ownerDisplayName == platform(items[i].ownerUserId.value).value.displayName)
  {
    total := |Query(order, fold, search)|;
    var tenants := Page(Query(order, fold, search), page, pageSize);
    items := [];
    for i := 0 to |tenants|
      invariant |items| == i && forall j :: 0 <= j < i ==>
        && Describes(items[j], tenants[j], members, keys) && items[j].owner == None && items[j].ownerDisplayName == None
    {
      var t := tenants[i];
      var memberCount := |set m | m in members && m.tenantId == t.id|;
      var apiKeyCount := |set k | k in keys && k.tenantId == t.id|;
      var owner := None;
      if m :| m in members && m.tenantId == t.id && m.role == OWNER {
        owner := Some(m.userId);
      }
      items := items + [Item(t, memberCount, apiKeyCount, owner, None, None)];
    }
    items := NameOwners(items, platform);
  }

  /** What a user of the page expects to find: not deleted, and the name contains the
      search text up to letter case. */
  ghost predicate Wanted(t: Tenant, fold: char -> char, search: Option<string>) {
    t.status != DELETED && Contains(Folded(fold, t.name), Folded(fold, if search.Some? then search.value else ""))
  }

  lemma SelectedIsWanted(t: Tenant, fold: char -> char, search: Option<string>)
    requires KeepsSpecials(fold)
    ensures Selected(t, fold, search) <==> Wanted(t, fold, search)
  {
    if search.Some? && search.value != "" {
      SearchIgnoresCase(fold, search.value, t.name);
    } else {
      assert OccursAt(Folded(fold, t.name), Folded(fold, ""), 0);
    }
  }

  lemma {:induction false} QueryFinds(order: seq<Tenant>, fold: char -> char, search: Option<string>)
    requires KeepsSpecials(fold)
    ensures forall t :: t in Query(order, fold, search) <==> t in order && Wanted(t, fold, search)
    ensures multiset(Query(order, fold, search)) <= multiset(order)
  {
    if order != [] {
      QueryFinds(order[1..], fold, search);
      SelectedIsWanted(order[0], fold, search);
      assert order == [order[0]] + order[1..];
    }
  }

  /** The query keeps the order of the rows it selects, each as often as it is there. */
  lemma {:induction false} QueryConcat(a: seq<Tenant>, b: seq<Tenant>, fold: char -> char, search: Option<string>)
    ensures Query(a + b, fold, search) == Query(a, fold, search) + Query(b, fold, search)
  {
    if a == [] {
      assert a + b == b;
    } else {
      QueryConcat(a[1..], b, fold, search);
      assert (a + b)[1..] == a[1..] + b;
    }
  }

  lemma QueryOne(t: Tenant, fold: char -> char, search: Option<string>)
    requires KeepsSpecials(fold)
    ensures Query([t], fold, search) == if Wanted(t, fold, search) then [t] else []
  {
    SelectedIsWanted(t, fold, search);
    assert [t][1..] == [];
  }

  lemma {:induction false} QueryDistinct(order: seq<Tenant>, fold: char -> char, search: Option<string>)
    requires KeepsSpecials(fold)
    requires forall i, j :: 0 <= i < j < |order| ==> order[i] != order[j]
    ensures var q := Query(order, fold, search); forall i, j :: 0 <= i < j < |q| ==> q[i] != q[j]
  {
    if order != [] {
      QueryDistinct(order[1..], fold, search);
      QueryFinds(order[1..], fold, search);
      var q := Query(order[1..], fold, search);
      assert forall i :: 0 <= i < |q| ==> q[i] in q;
    }
  }

  ghost predicate NewestFirst(order: seq<Tenant>) {
    forall i, j :: 0 <= i < j < |order| ==> order[i].createdAt >= order[j].createdAt
  }

  lemma {:induction false} QueryNewestFirst(order: seq<Tenant>, fold: char -> char, search: Option<string>)
    requires KeepsSpecials(fold) && NewestFirst(order)
    ensures NewestFirst(Query(order, fold, search))
  {
    if order != [] {
      QueryNewestFirst(order[1..], fold, search);
      QueryFinds(order[1..], fold, search);
      var q := Query(order[1..], fold, search);
      assert forall i :: 0 <= i < |q| ==> q[i] in q;
    }
  }

  /** With one fixed order of the rows, pages 1 to ceil(total / pageSize) concatenate to the
      wanted tenants in that order, each once, so newest first if the order is; and `total`
      counts them. */
  lemma PagesListTheWanted(order: seq<Tenant>, fold: char -> char, search: Option<string>, pageSize: nat)
    requires pageSize >= 1 && KeepsSpecials(fold)
    requires forall i, j :: 0 <= i < j < |order| ==> order[i] != order[j]
    ensures var total := |Query(order, fold, search)|;
      var shown := Walk(Query(order, fold, search), pageSize, PageCount(total, pageSize));
      && EachOnce(shown, set t | t in order && Wanted(t, fold, search)) && |shown| == total
      && shown == Query(order, fold, search) && (NewestFirst(order) ==> NewestFirst(shown))
  {
    var q := Query(order, fold, search);
    PageCountCovers(|q|, pageSize, PageCount(|q|, pageSize));
    WalkIsAll(q, pageSize, PageCount(|q|, pageSize));
    QueryFinds(order, fold, search);
    QueryDistinct(order, fold, search);
    if NewestFirst(order) {
      QueryNewestFirst(order, fold, search);
    }
    ElementsCount(q);
    assert Elements(q) == set t | t in order && Wanted(t, fold, search);
  }

  lemma QueryOrdered(order: seq<Tenant>, table: set<Tenant>, fold: char -> char, search: Option<string>)
    requires KeepsSpecials(fold)
    requires Ordering(order, table, (t: Tenant) => t.createdAt)
    ensures Ordering(Query(order, fold, search), set t | t in table && Wanted(t, fold, search), (t: Tenant) => t.createdAt)
  {
    QueryFinds(order, fold, search);
    QueryDistinct(order, fold, search);
    assert NewestFirst(order);
    QueryNewestFirst(order, fold, search);
  }

  /** created_at alone orders the list, so each page request may order equal times its own
      way. All page walks are exact if and only if no two wanted tenants next to each other
      across a page boundary were created at the same time. */
  lemma PagesExactIffNoTie(base: seq<Tenant>, table: set<Tenant>, fold: char -> char, search: Option<string>, pageSize: nat)
    requires pageSize >= 1 && KeepsSpecials(fold)
    requires Ordering(base, table, (t: Tenant) => t.createdAt)
    ensures var rows := set t | t in table && Wanted(t, fold, search);
      var key := (t: Tenant) => t.createdAt;
      var first := Query(base, fold, search);
      NoTieAcrossPages(first, key, pageSize) <==>
        forall orders: seq<seq<Tenant>> :: PageOrders(orders, rows, key, PageCount(|first|, pageSize)) ==>
          EachOnce(WalkOf(orders, pageSize), rows)
  {
    var rows := set t | t in table && Wanted(t, fold, search);
    QueryOrdered(base, table, fold, search);
    var first := Query(base, fold, search);
    WalkIsExactIff(first, rows, (t: Tenant) => t.createdAt, pageSize, PageCount(|first|, pageSize));
  }
}
