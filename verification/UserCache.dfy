// hindsight_manager/platform/cache.py: an LRU cache whose entries carry the time
// they were written. `data` is the OrderedDict: oldest first, one entry a key.

module UserCache {
  import opened Common

  type UserId = nat
  type UserInfo = map<string, string>

  datatype Entry = Entry(key: UserId, ts: real, value: UserInfo)

  ghost predicate Distinct(d: seq<Entry>) {
    forall i, j :: 0 <= i < j < |d| ==> d[i].key != d[j].key
  }

  /** Position of k in d, or |d| when k has no entry. */
  function Index(d: seq<Entry>, k: UserId): (i: nat)
    ensures i <= |d|
    ensures i < |d| ==> d[i].key == k
    ensures forall j :: 0 <= j < i ==> d[j].key != k
  {
    if d == [] || d[0].key == k then 0 else 1 + Index(d[1..], k)
  }

  function Find(d: seq<Entry>, k: UserId): Option<Entry> {
    var i := Index(d, k);
    if i < |d| then Some(d[i]) else None
  }

  /** d without the entry of k, the others in their order. */
  function Without(d: seq<Entry>, k: UserId): seq<Entry> {
    if d == [] then [] else if d[0].key == k then d[1..] else [d[0]] + Without(d[1..], k)
  }

  /** The cache after a lookup of k at `now`, and what the lookup answers. */
  function AfterGet(d: seq<Entry>, ttl: real, k: UserId, now: real): (seq<Entry>, Option<UserInfo>) {
    match Find(d, k)
    case None => (d, None)
    case Some(e) =>
      if now - e.ts > ttl then (Without(d, k), None) else (Without(d, k) + [e], Some(e.value))
  }

  /** The `n` most recently used entries of d. */
  function Newest(d: seq<Entry>, n: nat): seq<Entry> {
    if |d| <= n then d else d[|d| - n..]
  }

  /** The cache after k is written at `now`. */
  function AfterSet(d: seq<Entry>, capacity: nat, k: UserId, v: UserInfo, now: real): seq<Entry> {
    Newest(Without(d, k) + [Entry(k, now, v)], capacity)
  }

  function AfterBatch(d: seq<Entry>, capacity: nat, items: seq<(UserId, UserInfo)>, times: seq<real>): seq<Entry>
    requires |items| == |times|
  {
    if items == [] then d else
    var n := |items| - 1;
    AfterSet(AfterBatch(d, capacity, items[..n], times[..n]), capacity, items[n].0, items[n].1, times[n])
  }

  /** `d[k] = e` on an ordered dictionary: an existing key keeps its position. */
  function Assign(d: seq<Entry>, e: Entry): seq<Entry> {
    var i := Index(d, e.key);
    if i < |d| then d[i := e] else d + [e]
  }

  function MoveToEnd(d: seq<Entry>, k: UserId): seq<Entry>
    requires Find(d, k).Some?
  {
    Without(d, k) + [Find(d, k).value]
  }

  /** Entry i of what is left sat at i, or one further when k came before it. */
  lemma {:induction false} WithoutAt(d: seq<Entry>, k: UserId)
    ensures |Without(d, k)| == if Index(d, k) < |d| then |d| - 1 else |d|
    ensures forall i :: 0 <= i < |Without(d, k)| ==> Without(d, k)[i] == d[if i < Index(d, k) then i else i + 1]
  {
    if d != [] && d[0].key != k {
      WithoutAt(d[1..], k);
    }
  }

  lemma AssignThenMove(d: seq<Entry>, e: Entry)
    requires Distinct(d)
    ensures Find(Assign(d, e), e.key) == Some(e)
    ensures MoveToEnd(Assign(d, e), e.key) == Without(d, e.key) + [e]
  {
    var i := Index(d, e.key);
    var a := Assign(d, e);
    assert a[i] == e;
    assert Index(a, e.key) == i;
    WithoutAt(d, e.key);
    WithoutAt(a, e.key);
    assert Without(a, e.key) == Without(d, e.key);
  }

  /** Dropping a key drops exactly its entry. */
  lemma WithoutFacts(d: seq<Entry>, k: UserId)
    requires Distinct(d)
    ensures Distinct(Without(d, k))
    ensures forall e :: e in Without(d, k) <==> e in d && e.key != k
    ensures |Without(d, k)| == if Find(d, k).Some? then |d| - 1 else |d|
  {
  }

  lemma SetFacts(d: seq<Entry>, e: Entry)
    requires Distinct(d)
    ensures var a := Assign(d, e);
      && Find(a, e.key).Some?
      && MoveToEnd(a, e.key) == Without(d, e.key) + [e]
      && Distinct(MoveToEnd(a, e.key)) && |MoveToEnd(a, e.key)| <= |d| + 1
  {
    AssignThenMove(d, e);
    WithoutFacts(d, e.key);
  }

  class UserLRUCache {
    const capacity: nat
    const ttl: real
    var data: seq<Entry>

    ghost predicate Valid() reads this {
      Distinct(data) && |data| <= capacity
    }

    constructor (capacity: nat, ttl: real)
      ensures Valid() && data == [] && this.capacity == capacity && this.ttl == ttl
    {
      this.capacity, this.ttl, data := capacity, ttl, [];
    }

    method Get(k: UserId, now: real) returns (r: Option<UserInfo>)
      requires Valid()
      modifies this`data
      ensures Valid() && (data, r) == AfterGet(old(data), ttl, k, now)
    {
      WithoutFacts(data, k);
      var entry := Find(data, k);
      if entry.None? {
        return None;
      }
      var Entry(_, ts, value) := entry.value;
      if now - ts > ttl {
        data := Without(data, k);
        return None;
      }
      data := MoveToEnd(data, k);
      return Some(value);
    }

    /** `evictions` counts the turns of the eviction loop. */
    method Set(k: UserId, v: UserInfo, now: real) returns (ghost evictions: nat)
      requires Valid()
      modifies this`data
      ensures Valid() && data == AfterSet(old(data), capacity, k, v, now)
      ensures evictions <= 1
    {
      var e := Entry(k, now, v);
      SetFacts(data, e);
      data := Assign(data, e);
      data := MoveToEnd(data, k);
      ghost var full := data;
      evictions := 0;
      while |data| > capacity
        invariant evictions <= 1 && evictions <= |full| && data == full[evictions..]
        invariant evictions == 1 ==> |data| == capacity
      {
        data := data[1..];
        evictions := evictions + 1;
      }
    }

    /** Every item is written with its own clock read. */
    method BatchSet(items: seq<(UserId, UserInfo)>, times: seq<real>)
      requires Valid() && |items| == |times|
      modifies this`data
      ensures Valid() && data == AfterBatch(old(data), capacity, items, times)
    {
      for i := 0 to |items|
        invariant Valid() && data == AfterBatch(old(data), capacity, items[..i], times[..i])
      {
        assert items[..i + 1][..i] == items[..i] && times[..i + 1][..i] == times[..i];
        var _ := Set(items[i].0, items[i].1, times[i]);
      }
      assert items[..|items|] == items && times[..|items|] == times;
    }

    method Clear()
      modifies this`data
      ensures Valid() && data == []
    {
      data := [];
    }
  }
}
