// Whole-run properties of the user cache. Every operation holds the lock, so a
// run is a sequence of operations; `batch_set` contributes one write an item.

module CacheRuns {
  import opened Common
  import opened UserCache

  datatype Op =
    | Get(key: UserId, now: real)
    | Set(key: UserId, value: UserInfo, now: real)
    | Clear

  /** What the callers of the cache saw. */
  datatype Event =
    | Hit(key: UserId, value: UserInfo, now: real)
    | Miss(key: UserId, now: real)
    | Put(key: UserId, value: UserInfo, now: real)
    | Cleared

  datatype State = State(data: seq<Entry>, log: seq<Event>)

  function Step(s: State, capacity: nat, ttl: real, op: Op): State {
    match op
    case Get(k, now) =>
      var (d, r) := AfterGet(s.data, ttl, k, now);
      State(d, s.log + [if r.Some? then Hit(k, r.value, now) else Miss(k, now)])
    case Set(k, v, now) =>
      State(AfterSet(s.data, capacity, k, v, now), s.log + [Put(k, v, now)])
    case Clear => State([], s.log + [Cleared])
  }

  function Run(ops: seq<Op>, capacity: nat, ttl: real): State {
    if ops == [] then State([], [])
    else Step(Run(ops[..|ops| - 1], capacity, ttl), capacity, ttl, ops[|ops| - 1])
  }

  // ----- Readings of the log, which know nothing of capacity or order -----

  /** The last write of k since the last clear. */
  function LastPut(log: seq<Event>, k: UserId): Option<Entry> {
    if log == [] then None else
    var rest := log[..|log| - 1];
    match log[|log| - 1]
    case Put(j, v, now) => if j == k then Some(Entry(k, now, v)) else LastPut(rest, k)
    case Cleared => None
    case _ => LastPut(rest, k)
  }

  /** The keys other than k written or hit since k last was. */
  function OthersSince(log: seq<Event>, k: UserId): set<UserId> {
    if log == [] then {} else
    var e, rest := log[|log| - 1], log[..|log| - 1];
    match e
    case Miss(_, _) => OthersSince(rest, k)
    case Cleared => {}
    case _ => if e.key == k then {} else OthersSince(rest, k) + {e.key}
  }

  /** Since k was last written, some lookup of k read the clock more than ttl past that write. */
  predicate SeenExpired(log: seq<Event>, k: UserId, ttl: real) {
    if log == [] then false else
    var e, rest := log[|log| - 1], log[..|log| - 1];
    match e
    case Cleared => false
    case Put(j, _, _) => j != k && SeenExpired(rest, k, ttl)
    case _ =>
      || SeenExpired(rest, k, ttl)
      || (e.key == k && LastPut(rest, k).Some? && e.now - LastPut(rest, k).value.ts > ttl)
  }

  // ----- The invariant of a run -----

  /** Every entry is the last write of its key. */
  ghost predicate Sound(s: State) {
    forall e :: e in s.data ==> LastPut(s.log, e.key) == Some(e)
  }

  /** A younger entry was used after every older one. */
  ghost predicate ByRecency(s: State) {
    forall i, j :: 0 <= i < j < |s.data| ==> s.data[j].key in OthersSince(s.log, s.data[i].key)
  }

  /** A written key that is gone was seen expired, or `capacity` other keys were used since. */
  ghost predicate OnlyJustifiedLosses(s: State, capacity: nat, ttl: real) {
    forall k :: Find(s.data, k).None? && LastPut(s.log, k).Some? ==>
      |OthersSince(s.log, k)| >= capacity || SeenExpired(s.log, k, ttl)
  }

  /** What a lookup found expired is gone until it is written again. */
  ghost predicate ExpiredIsGone(s: State, ttl: real) {
    forall k :: SeenExpired(s.log, k, ttl) ==> Find(s.data, k).None?
  }

  ghost predicate Inv(s: State, capacity: nat, ttl: real) {
    && Distinct(s.data) && |s.data| <= capacity
    && Sound(s) && ByRecency(s) && OnlyJustifiedLosses(s, capacity, ttl) && ExpiredIsGone(s, ttl)
  }

  lemma FindIn(d: seq<Entry>, k: UserId)
    requires Distinct(d)
    ensures forall e :: Find(d, k) == Some(e) <==> e in d && e.key == k
  {
  }

  /** The positions of two kept entries come from positions in the same order. */
  lemma WithoutKeepsOrder(d: seq<Entry>, k: UserId, i: nat, j: nat) returns (a: nat, b: nat)
    requires i < j < |Without(d, k)|
    ensures a < b < |d| && d[a] == Without(d, k)[i] && d[b] == Without(d, k)[j]
  {
    WithoutAt(d, k);
    a, b := if i < Index(d, k) then i else i + 1, if j < Index(d, k) then j else j + 1;
  }

  function Keys(d: seq<Entry>): set<UserId> {
    set e | e in d :: e.key
  }

  lemma {:induction false} DistinctKeys(d: seq<Entry>)
    requires Distinct(d)
    ensures |Keys(d)| == |d|
  {
    if d == [] {
      assert Keys(d) == {};
    } else {
      DistinctKeys(d[1..]);
      assert d == [d[0]] + d[1..];
      assert Keys(d) == {d[0].key} + Keys(d[1..]);
    }
  }

  /** Using k moves it behind the others: order and provenance hold of the result. */
  lemma TouchKeeps(s: State, e: Entry, log: seq<Event>)
    requires Distinct(s.data) && Sound(s) && ByRecency(s)
    requires |log| == |s.log| + 1 && log[..|s.log|] == s.log && (log[|s.log|].Hit? || log[|s.log|].Put?)
    requires log[|s.log|].key == e.key && LastPut(log, e.key) == Some(e)
    ensures var t := State(Without(s.data, e.key) + [e], log);
      Distinct(t.data) && Sound(t) && ByRecency(t)
  {
    WithoutFacts(s.data, e.key);
    var w := Without(s.data, e.key);
    forall i, j | 0 <= i < j < |w| + 1
      ensures (w + [e])[j].key in OthersSince(log, (w + [e])[i].key)
    {
      assert w[i] in w;
      if j < |w| {
        var a, b := WithoutKeepsOrder(s.data, e.key, i, j);
      }
    }
  }

  /** The readings of a log that has one more lookup. */
  lemma AfterLookup(log: seq<Event>, e: Event, j: UserId, ttl: real)
    requires e.Hit? || e.Miss?
    ensures LastPut(log + [e], j) == LastPut(log, j)
    ensures OthersSince(log, j) <= OthersSince(log + [e], j) || (e.Hit? && e.key == j)
    ensures SeenExpired(log + [e], j, ttl) <==>
      SeenExpired(log, j, ttl) || (e.key == j && LastPut(log, j).Some? && e.now - LastPut(log, j).value.ts > ttl)
  {
    assert (log + [e])[..|log|] == log;
  }

  /** A lookup keeps Distinct, Sound and ByRecency. */
  lemma GetKeepsOrder(s: State, capacity: nat, ttl: real, k: UserId, now: real)
    requires Distinct(s.data) && Sound(s) && ByRecency(s)
    ensures var t := Step(s, capacity, ttl, Get(k, now)); Distinct(t.data) && Sound(t) && ByRecency(t)
  {
    var t := Step(s, capacity, ttl, Get(k, now));
    assert t.log[..|s.log|] == s.log;
    WithoutFacts(s.data, k);
    FindIn(s.data, k);
    if t.log[|s.log|].Hit? {
      TouchKeeps(s, Find(s.data, k).value, t.log);
    } else if Find(s.data, k).Some? {
      forall i, j | 0 <= i < j < |t.data| ensures t.data[j].key in OthersSince(t.log, t.data[i].key) {
        var a, b := WithoutKeepsOrder(s.data, k, i, j);
      }
    }
  }

  /** Which entries a lookup leaves. */
  lemma GetLeaves(d: seq<Entry>, ttl: real, k: UserId, now: real, j: UserId)
    requires Distinct(d)
    ensures var (t, r) := AfterGet(d, ttl, k, now);
      Find(t, j) == if j == k && r.None? then None else Find(d, j)
  {
    WithoutFacts(d, k);
    FindIn(d, k);
    FindIn(d, j);
    var t := AfterGet(d, ttl, k, now).0;
    assert Distinct(t);
    FindIn(t, j);
    if Find(d, j).Some? && (j != k || t != Without(d, k)) {
      assert Find(d, j).value in t;
    }
  }

  lemma GetKeepsInv(s: State, capacity: nat, ttl: real, k: UserId, now: real)
    requires Inv(s, capacity, ttl)
    ensures Inv(Step(s, capacity, ttl, Get(k, now)), capacity, ttl)
  {
    var t := Step(s, capacity, ttl, Get(k, now));
    var ev := t.log[|s.log|];
    GetKeepsOrder(s, capacity, ttl, k, now);
    WithoutFacts(s.data, k);
    FindIn(s.data, k);
    forall j
      ensures Find(t.data, j).None? && LastPut(t.log, j).Some? ==>
        |OthersSince(t.log, j)| >= capacity || SeenExpired(t.log, j, ttl)
      ensures SeenExpired(t.log, j, ttl) ==> Find(t.data, j).None?
    {
      GetLeaves(s.data, ttl, k, now, j);
      AfterLookup(s.log, ev, j, ttl);
      if Find(s.data, j).None? && !(ev.Hit? && ev.key == j) {
        SubsetCount(OthersSince(s.log, j), OthersSince(t.log, j));
      }
    }
  }

  /** What the eviction removes had `capacity` other keys used after it. */
  lemma EvictedWasOldest(s: State, capacity: nat)
    requires Distinct(s.data) && ByRecency(s) && |s.data| == capacity + 1
    ensures |OthersSince(s.log, s.data[0].key)| >= capacity
  {
    DistinctKeys(s.data[1..]);
    forall k | k in Keys(s.data[1..]) ensures k in OthersSince(s.log, s.data[0].key) {
      var j :| 1 <= j < |s.data| && s.data[j].key == k;
    }
    SubsetCount(Keys(s.data[1..]), OthersSince(s.log, s.data[0].key));
  }

  /** A write of another key adds it to the keys used since, and shows nothing expired. */
  lemma AfterOtherPut(log: seq<Event>, e: Event, j: UserId, ttl: real)
    requires e.Put? && e.key != j
    ensures LastPut(log + [e], j) == LastPut(log, j)
    ensures LastPut(log, j).Some? ==> |OthersSince(log, j)| <= |OthersSince(log + [e], j)|
    ensures SeenExpired(log + [e], j, ttl) <==> SeenExpired(log, j, ttl)
  {
    assert (log + [e])[..|log|] == log;
    SubsetCount(OthersSince(log, j), OthersSince(log, j) + {e.key});
  }

  /** Which entries a write leaves, before any eviction. */
  lemma PutLeaves(d: seq<Entry>, e: Entry, j: UserId)
    requires Distinct(d)
    ensures Distinct(Without(d, e.key) + [e])
    ensures Find(Without(d, e.key) + [e], j) == if j == e.key then Some(e) else Find(d, j)
  {
    WithoutFacts(d, e.key);
    FindIn(d, j);
    var t := Without(d, e.key) + [e];
    assert Distinct(t);
    FindIn(t, j);
    assert e in t;
    if j != e.key && Find(d, j).Some? {
      assert Find(d, j).value in t;
    }
  }

  /** The eviction removes the first entry or nothing. */
  lemma EvictionLeaves(d: seq<Entry>, capacity: nat, j: UserId)
    requires Distinct(d) && |d| <= capacity + 1
    ensures Distinct(Newest(d, capacity)) && |Newest(d, capacity)| <= capacity
    ensures Find(Newest(d, capacity), j) == if |d| > capacity && d[0].key == j then None else Find(d, j)
  {
    FindIn(d, j);
    FindIn(Newest(d, capacity), j);
    if o :| o in d && o.key == j {
      if |d| <= capacity || o != d[0] {
        NewestKeeps(d, capacity, o);
      }
    }
  }

  lemma SetKeepsInv(s: State, capacity: nat, ttl: real, k: UserId, v: UserInfo, now: real)
    requires Inv(s, capacity, ttl)
    ensures Inv(Step(s, capacity, ttl, Set(k, v, now)), capacity, ttl)
  {
    var ev, e := Put(k, v, now), Entry(k, now, v);
    var full := State(Without(s.data, k) + [e], s.log + [ev]);
    var t := Step(s, capacity, ttl, Set(k, v, now));
    assert full.log[..|s.log|] == s.log;
    WithoutFacts(s.data, k);
    TouchKeeps(s, e, full.log);
    forall j
      ensures Find(t.data, j).None? && LastPut(t.log, j).Some? ==>
        |OthersSince(t.log, j)| >= capacity || SeenExpired(t.log, j, ttl)
      ensures SeenExpired(t.log, j, ttl) ==> Find(t.data, j).None?
    {
      PutLeaves(s.data, e, j);
      EvictionLeaves(full.data, capacity, j);
      if |full.data| > capacity && full.data[0].key == j {
        EvictedWasOldest(full, capacity);
      }
      if j != k {
        AfterOtherPut(s.log, ev, j, ttl);
      }
    }
    EvictionKeepsOrder(full, capacity);
  }

  lemma EvictionKeepsOrder(s: State, capacity: nat)
    requires Distinct(s.data) && Sound(s) && ByRecency(s) && |s.data| <= capacity + 1
    ensures var t := s.(data := Newest(s.data, capacity));
      Distinct(t.data) && |t.data| <= capacity && Sound(t) && ByRecency(t)
  {
  }

  lemma NewestKeeps(d: seq<Entry>, capacity: nat, o: Entry)
    requires |d| <= capacity + 1 && o in d && (|d| <= capacity || o != d[0])
    ensures o in Newest(d, capacity)
  {
  }

  lemma {:induction false} RunKeepsInv(ops: seq<Op>, capacity: nat, ttl: real)
    ensures Inv(Run(ops, capacity, ttl), capacity, ttl)
  {
    if ops != [] {
      var n := |ops| - 1;
      RunKeepsInv(ops[..n], capacity, ttl);
      var s := Run(ops[..n], capacity, ttl);
      match ops[n]
      case Get(k, now) => GetKeepsInv(s, capacity, ttl, k, now);
      case Set(k, v, now) => SetKeepsInv(s, capacity, ttl, k, v, now);
      case Clear =>
        var t := Step(s, capacity, ttl, Clear);
        forall k ensures LastPut(t.log, k).None? && !SeenExpired(t.log, k, ttl) {
          assert t.log[|t.log| - 1] == Cleared;
        }
    }
  }

  // ----- Main results -----

  /** A hit answers the last write of the key since the last clear, no older than ttl,
      whatever lookups came between; and the cache never outgrows its capacity. */
  lemma HitsAreFreshAndCurrent(ops: seq<Op>, capacity: nat, ttl: real, k: UserId, now: real)
    ensures |Run(ops, capacity, ttl).data| <= capacity
    ensures var s := Run(ops, capacity, ttl);
      var r := AfterGet(s.data, ttl, k, now).1;
      r.Some? ==> exists ts :: LastPut(s.log, k) == Some(Entry(k, ts, r.value)) && now - ts <= ttl
  {
    RunKeepsInv(ops, capacity, ttl);
    var s := Run(ops, capacity, ttl);
    if AfterGet(s.data, ttl, k, now).1.Some? {
      var e := Find(s.data, k).value;
      assert e in s.data && LastPut(s.log, k) == Some(Entry(k, e.ts, e.value));
    }
  }

  /** The cache forgets nothing it had room and time for: a key written at most ttl ago,
      with fewer than `capacity` other keys used since its last use, is answered if and only
      if no lookup of it since the write read the clock past its expiry. Nothing is assumed
      of the order of the clock reads. */
  lemma NothingLostEarly(ops: seq<Op>, capacity: nat, ttl: real, k: UserId, now: real)
    requires var log := Run(ops, capacity, ttl).log;
      LastPut(log, k).Some? && now - LastPut(log, k).value.ts <= ttl && |OthersSince(log, k)| < capacity
    ensures var s := Run(ops, capacity, ttl);
      AfterGet(s.data, ttl, k, now).1 == Some(LastPut(s.log, k).value.value) <==> !SeenExpired(s.log, k, ttl)
  {
    RunKeepsInv(ops, capacity, ttl);
    var s := Run(ops, capacity, ttl);
    FindIn(s.data, k);
  }

  /** Only a lookup of k that is ahead of `now` can have seen k expired. */
  lemma {:induction false} SeenExpiredIsAhead(log: seq<Event>, k: UserId, ttl: real, now: real)
    requires forall i :: 0 <= i < |log| && (log[i].Hit? || log[i].Miss?) && log[i].key == k ==> log[i].now <= now
    requires LastPut(log, k).Some? && now - LastPut(log, k).value.ts <= ttl
    ensures !SeenExpired(log, k, ttl)
  {
    var n := |log| - 1;
    if log[n].Hit? || log[n].Miss? || (log[n].Put? && log[n].key != k) {
      SeenExpiredIsAhead(log[..n], k, ttl, now);
    }
  }

  /** So with lookups of k in the order of their clock reads it is always answered. */
  lemma NothingLostInOrder(ops: seq<Op>, capacity: nat, ttl: real, k: UserId, now: real)
    requires var log := Run(ops, capacity, ttl).log;
      && (forall i :: 0 <= i < |log| && (log[i].Hit? || log[i].Miss?) && log[i].key == k ==> log[i].now <= now)
      && LastPut(log, k).Some? && now - LastPut(log, k).value.ts <= ttl && |OthersSince(log, k)| < capacity
    ensures var s := Run(ops, capacity, ttl);
      AfterGet(s.data, ttl, k, now).1 == Some(LastPut(s.log, k).value.value)
  {
    SeenExpiredIsAhead(Run(ops, capacity, ttl).log, k, ttl, now);
    NothingLostEarly(ops, capacity, ttl, k, now);
  }

  /** With clock reads out of lock order an unexpired entry can be gone: the read at 9
      discards it, the read at 5 is within ttl of the write. */
  lemma LateReadDiscards()
    ensures var s := Run([Set(7, map[], 0.0), Get(7, 9.0)], 1, 5.0);
      && LastPut(s.log, 7) == Some(Entry(7, 0.0, map[])) && OthersSince(s.log, 7) == {}
      && SeenExpired(s.log, 7, 5.0) && AfterGet(s.data, 5.0, 7, 5.0).1 == None
  {
  }

  function Writes(items: seq<(UserId, UserInfo)>, times: seq<real>): (ops: seq<Op>)
    requires |items| == |times|
  {
    if items == [] then [] else
    var n := |items| - 1;
    Writes(items[..n], times[..n]) + [Set(items[n].0, items[n].1, times[n])]
  }

  lemma RunSnoc(ops: seq<Op>, capacity: nat, ttl: real, op: Op)
    ensures Run(ops + [op], capacity, ttl) == Step(Run(ops, capacity, ttl), capacity, ttl, op)
  {
  }

  /** A batch is the run of its writes, each with its own clock read. */
  lemma {:induction false} BatchIsRunOfSets(ops: seq<Op>, capacity: nat, ttl: real, items: seq<(UserId, UserInfo)>, times: seq<real>)
    requires |items| == |times|
    ensures Run(ops + Writes(items, times), capacity, ttl).data == AfterBatch(Run(ops, capacity, ttl).data, capacity, items, times)
    decreases |items|
  {
    var sets := Writes(items, times);
    if items == [] {
      assert ops + sets == ops;
    } else {
      var n := |items| - 1;
      BatchIsRunOfSets(ops, capacity, ttl, items[..n], times[..n]);
      RunSnoc(ops + Writes(items[..n], times[..n]), capacity, ttl, Set(items[n].0, items[n].1, times[n]));
      assert ops + sets == ops + Writes(items[..n], times[..n]) + [Set(items[n].0, items[n].1, times[n])];
    }
  }

  // ----- Two capacities -----

  ghost predicate Subsequence(a: seq<Entry>, b: seq<Entry>) {
    a == [] || (b != [] && if a[0] == b[0] then Subsequence(a[1..], b[1..]) else Subsequence(a, b[1..]))
  }

  /** What relates a cache to a larger one fed the same operations. A suffix relation
      would not survive: a lookup that misses only in the small cache reorders the large one. */
  ghost predicate Included(small: seq<Entry>, c1: nat, large: seq<Entry>, c2: nat) {
    && Distinct(large) && |small| <= c1 && |large| <= c2
    && Subsequence(small, large)
    && c1 - |small| <= c2 - |large|
  }

  lemma {:induction false} SubsequenceSkip(a: seq<Entry>, b: seq<Entry>)
    requires Subsequence(a, b) && a != []
    ensures Subsequence(a[1..], b)
    ensures b != [] && Subsequence(a[1..], b[1..])
    decreases |b|
  {
    if a[0] == b[0] {
      if a[1..] != [] {
        SubsequenceSkip(a[1..], b[1..]);
        if a[1] == b[0] {
        } else {
        }
      }
    } else {
      SubsequenceSkip(a, b[1..]);
      if a[1..] != [] && a[1] == b[0] {
        SubsequenceSkip(a[1..], b[1..]);
      }
    }
  }

  lemma {:induction false} SubsequenceMembers(a: seq<Entry>, b: seq<Entry>)
    requires Subsequence(a, b)
    ensures forall e :: e in a ==> e in b
    decreases |b|
  {
    if a != [] {
      if a[0] == b[0] {
        SubsequenceMembers(a[1..], b[1..]);
        assert a == [a[0]] + a[1..];
      } else {
        SubsequenceMembers(a, b[1..]);
      }
    }
  }

  lemma {:induction false} SubsequenceDistinct(a: seq<Entry>, b: seq<Entry>)
    requires Subsequence(a, b) && Distinct(b)
    ensures Distinct(a)
    decreases |b|
  {
    if a != [] {
      if a[0] == b[0] {
        SubsequenceDistinct(a[1..], b[1..]);
        SubsequenceMembers(a[1..], b[1..]);
        assert forall e :: e in b[1..] ==> e.key != b[0].key;
        assert forall j :: 1 <= j < |a| ==> a[j] in a[1..];
      } else {
        SubsequenceDistinct(a, b[1..]);
      }
    }
  }

  lemma {:induction false} SubsequenceAppend(a: seq<Entry>, b: seq<Entry>, e: Entry)
    requires Subsequence(a, b)
    ensures Subsequence(a + [e], b + [e])
    decreases |b|
  {
    if b == [] {
      assert a + [e] == [e] && b + [e] == [e];
    } else {
      assert (b + [e])[1..] == b[1..] + [e];
      if a == [] {
        SubsequenceAppend([], b[1..], e);
        assert [] + [e] == [e];
        if e == b[0] {
          assert [e][1..] == [];
        }
      } else if a[0] == b[0] {
        SubsequenceAppend(a[1..], b[1..], e);
        assert (a + [e])[1..] == a[1..] + [e];
      } else {
        SubsequenceAppend(a, b[1..], e);
      }
    }
  }

  lemma {:induction false} AbsentUnchanged(d: seq<Entry>, k: UserId)
    requires forall e :: e in d ==> e.key != k
    ensures Without(d, k) == d && Find(d, k) == None
  {
    WithoutAt(d, k);
  }

  lemma {:induction false} SubsequenceCons(a: seq<Entry>, e: Entry, b: seq<Entry>)
    requires Subsequence(a, b) && e !in a
    ensures Subsequence(a, [e] + b) && Subsequence([e] + a, [e] + b)
  {
  }

  lemma {:induction false} SubsequenceWithout(a: seq<Entry>, b: seq<Entry>, k: UserId)
    requires Subsequence(a, b) && Distinct(b)
    ensures Subsequence(Without(a, k), Without(b, k))
    decreases |b|
  {
    if a == [] {
      AbsentUnchanged(a, k);
      return;
    }
    var rest := if a[0] == b[0] then a[1..] else a;
    SubsequenceWithout(rest, b[1..], k);
    SubsequenceMembers(rest, b[1..]);
    SubsequenceDistinct(rest, b[1..]);
    WithoutFacts(rest, k);
    assert forall e :: e in b[1..] ==> e.key != b[0].key;
    if b[0].key == k {
      AbsentUnchanged(rest, k);
    } else {
      SubsequenceCons(Without(rest, k), b[0], Without(b[1..], k));
    }
  }

  /** The smaller cache evicts whenever the larger does, and loses at least as much. */
  lemma SubsequenceNewest(a: seq<Entry>, c1: nat, b: seq<Entry>, c2: nat)
    requires Subsequence(a, b) && |a| <= c1 + 1 && |b| <= c2 + 1
    requires c1 - |a| <= c2 - |b|
    ensures Subsequence(Newest(a, c1), Newest(b, c2))
  {
    if |a| > c1 {
      SubsequenceSkip(a, b);
      assert Newest(a, c1) == a[1..];
    }
  }

  lemma {:induction false} SubsequenceExtend(a: seq<Entry>, b: seq<Entry>, e: Entry)
    requires Subsequence(a, b)
    ensures Subsequence(a, b + [e])
    decreases |b|
  {
    if a != [] {
      assert (b + [e])[1..] == b[1..] + [e];
      if a[0] == b[0] {
        SubsequenceExtend(a[1..], b[1..], e);
      } else {
        SubsequenceExtend(a, b[1..], e);
      }
    }
  }

  lemma SetIncluded(small: seq<Entry>, c1: nat, large: seq<Entry>, c2: nat, k: UserId, v: UserInfo, now: real)
    requires Included(small, c1, large, c2)
    ensures Included(AfterSet(small, c1, k, v, now), c1, AfterSet(large, c2, k, v, now), c2)
  {
    SubsequenceDistinct(small, large);
    SubsequenceMembers(small, large);
    WithoutFacts(small, k);
    WithoutFacts(large, k);
    FindIn(small, k);
    FindIn(large, k);
    var e := Entry(k, now, v);
    var a, b := Without(small, k) + [e], Without(large, k) + [e];
    SubsequenceWithout(small, large, k);
    SubsequenceAppend(Without(small, k), Without(large, k), e);
    SubsequenceNewest(a, c1, b, c2);
  }

  lemma GetIncluded(small: seq<Entry>, c1: nat, large: seq<Entry>, c2: nat, ttl: real, k: UserId, now: real)
    requires Included(small, c1, large, c2)
    ensures var (s, r), (l, q) := AfterGet(small, ttl, k, now), AfterGet(large, ttl, k, now);
      Included(s, c1, l, c2) && (r.Some? ==> q == r)
  {
    SubsequenceDistinct(small, large);
    SubsequenceMembers(small, large);
    WithoutFacts(small, k);
    WithoutFacts(large, k);
    FindIn(small, k);
    FindIn(large, k);
    SubsequenceWithout(small, large, k);
    if Find(large, k).Some? {
      var e := Find(large, k).value;
      if Find(small, k).Some? {
        SubsequenceAppend(Without(small, k), Without(large, k), e);
      } else {
        AbsentUnchanged(small, k);
        SubsequenceExtend(small, Without(large, k), e);
      }
    }
  }

  /** Inclusion: under the same operations a larger cache holds everything a smaller one
      holds, with the same times, and answers every hit of the smaller one alike. */
  lemma {:induction false} LargerCacheIncludesSmaller(ops: seq<Op>, c1: nat, c2: nat, ttl: real)
    requires c1 <= c2
    ensures var s, l := Run(ops, c1, ttl), Run(ops, c2, ttl);
      && Included(s.data, c1, l.data, c2)
      && |s.log| == |l.log| == |ops|
      && forall i :: 0 <= i < |ops| && s.log[i].Hit? ==> l.log[i] == s.log[i]
  {
    if ops != [] {
      var n := |ops| - 1;
      LargerCacheIncludesSmaller(ops[..n], c1, c2, ttl);
      var s, l := Run(ops[..n], c1, ttl).data, Run(ops[..n], c2, ttl).data;
      match ops[n]
      case Get(k, now) => GetIncluded(s, c1, l, c2, ttl, k, now);
      case Set(k, v, now) => SetIncluded(s, c1, l, c2, k, v, now);
      case Clear =>
    }
  }
}
