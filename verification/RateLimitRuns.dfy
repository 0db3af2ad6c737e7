// Whole runs of the rate limiter, against a limiter that forgets nothing.

module RateLimitRuns {
  import opened RateLimit

  datatype Request = Request(key: Key, now: real)
  datatype Limits = Limits(maxRequests: nat, window: real)

  /** The limiter's table after the first n requests. */
  function Table(reqs: seq<Request>, l: Limits, n: nat): map<Key, seq<real>>
    requires n <= |reqs|
  {
    if n == 0 then map[]
    else Decide(Table(reqs, l, n - 1), l.maxRequests, l.window, reqs[n - 1].key, reqs[n - 1].now).1
  }

  /** The limiter's answer to request i. */
  function AnswerTo(reqs: seq<Request>, l: Limits, i: nat): Answer
    requires i < |reqs|
  {
    Decide(Table(reqs, l, i), l.maxRequests, l.window, reqs[i].key, reqs[i].now).0
  }

  /** Whether a limiter with unlimited memory accepts request i: fewer than maxRequests
      accepted requests of its key lie in the window before it. */
  predicate Allowed(reqs: seq<Request>, l: Limits, i: nat)
    requires i < |reqs|
    decreases i, 1
  {
    |After(AcceptedTimes(reqs, l, reqs[i].key, i), reqs[i].now - l.window)| < l.maxRequests
  }

  /** All times at which that limiter accepted a request of the key, among the first n. */
  function AcceptedTimes(reqs: seq<Request>, l: Limits, key: Key, n: nat): seq<real>
    requires n <= |reqs|
    decreases n, 0
  {
    if n == 0 then []
    else if reqs[n - 1].key == key && Allowed(reqs, l, n - 1) then AcceptedTimes(reqs, l, key, n - 1) + [reqs[n - 1].now]
    else AcceptedTimes(reqs, l, key, n - 1)
  }

  /** The requests of each key come in the order of their clock reads. */
  ghost predicate ClockOrdered(reqs: seq<Request>) {
    forall i, j :: 0 <= i < j < |reqs| && reqs[i].key == reqs[j].key ==> reqs[i].now <= reqs[j].now
  }

  lemma {:induction false} AfterConcat(a: seq<real>, b: seq<real>, cutoff: real)
    ensures After(a + b, cutoff) == After(a, cutoff) + After(b, cutoff)
  {
    if a == [] {
      assert a + b == b;
    } else {
      assert (a + b)[1..] == a[1..] + b;
      AfterConcat(a[1..], b, cutoff);
    }
  }

  lemma AfterSnocLength(ts: seq<real>, t: real, cutoff: real)
    ensures |After(ts + [t], cutoff)| == |After(ts, cutoff)| + if t > cutoff then 1 else 0
  {
    AfterConcat(ts, [t], cutoff);
    assert [t][1..] == [];
  }

  /** Pruning twice is pruning at the later cutoff. */
  lemma {:induction false} AfterTwice(ts: seq<real>, a: real, b: real)
    ensures After(After(ts, a), b) == After(ts, if a <= b then b else a)
  {
    if ts != [] {
      AfterTwice(ts[1..], a, b);
      AfterConcat(if ts[0] > a then [ts[0]] else [], After(ts[1..], a), b);
      assert [ts[0]][1..] == [];
    }
  }

  /** Pruning, and appending a time to both records, leaves the later view the same. */
  lemma PruneKeepsView(kept: seq<real>, all: seq<real>, more: seq<real>, early: real, late: real)
    requires early <= late && After(kept, late) == After(all, late)
    ensures After(After(kept, early) + more, late) == After(all + more, late)
  {
    AfterTwice(kept, early, late);
    AfterConcat(After(kept, early), more, late);
    AfterConcat(all, more, late);
  }

  /** What a request adds to the record of a key, seen from the table. */
  function Added(table: map<Key, seq<real>>, l: Limits, q: Request, key: Key): seq<real> {
    if q.key == key && |After(Recorded(table, key), q.now - l.window)| < l.maxRequests then [q.now] else []
  }

  /** One request keeps the view of a key at a later time. */
  lemma DecideKeepsView(table: map<Key, seq<real>>, all: seq<real>, l: Limits, q: Request, key: Key, now: real)
    requires After(Recorded(table, key), now - l.window) == After(all, now - l.window)
    requires q.key == key ==> q.now <= now
    ensures var t := Decide(table, l.maxRequests, l.window, q.key, q.now).1;
      After(Recorded(t, key), now - l.window) == After(all + Added(table, l, q, key), now - l.window)
  {
    var kept, t, more := Recorded(table, key), Decide(table, l.maxRequests, l.window, q.key, q.now).1, Added(table, l, q, key);
    if q.key == key {
      PruneKeepsView(kept, all, more, q.now - l.window, now - l.window);
      assert Recorded(t, key) == After(kept, q.now - l.window) + more;
    } else {
      assert all + more == all && Recorded(t, key) == kept;
    }
  }

  /** A call at `now` sees the same times in the table as in the full record. */
  predicate Agree(reqs: seq<Request>, l: Limits, n: nat, key: Key, now: real)
    requires n <= |reqs|
  {
    After(Recorded(Table(reqs, l, n), key), now - l.window) == After(AcceptedTimes(reqs, l, key, n), now - l.window)
  }

  /** The full record grows by what the table grows by. */
  lemma AddedToBoth(reqs: seq<Request>, l: Limits, n: nat, key: Key)
    requires 0 < n <= |reqs|
    requires reqs[n - 1].key == key ==> Agree(reqs, l, n - 1, key, reqs[n - 1].now)
    ensures AcceptedTimes(reqs, l, key, n) ==
      AcceptedTimes(reqs, l, key, n - 1) + Added(Table(reqs, l, n - 1), l, reqs[n - 1], key)
  {
    assert AcceptedTimes(reqs, l, key, n - 1) + [] == AcceptedTimes(reqs, l, key, n - 1);
  }

  lemma AgreeNext(reqs: seq<Request>, l: Limits, n: nat, key: Key, now: real)
    requires 0 < n <= |reqs| && Agree(reqs, l, n - 1, key, now)
    requires reqs[n - 1].key == key ==> reqs[n - 1].now <= now && Agree(reqs, l, n - 1, key, reqs[n - 1].now)
    ensures Agree(reqs, l, n, key, now)
  {
    AddedToBoth(reqs, l, n, key);
    DecideKeepsView(Table(reqs, l, n - 1), AcceptedTimes(reqs, l, key, n - 1), l, reqs[n - 1], key, now);
  }

  lemma {:induction false} SameView(reqs: seq<Request>, l: Limits, n: nat, key: Key, now: real)
    requires ClockOrdered(reqs) && n <= |reqs| && forall i :: 0 <= i < n && reqs[i].key == key ==> reqs[i].now <= now
    ensures Agree(reqs, l, n, key, now)
  {
    if n > 0 {
      SameView(reqs, l, n - 1, key, now);
      if reqs[n - 1].key == key {
        SameView(reqs, l, n - 1, key, reqs[n - 1].now);
      }
      AgreeNext(reqs, l, n, key, now);
    }
  }

  /** Forgetting is unobservable: the limiter answers every request of a run as the one
      that keeps every accepted time, and a refusal names the window. */
  lemma PrunedDecidesLikeUnlimited(reqs: seq<Request>, l: Limits, i: nat)
    requires ClockOrdered(reqs) && i < |reqs|
    ensures AnswerTo(reqs, l, i) == if Allowed(reqs, l, i) then Accepted else TooManyRequests(429, l.window)
  {
    SameView(reqs, l, i, reqs[i].key, reqs[i].now);
  }

  // ----- Any clock -----

  /** What is left of the full record of a key when each request of the key drops the times
      out of its window before it is answered. */
  function Surviving(reqs: seq<Request>, l: Limits, key: Key, n: nat): seq<real>
    requires n <= |reqs|
  {
    if n == 0 then []
    else
      var before, q := Surviving(reqs, l, key, n - 1), reqs[n - 1];
      if q.key != key then before
      else if Allowed(reqs, l, n - 1) then After(before, q.now - l.window) + [q.now]
      else After(before, q.now - l.window)
  }

  /** The limiter decides request i as the one with unlimited memory does. */
  predicate Agrees(reqs: seq<Request>, l: Limits, i: nat)
    requires i < |reqs|
  {
    AnswerTo(reqs, l, i) == Accepted <==> Allowed(reqs, l, i)
  }

  /** No read of its key between request j and position n is a window or more past request j. */
  predicate Outlives(reqs: seq<Request>, window: real, j: nat, n: nat)
    requires j < n <= |reqs|
  {
    forall k :: j < k < n && reqs[k].key == reqs[j].key ==> reqs[k].now - window < reqs[j].now
  }

  /** Which requests the full record accepts. */
  function Accepts(reqs: seq<Request>, l: Limits): (ok: seq<bool>)
    ensures |ok| == |reqs| && forall i :: 0 <= i < |ok| ==> ok[i] == Allowed(reqs, l, i)
  {
    seq(|reqs|, i requires 0 <= i < |reqs| => Allowed(reqs, l, i))
  }

  /** How many accepted requests of the key among the first m outlive the reads before n. */
  function Lasting(reqs: seq<Request>, window: real, ok: seq<bool>, key: Key, m: nat, n: nat): nat
    requires m <= n <= |reqs| == |ok|
  {
    if m == 0 then 0
    else Lasting(reqs, window, ok, key, m - 1, n)
         + if reqs[m - 1].key == key && ok[m - 1] && Outlives(reqs, window, m - 1, n) then 1 else 0
  }

  /** If request i is to be refused, maxRequests accepted ones before it outlived every read
      of the key up to and including its own. */
  predicate EnoughSurvives(reqs: seq<Request>, l: Limits, i: nat)
    requires i < |reqs|
  {
    !Allowed(reqs, l, i) ==> Lasting(reqs, l.window, Accepts(reqs, l), reqs[i].key, i, i + 1) >= l.maxRequests
  }

  lemma OutlivesNext(reqs: seq<Request>, window: real, j: nat, n: nat)
    requires j < n < |reqs|
    ensures Outlives(reqs, window, j, n + 1) <==>
      Outlives(reqs, window, j, n) && (reqs[n].key == reqs[j].key ==> reqs[n].now - window < reqs[j].now)
  {
  }

  /** The same, of those with a time after the cutoff. */
  function LastingPast(reqs: seq<Request>, window: real, ok: seq<bool>, key: Key, m: nat, n: nat, cutoff: real): nat
    requires m <= n <= |reqs| == |ok|
  {
    if m == 0 then 0
    else LastingPast(reqs, window, ok, key, m - 1, n, cutoff)
         + if reqs[m - 1].key == key && ok[m - 1] && Outlives(reqs, window, m - 1, n) && reqs[m - 1].now > cutoff then 1 else 0
  }

  /** The later cutoff, when the read is one of the key. */
  function Past(ofKey: bool, read: real, cutoff: real): real {
    if ofKey && cutoff <= read then read else cutoff
  }

  /** One more read of the key is one more cutoff. */
  lemma {:induction false} OneMoreRead(reqs: seq<Request>, window: real, ok: seq<bool>, key: Key, m: nat, n: nat, cutoff: real)
    requires m <= n < |reqs| == |ok|
    ensures var read := reqs[n].now - window;
      LastingPast(reqs, window, ok, key, m, n + 1, cutoff) ==
        LastingPast(reqs, window, ok, key, m, n, Past(reqs[n].key == key, read, cutoff))
  {
    if m > 0 {
      OneMoreRead(reqs, window, ok, key, m - 1, n, cutoff);
      OutlivesNext(reqs, window, m - 1, n);
    }
  }

  /** The read of request n itself is the last cutoff. */
  lemma {:induction false} OwnRead(reqs: seq<Request>, window: real, ok: seq<bool>, m: nat, n: nat)
    requires m <= n < |reqs| == |ok|
    ensures Lasting(reqs, window, ok, reqs[n].key, m, n + 1) ==
      LastingPast(reqs, window, ok, reqs[n].key, m, n, reqs[n].now - window)
  {
    if m > 0 {
      OwnRead(reqs, window, ok, m - 1, n);
      OutlivesNext(reqs, window, m - 1, n);
    }
  }

  lemma NewestLasts(reqs: seq<Request>, window: real, ok: seq<bool>, key: Key, n: nat, cutoff: real)
    requires 0 < n <= |reqs| == |ok|
    ensures LastingPast(reqs, window, ok, key, n, n, cutoff) == LastingPast(reqs, window, ok, key, n - 1, n, cutoff)
      + if reqs[n - 1].key == key && ok[n - 1] && reqs[n - 1].now > cutoff then 1 else 0
  {
    assert Outlives(reqs, window, n - 1, n);
  }

  /** What a request leaves of the record of its key, past any cutoff. */
  lemma SurvivingNext(before: seq<real>, now: real, window: real, accepted: bool, cutoff: real)
    ensures var kept, read := After(before, now - window), now - window;
      |After(if accepted then kept + [now] else kept, cutoff)| ==
        |After(before, Past(true, read, cutoff))| + if accepted && now > cutoff then 1 else 0
  {
    AfterTwice(before, now - window, cutoff);
    AfterSnocLength(After(before, now - window), now, cutoff);
  }

  lemma SurvivingStep(reqs: seq<Request>, l: Limits, ok: seq<bool>, key: Key, n: nat, cutoff: real)
    requires 0 < n <= |reqs| == |ok| && ok[n - 1] == Allowed(reqs, l, n - 1)
    ensures var q, before := reqs[n - 1], Surviving(reqs, l, key, n - 1);
      var read := q.now - l.window;
      |After(Surviving(reqs, l, key, n), cutoff)| ==
        |After(before, Past(q.key == key, read, cutoff))|
        + if q.key == key && ok[n - 1] && q.now > cutoff then 1 else 0
  {
    SurvivingNext(Surviving(reqs, l, key, n - 1), reqs[n - 1].now, l.window, ok[n - 1], cutoff);
  }

  /** What survives the prunings, told from the clock reads alone. */
  lemma {:induction false} SurvivingIsLasting(reqs: seq<Request>, l: Limits, ok: seq<bool>, key: Key, n: nat, cutoff: real)
    requires n <= |reqs| == |ok| && forall i :: 0 <= i < n ==> ok[i] == Allowed(reqs, l, i)
    ensures |After(Surviving(reqs, l, key, n), cutoff)| == LastingPast(reqs, l.window, ok, key, n, n, cutoff)
  {
    if n > 0 {
      var q := reqs[n - 1];
      SurvivingIsLasting(reqs, l, ok, key, n - 1, Past(q.key == key, q.now - l.window, cutoff));
      OneMoreRead(reqs, l.window, ok, key, n - 1, n - 1, cutoff);
      NewestLasts(reqs, l.window, ok, key, n, cutoff);
      SurvivingStep(reqs, l, ok, key, n, cutoff);
    }
  }

  lemma LastingIsView(reqs: seq<Request>, l: Limits, i: nat)
    requires i < |reqs|
    ensures Lasting(reqs, l.window, Accepts(reqs, l), reqs[i].key, i, i + 1) ==
      |After(Surviving(reqs, l, reqs[i].key, i), reqs[i].now - l.window)|
  {
    SurvivingIsLasting(reqs, l, Accepts(reqs, l), reqs[i].key, i, reqs[i].now - l.window);
    OwnRead(reqs, l.window, Accepts(reqs, l), i, i);
  }

  /** What survived is part of the full record. */
  lemma {:induction false} LastingIsLess(reqs: seq<Request>, l: Limits, key: Key, m: nat, n: nat, cutoff: real)
    requires m <= n <= |reqs|
    ensures LastingPast(reqs, l.window, Accepts(reqs, l), key, m, n, cutoff) <= |After(AcceptedTimes(reqs, l, key, m), cutoff)|
  {
    if m > 0 {
      LastingIsLess(reqs, l, key, m - 1, n, cutoff);
      AfterSnocLength(AcceptedTimes(reqs, l, key, m - 1), reqs[m - 1].now, cutoff);
    }
  }

  /** While the decisions agree, the table holds exactly what survived. */
  lemma {:induction false} TableIsSurviving(reqs: seq<Request>, l: Limits, key: Key, n: nat)
    requires n <= |reqs| && forall i :: 0 <= i < n ==> Agrees(reqs, l, i)
    ensures Recorded(Table(reqs, l, n), key) == Surviving(reqs, l, key, n)
  {
    if n > 0 {
      TableIsSurviving(reqs, l, key, n - 1);
      assert Agrees(reqs, l, n - 1);
    }
  }

  lemma DecideAnswers(table: map<Key, seq<real>>, l: Limits, q: Request)
    ensures Decide(table, l.maxRequests, l.window, q.key, q.now).0 == Accepted <==>
      |After(Recorded(table, q.key), q.now - l.window)| < l.maxRequests
  {
  }

  lemma AnswerFromView(reqs: seq<Request>, l: Limits, n: nat, view: seq<real>)
    requires n < |reqs| && forall i :: 0 <= i < n ==> Agrees(reqs, l, i)
    requires view == After(Surviving(reqs, l, reqs[n].key, n), reqs[n].now - l.window)
    ensures AnswerTo(reqs, l, n) == Accepted <==> |view| < l.maxRequests
  {
    TableIsSurviving(reqs, l, reqs[n].key, n);
    DecideAnswers(Table(reqs, l, n), l, reqs[n]);
  }

  lemma AgreesIff(reqs: seq<Request>, l: Limits, n: nat)
    requires n < |reqs| && forall i :: 0 <= i < n ==> Agrees(reqs, l, i)
    ensures Agrees(reqs, l, n) <==> EnoughSurvives(reqs, l, n)
  {
    var view := After(Surviving(reqs, l, reqs[n].key, n), reqs[n].now - l.window);
    AnswerFromView(reqs, l, n, view);
    SurvivingIsLasting(reqs, l, Accepts(reqs, l), reqs[n].key, n, reqs[n].now - l.window);
    LastingIsLess(reqs, l, reqs[n].key, n, n, reqs[n].now - l.window);
    LastingIsView(reqs, l, n);
  }

  /** Whatever the clock does, the limiter decides the first n requests of a run as the one
      with unlimited memory does if and only if, for every one of them that is to be refused,
      maxRequests accepted ones of its key are less than a window behind every later read of
      the key up to its own. */
  lemma {:induction false} AgreesWithUnlimitedIff(reqs: seq<Request>, l: Limits, n: nat)
    requires n <= |reqs|
    ensures (forall i :: 0 <= i < n ==> Agrees(reqs, l, i)) <==> (forall i :: 0 <= i < n ==> EnoughSurvives(reqs, l, i))
  {
    if n > 0 {
      AgreesWithUnlimitedIff(reqs, l, n - 1);
      if forall i :: 0 <= i < n - 1 ==> Agrees(reqs, l, i) {
        AgreesIff(reqs, l, n - 1);
      }
    }
  }

  /** A clock that steps back shows what was forgotten: the read at 100 drops the time 10,
      which the window of the read at 20 contains. */
  lemma BackwardClockAcceptsMore()
    ensures var reqs := [Request("k", 10.0), Request("k", 100.0), Request("k", 20.0)];
      var l := Limits(2, 60.0);
      AnswerTo(reqs, l, 2) == Accepted && !Allowed(reqs, l, 2)
  {
    var reqs, l := [Request("k", 10.0), Request("k", 100.0), Request("k", 20.0)], Limits(2, 60.0);
    assert [10.0][1..] == [] && [100.0][1..] == [] && [10.0, 100.0][1..] == [100.0];
    assert Table(reqs, l, 1)["k"] == [10.0];
    assert Table(reqs, l, 2)["k"] == [100.0];
    assert AcceptedTimes(reqs, l, "k", 1) == [10.0];
    assert After([10.0], 40.0) == [];
    assert AcceptedTimes(reqs, l, "k", 2) == [10.0, 100.0];
  }

  // ----- The rate bound -----

  /** How many of the times lie in (from, to]. */
  function CountIn(ts: seq<real>, from: real, to: real): nat {
    if ts == [] then 0 else (if from < ts[0] <= to then 1 else 0) + CountIn(ts[1..], from, to)
  }

  lemma {:induction false} CountConcat(a: seq<real>, b: seq<real>, from: real, to: real)
    ensures CountIn(a + b, from, to) == CountIn(a, from, to) + CountIn(b, from, to)
  {
    if a == [] {
      assert a + b == b;
    } else {
      assert (a + b)[1..] == a[1..] + b;
      CountConcat(a[1..], b, from, to);
    }
  }

  lemma CountOneMore(ts: seq<real>, now: real, from: real, to: real)
    ensures CountIn(ts + [now], from, to) == CountIn(ts, from, to) + if from < now <= to then 1 else 0
  {
    CountConcat(ts, [now], from, to);
    assert [now][1..] == [];
  }

  lemma {:induction false} CountAtMostAfter(ts: seq<real>, cutoff: real, from: real, to: real)
    requires cutoff <= from
    ensures CountIn(ts, from, to) <= |After(ts, cutoff)|
  {
    if ts != [] {
      CountAtMostAfter(ts[1..], cutoff, from, to);
    }
  }

  lemma {:induction false} CountSplits(ts: seq<real>, a: real, b: real, c: real)
    requires a <= b <= c
    ensures CountIn(ts, a, c) == CountIn(ts, a, b) + CountIn(ts, b, c)
  {
    if ts != [] {
      CountSplits(ts[1..], a, b, c);
    }
  }

  /** One window holds at most maxRequests accepted requests of a key. */
  lemma {:induction false} WindowBound(reqs: seq<Request>, l: Limits, key: Key, n: nat, from: real)
    requires n <= |reqs|
    ensures CountIn(AcceptedTimes(reqs, l, key, n), from, from + l.window) <= l.maxRequests
  {
    if n > 0 {
      WindowBound(reqs, l, key, n - 1, from);
      var before, now := AcceptedTimes(reqs, l, key, n - 1), reqs[n - 1].now;
      CountOneMore(before, now, from, from + l.window);
      if reqs[n - 1].key == key && Allowed(reqs, l, n - 1) && from < now <= from + l.window {
        CountAtMostAfter(before, now - l.window, from, from + l.window);
      }
    }
  }

  /** The length of n windows. */
  function Windows(n: nat, window: real): real {
    if n == 0 then 0.0 else Windows(n - 1, window) + window
  }

  lemma {:induction false} WindowsProduct(n: nat, window: real)
    requires window > 0.0
    ensures Windows(n, window) == n as real * window && Windows(n, window) >= 0.0
  {
    if n > 0 {
      WindowsProduct(n - 1, window);
      assert n as real == (n - 1) as real + 1.0;
    }
  }

  lemma {:induction false} WindowsBound(reqs: seq<Request>, l: Limits, key: Key, n: nat, from: real, k: nat)
    requires l.window > 0.0 && n <= |reqs|
    ensures CountIn(AcceptedTimes(reqs, l, key, n), from, from + Windows(k, l.window)) <= k * l.maxRequests
  {
    var ts := AcceptedTimes(reqs, l, key, n);
    if k == 0 {
      CountSplits(ts, from, from, from);
    } else {
      var mid := from + Windows(k - 1, l.window);
      WindowsBound(reqs, l, key, n, from, k - 1);
      WindowBound(reqs, l, key, n, mid);
      WindowsProduct(k - 1, l.window);
      CountSplits(ts, from, mid, mid + l.window);
      assert (k - 1) * l.maxRequests + l.maxRequests == k * l.maxRequests;
    }
  }

  function Ceil(x: real): int {
    -((-x).Floor)
  }

  lemma CeilCovers(length: real, window: real)
    requires window > 0.0 && length >= 0.0
    ensures Ceil(length / window) >= 0 && length <= Ceil(length / window) as real * window
  {
  }

  /** The accepted requests of a key among the first n with a time in (from, to]. */
  function AcceptedIn(reqs: seq<Request>, l: Limits, key: Key, from: real, to: real, n: nat): nat
    requires n <= |reqs|
  {
    if n == 0 then 0
    else AcceptedIn(reqs, l, key, from, to, n - 1)
         + if reqs[n - 1].key == key && AnswerTo(reqs, l, n - 1) == Accepted && from < reqs[n - 1].now <= to then 1 else 0
  }

  lemma {:induction false} AcceptedInIsCount(reqs: seq<Request>, l: Limits, key: Key, from: real, to: real, n: nat)
    requires ClockOrdered(reqs) && n <= |reqs|
    ensures AcceptedIn(reqs, l, key, from, to, n) == CountIn(AcceptedTimes(reqs, l, key, n), from, to)
  {
    if n > 0 {
      AcceptedInIsCount(reqs, l, key, from, to, n - 1);
      PrunedDecidesLikeUnlimited(reqs, l, n - 1);
      CountOneMore(AcceptedTimes(reqs, l, key, n - 1), reqs[n - 1].now, from, to);
    }
  }

  /** Any interval (from, from + length] holds at most ceil(length / window) * maxRequests
      accepted requests of a key, whatever the other keys do. */
  lemma RateBound(reqs: seq<Request>, l: Limits, key: Key, from: real, length: real)
    requires l.window > 0.0 && length >= 0.0 && ClockOrdered(reqs)
    ensures AcceptedIn(reqs, l, key, from, from + length, |reqs|) <= Ceil(length / l.window) * l.maxRequests
  {
    var k, ts := Ceil(length / l.window), AcceptedTimes(reqs, l, key, |reqs|);
    CeilCovers(length, l.window);
    AcceptedInIsCount(reqs, l, key, from, from + length, |reqs|);
    WindowsBound(reqs, l, key, |reqs|, from, k);
    WindowsProduct(k, l.window);
    CountSplits(ts, from, from + length, from + Windows(k, l.window));
  }

  // ----- Retry-After -----

  lemma {:induction false} AllBefore(reqs: seq<Request>, l: Limits, key: Key, n: nat, cutoff: real)
    requires n <= |reqs|
    requires forall i :: 0 <= i < n && reqs[i].key == key && Allowed(reqs, l, i) ==> reqs[i].now <= cutoff
    ensures After(AcceptedTimes(reqs, l, key, n), cutoff) == []
  {
    if n > 0 {
      AllBefore(reqs, l, key, n - 1, cutoff);
      AfterConcat(AcceptedTimes(reqs, l, key, n - 1), [reqs[n - 1].now], cutoff);
      assert [reqs[n - 1].now][1..] == [];
    }
  }

  /** A client refused as request r that retries after the advertised seconds is accepted,
      unless another request of its key was accepted meanwhile. */
  lemma RetryAfterSuffices(reqs: seq<Request>, l: Limits, r: nat, retry: nat)
    requires ClockOrdered(reqs) && r < retry < |reqs| && reqs[retry].key == reqs[r].key && l.maxRequests >= 1
    requires AnswerTo(reqs, l, r).TooManyRequests?
    requires reqs[retry].now >= reqs[r].now + AnswerTo(reqs, l, r).retryAfter
    requires forall i :: r < i < retry && reqs[i].key == reqs[r].key ==> AnswerTo(reqs, l, i) != Accepted
    ensures AnswerTo(reqs, l, retry) == Accepted
  {
    PrunedDecidesLikeUnlimited(reqs, l, r);
    PrunedDecidesLikeUnlimited(reqs, l, retry);
    var key, cutoff := reqs[r].key, reqs[retry].now - l.window;
    forall i | 0 <= i < retry && reqs[i].key == key && Allowed(reqs, l, i) ensures reqs[i].now <= cutoff {
      PrunedDecidesLikeUnlimited(reqs, l, i);
    }
    AllBefore(reqs, l, key, retry, cutoff);
  }
}
