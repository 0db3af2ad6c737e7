// The write-behind protocol of any number of extension processes on one database.
// A process runs alone between two awaits; at each await any other step may happen.
// Rows written by an open transaction are locked until it ends. An UPDATE whose guard
// fails on the committed row passes it over without waiting; one whose guard holds waits
// for the lock and then re-reads the row, so such a step needs its row unlocked.

module KeyUsageRuns {
  import opened Common
  import opened TenantExtension

  /** A flush between its snapshot and its end: `todo` are the rows not yet
      visited, `tx` the uncommitted writes. */
  datatype Flight = Idle | Flushing(updates: Times, todo: set<Key>, tx: Times)

  datatype Proc = Proc(pending: Times, flight: Flight)

  /** `ever` are the keys ever issued, `latest` the newest use of each key. */
  datatype Sys = Sys(db: map<Key, Option<Time>>, procs: seq<Proc>, ever: set<Key>, latest: Times)

  datatype Action =
    | Issue(k: Key)
    | Revoke(k: Key)
    | Use(p: nat, k: Key, now: Time)
    | Snapshot(p: nat)
    | UpdateRow(p: nat, k: Key)
    | Commit(p: nat)
    | CommitUnreported(p: nat)  // took effect, but the process saw an exception
    | Fail(p: nat)
    | Cancel(p: nat)            // CancelledError: not caught, so not merged back

  predicate Locked(s: Sys, k: Key) {
    exists q :: 0 <= q < |s.procs| && s.procs[q].flight.Flushing? && k in s.procs[q].flight.tx
  }

  /** The guarded UPDATE of k finds its row, as committed. */
  predicate MatchesRow(s: Sys, k: Key, ts: Time) {
    k in s.db && Matches(s.db[k], ts)
  }

  predicate InFlight(s: Sys, p: nat) {
    p < |s.procs| && s.procs[p].flight.Flushing?
  }

  predicate Enabled(s: Sys, a: Action) {
    match a
    case Issue(k) => k !in s.ever
    case Revoke(k) => k in s.db && !Locked(s, k)
    case Use(p, k, now) => p < |s.procs| && k in s.ever
    case Snapshot(p) => p < |s.procs| && s.procs[p].flight.Idle? && s.procs[p].pending != map[]
    case UpdateRow(p, k) =>
      && InFlight(s, p) && k in s.procs[p].flight.todo && k in s.procs[p].flight.updates
      && (Locked(s, k) ==> !MatchesRow(s, k, s.procs[p].flight.updates[k]))
    case Commit(p) => InFlight(s, p) && s.procs[p].flight.todo == {}
    case CommitUnreported(p) => InFlight(s, p) && s.procs[p].flight.todo == {}
    case Fail(p) => InFlight(s, p)
    case Cancel(p) => InFlight(s, p)
  }

  function Written(db: map<Key, Option<Time>>, tx: Times): map<Key, Option<Time>> {
    db + map k | k in tx :: Some(tx[k])
  }

  function Land(s: Sys, p: nat, q: Proc): Sys
    requires p < |s.procs|
  {
    s.(procs := s.procs[p := q])
  }

  function MergedBack(q: Proc): Proc
    requires q.flight.Flushing?
  {
    q.(pending := Merge(q.pending, q.flight.updates), flight := Idle)
  }

  function Apply(s: Sys, a: Action): Sys
    requires Enabled(s, a)
  {
    match a
    case Issue(k) => s.(db := s.db[k := None], ever := s.ever + {k})
    case Revoke(k) => s.(db := s.db - {k})
    case Use(p, k, now) =>
      var q := s.procs[p];
      Land(s, p, q.(pending := q.pending[k := now]))
        .(latest := s.latest[k := if k in s.latest then Max(s.latest[k], now) else now])
    case Snapshot(p) =>
      var q := s.procs[p];
      Land(s, p, q.(pending := map[], flight := Flushing(q.pending, q.pending.Keys, map[])))
    case UpdateRow(p, k) =>
      var q := s.procs[p];
      var f := q.flight;
      var ts := f.updates[k];
      var tx := if MatchesRow(s, k, ts) then f.tx[k := ts] else f.tx;
      Land(s, p, q.(flight := Flushing(f.updates, f.todo - {k}, tx)))
    case Commit(p) =>
      Land(s, p, s.procs[p].(flight := Idle)).(db := Written(s.db, s.procs[p].flight.tx))
    case CommitUnreported(p) =>
      Land(s, p, MergedBack(s.procs[p])).(db := Written(s.db, s.procs[p].flight.tx))
    case Fail(p) => Land(s, p, MergedBack(s.procs[p]))
    case Cancel(p) => Land(s, p, s.procs[p].(flight := Idle))
  }

  /** A use whose clock read is behind the time it overwrites. */
  predicate Backward(s: Sys, a: Action) {
    a.Use? && a.p < |s.procs| && a.k in s.procs[a.p].pending && a.now < s.procs[a.p].pending[a.k]
  }

  /** Every step is possible, none cancels a flush, and no clock read is backward. */
  ghost predicate Faithful(s: Sys, run: seq<Action>)
    decreases |run|
  {
    run == [] || (
      && Enabled(s, run[0]) && !run[0].Cancel? && !Backward(s, run[0])
      && Faithful(Apply(s, run[0]), run[1..]))
  }

  ghost predicate Steps(s: Sys, run: seq<Action>, t: Sys)
    decreases |run|
  {
    if run == [] then s == t
    else Enabled(s, run[0]) && Steps(Apply(s, run[0]), run[1..], t)
  }

  /** The extension has just started: nothing pending, and the newest known use of
      a key is the one in its row. */
  ghost predicate Init(s: Sys) {
    && s.db.Keys <= s.ever
    && (forall q :: q in s.procs ==> q.pending == map[] && q.flight.Idle?)
    && s.latest == map k | k in s.db && s.db[k].Some? :: s.db[k].value
  }

  // ----- The steps and the methods -----

  /** Only a commit writes the row of k, also one the process believes to have failed. */
  lemma OnlyCommitsWrite(s: Sys, a: Action, k: Key)
    requires Enabled(s, a) && !a.Issue? && !a.Revoke?
    ensures var db, t := s.db, Apply(s, a).db;
      if (a.Commit? || a.CommitUnreported?) && k in s.procs[a.p].flight.tx
      then k in t && t[k] == Some(s.procs[a.p].flight.tx[k])
      else (k in t <==> k in db) && (k in db ==> t[k] == db[k])
  {
  }

  /** What the steps leave in a process is what the methods of the extension leave: a use is
      the pending time of its key, a snapshot takes all of them, and a failure, reported of a
      commit that took effect too, gives each key the later of its times. */
  lemma StepsFollowTheMethods(s: Sys, a: Action, k: Key)
    requires Enabled(s, a) && !a.Issue? && !a.Revoke?
    ensures var q, t := s.procs[a.p], Apply(s, a).procs[a.p];
      && (a.Use? ==> t == q.(pending := q.pending[a.k := a.now]))
      && (a.Snapshot? ==> t == Proc(map[], Flushing(q.pending, q.pending.Keys, map[])))
      && (a.Commit? || a.Cancel? ==> t == q.(flight := Idle))
      && (a.Fail? || a.CommitUnreported? ==>
            && t.flight.Idle? && t.pending.Keys == q.pending.Keys + q.flight.updates.Keys
            && (k in q.pending && k in q.flight.updates ==> t.pending[k] == Max(q.pending[k], q.flight.updates[k]))
            && (k in q.pending && k !in q.flight.updates ==> t.pending[k] == q.pending[k])
            && (k !in q.pending && k in q.flight.updates ==> t.pending[k] == q.flight.updates[k]))
  {
  }

  // ----- Invariants -----

  /** t is in the row of k, or in the memory of a process. */
  ghost predicate Carried(s: Sys, k: Key, t: Time) {
    (k in s.db && s.db[k] == Some(t)) || exists p :: 0 <= p < |s.procs| && Holds(s.procs[p], k, t)
  }

  predicate Holds(q: Proc, k: Key, t: Time) {
    || (k in q.pending && q.pending[k] == t)
    || (q.flight.Flushing? && k in q.flight.updates && q.flight.updates[k] == t)
  }

  /** Nothing anywhere is newer than the newest use. */
  ghost predicate NothingNewer(s: Sys) {
    forall k, t :: Carried(s, k, t) ==> k in s.latest && t <= s.latest[k]
  }

  /** The newest use of every existing key is still somewhere. */
  ghost predicate NothingLost(s: Sys) {
    forall k :: k in s.db && k in s.latest ==> Carried(s, k, s.latest[k])
  }

  ghost predicate ProcOk(s: Sys, q: Proc) {
    && q.pending.Keys <= s.ever
    && (q.flight.Flushing? ==> FlightOk(s, q.flight))
  }

  /** A row already visited by a flush holds its time, or will when it commits. */
  ghost predicate FlightOk(s: Sys, f: Flight)
    requires f.Flushing?
  {
    && f.updates.Keys <= s.ever && f.todo <= f.updates.Keys
    && f.tx.Keys <= (f.updates.Keys - f.todo) * s.db.Keys
    && (forall k :: k in f.tx ==> f.tx[k] == f.updates[k] && Matches(s.db[k], f.tx[k]))
    && (forall k :: k in f.updates.Keys - f.todo && k in s.db && k !in f.tx ==> !Matches(s.db[k], f.updates[k]))
  }

  predicate NoCommonLock(a: Proc, b: Proc) {
    a.flight.Flushing? && b.flight.Flushing? ==> a.flight.tx.Keys !! b.flight.tx.Keys
  }

  ghost predicate WellFormed(s: Sys) {
    && s.db.Keys <= s.ever && s.latest.Keys <= s.ever
    && (forall p :: 0 <= p < |s.procs| ==> ProcOk(s, s.procs[p]))
    && (forall p, q :: 0 <= p < q < |s.procs| ==> NoCommonLock(s.procs[p], s.procs[q]))
    && NothingNewer(s)
  }

  lemma InitOk(s: Sys)
    requires Init(s)
    ensures WellFormed(s) && NothingLost(s)
  {
  }

  /** Every step, cancellation included, keeps the bookkeeping of locks and visited rows. */
  lemma StepKeepsWellFormed(s: Sys, a: Action)
    requires WellFormed(s) && Enabled(s, a)
    ensures WellFormed(Apply(s, a))
  {
    var t := Apply(s, a);
    forall p | 0 <= p < |t.procs| ensures ProcOk(t, t.procs[p]) {
      StepKeepsProcOk(s, a, p);
    }
    StepKeepsLocksApart(s, a);
    StepKeepsNothingNewer(s, a);
  }

  lemma StepKeepsProcOk(s: Sys, a: Action, p: nat)
    requires WellFormed(s) && Enabled(s, a) && p < |s.procs|
    ensures ProcOk(Apply(s, a), Apply(s, a).procs[p])
  {
    assert ProcOk(s, s.procs[p]);
    if (a.Commit? || a.CommitUnreported?) && a.p != p {
      assert NoCommonLock(s.procs[a.p], s.procs[p]) || NoCommonLock(s.procs[p], s.procs[a.p]);
      CommitKeepsOtherFlight(s, s.procs[a.p], s.procs[p]);
    }
  }

  /** A commit touches no row another flush has locked, and lowers none. */
  lemma CommitKeepsOtherFlight(s: Sys, q: Proc, other: Proc)
    requires ProcOk(s, q) && ProcOk(s, other) && q.flight.Flushing? && s.db.Keys <= s.ever
    requires NoCommonLock(q, other) || NoCommonLock(other, q)
    ensures ProcOk(s.(db := Written(s.db, q.flight.tx)), other)
  {
  }

  lemma StepKeepsLocksApart(s: Sys, a: Action)
    requires WellFormed(s) && Enabled(s, a)
    ensures var t := Apply(s, a); forall p, q :: 0 <= p < q < |t.procs| ==> NoCommonLock(t.procs[p], t.procs[q])
  {
  }

  lemma StepKeepsNothingNewer(s: Sys, a: Action)
    requires WellFormed(s) && Enabled(s, a)
    ensures NothingNewer(Apply(s, a))
  {
    var t := Apply(s, a);
    forall k, ts | Carried(t, k, ts) ensures k in t.latest && ts <= t.latest[k] {
      if !(a.Use? && a.k == k && ts == a.now) {
        CarriedBefore(s, a, k, ts);
      }
    }
  }

  /** A step carries nothing that was not carried before, except the use it records. */
  lemma CarriedBefore(s: Sys, a: Action, k: Key, ts: Time)
    requires WellFormed(s) && Enabled(s, a) && Carried(Apply(s, a), k, ts)
    requires !(a.Use? && a.k == k && ts == a.now)
    ensures Carried(s, k, ts)
  {
  }

  // ----- No lost update -----

  /** No step but a cancellation or a backward clock read loses the newest use of a key. */
  lemma StepLosesNothing(s: Sys, a: Action)
    requires WellFormed(s) && NothingLost(s) && Enabled(s, a) && !a.Cancel? && !Backward(s, a)
    ensures NothingLost(Apply(s, a))
  {
    var t := Apply(s, a);
    forall k | k in t.db && k in t.latest ensures Carried(t, k, t.latest[k]) {
      if a.Use? && a.k == k && t.latest[k] == a.now {
        assert Holds(t.procs[a.p], k, a.now);
      } else {
        assert a.Issue? ==> k in s.db;
        StillCarried(s, a, k);
      }
    }
  }

  lemma StillCarried(s: Sys, a: Action, k: Key)
    requires WellFormed(s) && Enabled(s, a) && !a.Cancel? && !Backward(s, a)
    requires k in s.db && k in Apply(s, a).db && k in s.latest && Carried(s, k, s.latest[k])
    requires a.Use? && a.k == k ==> a.now < s.latest[k]
    ensures Carried(Apply(s, a), k, s.latest[k])
  {
    var t, ts := Apply(s, a), s.latest[k];
    if s.db[k] == Some(ts) {
      if a.Commit? || a.CommitUnreported? {
        assert ProcOk(s, s.procs[a.p]);
        if k in s.procs[a.p].flight.tx {
          assert Holds(s.procs[a.p], k, s.procs[a.p].flight.tx[k]);
          assert Carried(s, k, s.procs[a.p].flight.tx[k]);
          assert false;
        }
      }
    } else {
      var p :| 0 <= p < |s.procs| && Holds(s.procs[p], k, ts);
      if a.Issue? || a.Revoke? || a.p != p {
        assert Holds(t.procs[p], k, ts);
      } else {
        OwnStepKeeps(s, a, k, ts);
      }
    }
  }

  /** A process hands its newest time of k on: to the snapshot, to the row, or back. */
  lemma OwnStepKeeps(s: Sys, a: Action, k: Key, ts: Time)
    requires WellFormed(s) && Enabled(s, a) && !a.Cancel? && !Backward(s, a) && !a.Issue? && !a.Revoke?
    requires k in s.db && k in s.latest && ts == s.latest[k] && Holds(s.procs[a.p], k, ts)
    requires a.Use? && a.k == k ==> a.now < ts
    ensures Carried(Apply(s, a), k, ts)
  {
    var q, t := s.procs[a.p], Apply(s, a);
    assert ProcOk(s, q);
    assert forall v :: Holds(q, k, v) ==> Carried(s, k, v);
    assert k in q.pending ==> Holds(q, k, q.pending[k]);
    assert q.flight.Flushing? && k in q.flight.updates ==> Holds(q, k, q.flight.updates[k]);
    if a.Commit? && !Holds(t.procs[a.p], k, ts) {
      assert k in q.flight.updates && q.flight.updates[k] == ts;
      assert k !in q.flight.tx ==> s.db[k].Some? && s.db[k].value >= ts && Carried(s, k, s.db[k].value);
      assert t.db[k] == Some(ts);
    } else {
      assert Holds(t.procs[a.p], k, ts);
    }
  }

  lemma {:induction false} RunKeepsWellFormed(s: Sys, run: seq<Action>, t: Sys)
    requires WellFormed(s) && Steps(s, run, t)
    ensures WellFormed(t)
    ensures NothingLost(s) && Faithful(s, run) ==> NothingLost(t)
    decreases |run|
  {
    if run != [] {
      StepKeepsWellFormed(s, run[0]);
      if NothingLost(s) && Faithful(s, run) {
        StepLosesNothing(s, run[0]);
      }
      RunKeepsWellFormed(Apply(s, run[0]), run[1..], t);
    }
  }

  /** No lost update: however authentications, flushes, failures and unreported commits
      of any number of processes interleave, the newest use of an existing key is the
      maximum of its row and of the times pending or in flight. */
  lemma NoLostUpdate(s: Sys, run: seq<Action>, t: Sys, k: Key)
    requires Init(s) && Steps(s, run, t) && Faithful(s, run) && k in t.db
    ensures forall ts :: Carried(t, k, ts) ==> k in t.latest && ts <= t.latest[k]
    ensures k in t.latest ==> Carried(t, k, t.latest[k])
  {
    InitOk(s);
    RunKeepsWellFormed(s, run, t);
  }

  // ----- The row is a max-register -----

  lemma StepNeverLowersRow(s: Sys, a: Action, k: Key)
    requires WellFormed(s) && Enabled(s, a) && k in s.db && k in Apply(s, a).db
    ensures s.db[k].Some? ==> Apply(s, a).db[k].Some? && s.db[k].value <= Apply(s, a).db[k].value
  {
  }

  lemma {:induction false} KeysAreNotReissued(s: Sys, run: seq<Action>, t: Sys, k: Key)
    requires WellFormed(s) && Steps(s, run, t) && k in s.ever && k !in s.db
    ensures k !in t.db
    decreases |run|
  {
    if run != [] {
      StepKeepsWellFormed(s, run[0]);
      assert k !in Apply(s, run[0]).db by {
        if run[0].Commit? || run[0].CommitUnreported? {
          assert ProcOk(s, s.procs[run[0].p]);
        }
      }
      KeysAreNotReissued(Apply(s, run[0]), run[1..], t, k);
    }
  }

  /** The committed time of a key never decreases, cancellations included. */
  lemma {:induction false} RowNeverMovesBack(s: Sys, run: seq<Action>, t: Sys, k: Key)
    requires WellFormed(s) && Steps(s, run, t) && k in s.db && k in t.db
    ensures s.db[k].Some? ==> t.db[k].Some? && s.db[k].value <= t.db[k].value
    decreases |run|
  {
    if run != [] {
      var m := Apply(s, run[0]);
      StepKeepsWellFormed(s, run[0]);
      if k !in m.db {
        KeysAreNotReissued(m, run[1..], t, k);
      } else {
        StepNeverLowersRow(s, run[0], k);
        RowNeverMovesBack(m, run[1..], t, k);
      }
    }
  }

  ghost predicate Settled(s: Sys) {
    forall p :: 0 <= p < |s.procs| ==> s.procs[p].pending == map[] && s.procs[p].flight.Idle?
  }

  /** When all processes have flushed, every row holds the newest use of its key. */
  lemma SettledRowsAreNewest(s: Sys, run: seq<Action>, t: Sys, k: Key)
    requires Init(s) && Steps(s, run, t) && Faithful(s, run) && Settled(t) && k in t.db
    ensures t.db[k] == if k in t.latest then Some(t.latest[k]) else None
  {
    NoLostUpdate(s, run, t, k);
    if t.db[k].Some? {
      assert Carried(t, k, t.db[k].value);
    }
  }

  // ----- Settling is always possible -----

  predicate FlushStep(a: Action) {
    a.Snapshot? || a.UpdateRow? || a.Commit? || a.Fail?
  }

  lemma {:induction false} StepsSnoc(s: Sys, run: seq<Action>, t: Sys, a: Action)
    requires Steps(s, run, t) && Enabled(t, a)
    ensures Steps(s, run + [a], Apply(t, a))
    ensures Faithful(s, run) && !a.Cancel? && !Backward(t, a) ==> Faithful(s, run + [a])
    decreases |run|
  {
    if run == [] {
      assert (run + [a])[1..] == [];
      assert Steps(Apply(t, a), [], Apply(t, a));
    } else {
      StepsSnoc(Apply(s, run[0]), run[1..], t, a);
      assert (run + [a])[1..] == run[1..] + [a];
    }
  }

  /** t is reached from s by flush steps alone. */
  ghost predicate FlushedTo(s: Sys, run: seq<Action>, t: Sys) {
    && Steps(s, run, t) && Faithful(s, run) && WellFormed(t)
    && t.latest == s.latest && t.db.Keys == s.db.Keys && |t.procs| == |s.procs|
    && forall i :: 0 <= i < |run| ==> FlushStep(run[i])
  }

  lemma Then(s: Sys, run: seq<Action>, t: Sys, a: Action)
    requires FlushedTo(s, run, t) && Enabled(t, a) && FlushStep(a)
    ensures FlushedTo(s, run + [a], Apply(t, a))
  {
    StepsSnoc(s, run, t, a);
    StepKeepsWellFormed(t, a);
    if a.Commit? {
      assert ProcOk(t, t.procs[a.p]);
    }
  }

  ghost predicate AllIdleBut(s: Sys, p: nat) {
    forall q :: 0 <= q < |s.procs| && q != p ==> s.procs[q].flight.Idle?
  }

  /** What a flush that has visited all its rows is about to commit. */
  lemma CommitWritesFlushed(s: Sys, p: nat)
    requires WellFormed(s) && InFlight(s, p) && s.procs[p].flight.todo == {}
    ensures Written(s.db, s.procs[p].flight.tx) == Flushed(s.db, s.procs[p].flight.updates)
  {
  }

  /** The rows of an undisturbed flush are visited one by one. */
  lemma VisitRows(s: Sys, run0: seq<Action>, t0: Sys, p: nat) returns (run: seq<Action>, t: Sys)
    requires FlushedTo(s, run0, t0) && InFlight(t0, p) && AllIdleBut(t0, p)
    requires t0.procs[p].flight.tx == map[]
    ensures FlushedTo(s, run, t) && InFlight(t, p) && t.db == t0.db
    ensures var f := t.procs[p].flight;
      f.todo == {} && f.updates == t0.procs[p].flight.updates && t.procs == t0.procs[p := t0.procs[p].(flight := f)]
  {
    run, t := run0, t0;
    while t.procs[p].flight.todo != {}
      invariant FlushedTo(s, run, t) && InFlight(t, p) && t.db == t0.db
      invariant t.procs[p].flight.updates == t0.procs[p].flight.updates
      invariant t.procs == t0.procs[p := t0.procs[p].(flight := t.procs[p].flight)]
      decreases t.procs[p].flight.todo
    {
      assert ProcOk(t, t.procs[p]);
      var k :| k in t.procs[p].flight.todo;
      Then(s, run, t, UpdateRow(p, k));
      run, t := run + [UpdateRow(p, k)], Apply(t, UpdateRow(p, k));
    }
  }

  /** One undisturbed flush by p empties what p has pending into the rows. */
  lemma FlushOne(s: Sys, run0: seq<Action>, t0: Sys, p: nat) returns (run: seq<Action>, t: Sys)
    requires FlushedTo(s, run0, t0) && p < |t0.procs| && AllIdleBut(t0, p) && t0.procs[p].flight.Idle?
    ensures FlushedTo(s, run, t) && t.procs == t0.procs[p := Proc(map[], Idle)]
    ensures t.db == Flushed(t0.db, t0.procs[p].pending)
  {
    run, t := run0, t0;
    if t.procs[p].pending != map[] {
      Then(s, run, t, Snapshot(p));
      run, t := VisitRows(s, run + [Snapshot(p)], Apply(t, Snapshot(p)), p);
      CommitWritesFlushed(t, p);
      Then(s, run, t, Commit(p));
      run, t := run + [Commit(p)], Apply(t, Commit(p));
    }
  }

  /** From every state the processes can, by flushes alone, reach one where every row
      holds the newest use of its key: no step is ever waited for in vain. */
  lemma CanSettle(s: Sys) returns (run: seq<Action>, t: Sys)
    requires WellFormed(s) && NothingLost(s)
    ensures FlushedTo(s, run, t) && Settled(t)
    ensures forall k :: k in t.db ==> t.db[k] == if k in s.latest then Some(s.latest[k]) else None
  {
    run, t := [], s;
    for p := 0 to |s.procs|
      invariant FlushedTo(s, run, t)
      invariant forall q :: 0 <= q < p ==> t.procs[q].flight.Idle?
    {
      if t.procs[p].flight.Flushing? {
        Then(s, run, t, Fail(p));
        run, t := run + [Fail(p)], Apply(t, Fail(p));
      }
    }
    for p := 0 to |s.procs|
      invariant FlushedTo(s, run, t)
      invariant forall q :: 0 <= q < |t.procs| ==> t.procs[q].flight.Idle? && (q < p ==> t.procs[q].pending == map[])
    {
      run, t := FlushOne(s, run, t, p);
    }
    RunKeepsWellFormed(s, run, t);
    forall k | k in t.db ensures t.db[k] == if k in s.latest then Some(s.latest[k]) else None {
      if t.db[k].Some? {
        assert Carried(t, k, t.db[k].value);
      }
    }
  }

  // ----- The two steps that can lose a use -----

  /** The row or another process carries a time of k no older than ts. */
  ghost predicate Elsewhere(s: Sys, p: nat, k: Key, ts: Time) {
    || (k in s.db && s.db[k].Some? && s.db[k].value >= ts)
    || exists q, v :: 0 <= q < |s.procs| && q != p && v >= ts && Holds(s.procs[q], k, v)
  }

  /** What a flush of p is about to forget is superseded. */
  ghost predicate Superseded(s: Sys, p: nat, k: Key, ts: Time)
    requires p < |s.procs|
  {
    Elsewhere(s, p, k, ts) || (k in s.procs[p].pending && s.procs[p].pending[k] >= ts)
  }

  /** Cancelling a flush keeps every newest use exactly when each time of its snapshot is
      superseded: by the committed row, by a later use, or by another process. */
  lemma CancelLosesNothingIff(s: Sys, p: nat)
    requires WellFormed(s) && NothingLost(s) && InFlight(s, p)
    ensures NothingLost(Apply(s, Cancel(p))) <==>
      forall k :: k in s.procs[p].flight.updates && k in s.db ==> Superseded(s, p, k, s.procs[p].flight.updates[k])
  {
    var t, u := Apply(s, Cancel(p)), s.procs[p].flight.updates;
    if NothingLost(t) {
      forall k | k in u && k in s.db ensures Superseded(s, p, k, u[k]) {
        assert Holds(s.procs[p], k, u[k]) && Carried(s, k, u[k]);
        SurvivorSupersedes(s, p, k, s.latest[k]);
      }
    }
    if forall k :: k in u && k in s.db ==> Superseded(s, p, k, u[k]) {
      forall k | k in t.db && k in t.latest ensures Carried(t, k, t.latest[k]) {
        SupersededSurvives(s, p, k);
      }
    }
  }

  lemma SurvivorSupersedes(s: Sys, p: nat, k: Key, v: Time)
    requires InFlight(s, p) && k in s.procs[p].flight.updates && v >= s.procs[p].flight.updates[k]
    requires Carried(Apply(s, Cancel(p)), k, v)
    ensures Superseded(s, p, k, s.procs[p].flight.updates[k])
  {
  }

  lemma SupersededSurvives(s: Sys, p: nat, k: Key)
    requires WellFormed(s) && NothingLost(s) && InFlight(s, p) && k in s.db && k in s.latest
    requires k in s.procs[p].flight.updates ==> Superseded(s, p, k, s.procs[p].flight.updates[k])
    ensures Carried(Apply(s, Cancel(p)), k, s.latest[k])
  {
    var t, f, ts := Apply(s, Cancel(p)), s.procs[p].flight, s.latest[k];
    if s.db[k] == Some(ts) {
    } else if k in f.updates && f.updates[k] == ts {
      if s.db[k].Some? && s.db[k].value >= ts {
        assert Carried(s, k, s.db[k].value);
      } else if k in s.procs[p].pending && s.procs[p].pending[k] >= ts {
        assert Holds(s.procs[p], k, s.procs[p].pending[k]) && Carried(s, k, s.procs[p].pending[k]);
        assert Holds(t.procs[p], k, ts);
      } else {
        var q, v :| 0 <= q < |s.procs| && q != p && v >= ts && Holds(s.procs[q], k, v);
        assert Carried(s, k, v) && Holds(t.procs[q], k, ts);
      }
    } else {
      var q :| 0 <= q < |s.procs| && Holds(s.procs[q], k, ts);
      assert Holds(t.procs[q], k, ts);
    }
  }

  /** A backward clock read keeps the newest use exactly when the time it overwrites is
      in the row, in the snapshot in flight, or with another process. */
  lemma BackwardUseLosesNothingIff(s: Sys, p: nat, k: Key, now: Time)
    requires WellFormed(s) && NothingLost(s) && k in s.db
    requires Enabled(s, Use(p, k, now)) && Backward(s, Use(p, k, now))
    ensures var q := s.procs[p];
      NothingLost(Apply(s, Use(p, k, now))) <==>
        || Elsewhere(s, p, k, q.pending[k])
        || (q.flight.Flushing? && k in q.flight.updates && q.flight.updates[k] >= q.pending[k])
  {
    var q, t := s.procs[p], Apply(s, Use(p, k, now));
    var prev := q.pending[k];
    assert Holds(q, k, prev) && Carried(s, k, prev);
    assert t.latest == s.latest;
    if NothingLost(t) {
      var v := t.latest[k];
      assert Carried(t, k, v);
      if !(s.db[k] == Some(v)) {
        var r :| 0 <= r < |t.procs| && Holds(t.procs[r], k, v);
        assert r != p ==> Holds(s.procs[r], k, v);
      }
    }
    forall j | j in t.db && j in t.latest && j != k ensures Carried(t, j, t.latest[j]) {
      assert Carried(s, j, s.latest[j]);
      if s.db[j] != Some(s.latest[j]) {
        var r :| 0 <= r < |s.procs| && Holds(s.procs[r], j, s.latest[j]);
        assert Holds(t.procs[r], j, s.latest[j]);
      }
    }
    if Elsewhere(s, p, k, prev) || (q.flight.Flushing? && k in q.flight.updates && q.flight.updates[k] >= prev) {
      OverwrittenSurvives(s, p, k, now);
    }
  }

  lemma OverwrittenSurvives(s: Sys, p: nat, k: Key, now: Time)
    requires WellFormed(s) && NothingLost(s) && k in s.db && k in s.latest
    requires Enabled(s, Use(p, k, now)) && Backward(s, Use(p, k, now))
    requires var q := s.procs[p];
      || Elsewhere(s, p, k, q.pending[k])
      || (q.flight.Flushing? && k in q.flight.updates && q.flight.updates[k] >= q.pending[k])
    ensures Carried(Apply(s, Use(p, k, now)), k, s.latest[k])
  {
    var q, t, ts := s.procs[p], Apply(s, Use(p, k, now)), s.latest[k];
    if s.db[k] == Some(ts) {
    } else if q.pending[k] < ts {
      var r :| 0 <= r < |s.procs| && Holds(s.procs[r], k, ts);
      assert Holds(t.procs[r], k, ts);
    } else if s.db[k].Some? && s.db[k].value >= q.pending[k] {
      assert Carried(s, k, s.db[k].value);
    } else if q.flight.Flushing? && k in q.flight.updates && q.flight.updates[k] >= q.pending[k] {
      assert Holds(q, k, q.flight.updates[k]) && Carried(s, k, q.flight.updates[k]);
      assert Holds(t.procs[p], k, ts);
    } else {
      var r, v :| 0 <= r < |s.procs| && r != p && v >= q.pending[k] && Holds(s.procs[r], k, v);
      assert Carried(s, k, v) && Holds(t.procs[r], k, ts);
    }
  }

  /** A shutdown that catches a flush in flight forgets a use. */
  lemma CancelLosesAUse()
    ensures var s := Sys(map["k" := None], [Proc(map[], Idle)], {"k"}, map[]);
      var run := [Use(0, "k", 5), Snapshot(0), Cancel(0)];
      && Init(s)
      && exists t :: Steps(s, run, t) && Settled(t) && t.latest == map["k" := 5] && t.db == map["k" := None]
  {
    var s := Sys(map["k" := None], [Proc(map[], Idle)], {"k"}, map[]);
    var s1 := Apply(s, Use(0, "k", 5));
    assert s1.procs[0].pending == map["k" := 5];
    assert "k" in s1.procs[0].pending;
    var s2 := Apply(s1, Snapshot(0));
    var t := Apply(s2, Cancel(0));
    var run := [Use(0, "k", 5), Snapshot(0), Cancel(0)];
    assert run[1..] == [Snapshot(0), Cancel(0)] && run[1..][1..] == [Cancel(0)] && run[1..][1..][1..] == [];
    assert Steps(t, [], t);
    assert Steps(s2, [Cancel(0)], t);
    assert Steps(s, run, t);
  }
}
