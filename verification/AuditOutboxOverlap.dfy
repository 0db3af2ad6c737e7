// Rounds of any number of manager processes on one outbox table. A round loads its rows,
// pushes them one by one while other rounds go on, and at its commit writes the columns it
// set, computed from the values it loaded.

module AuditOutboxOverlap {
  import opened Common
  import opened AuditOutbox
  import opened AuditOutboxRuns
  import opened Models

  /** An open round: the rows as loaded, and the outcomes of the pushes so far. */
  datatype Batch = Batch(picked: seq<nat>, loaded: seq<Row>, outcomes: seq<Outcome>)

  /** `rounds` are the open rounds of the processes. */
  datatype World = World(sys: Sys, rounds: map<nat, Batch>)

  datatype Move =
    | Add(id: RowId, event: Event, key: Option<string>)
    | Begin(p: nat, picked: seq<nat>)
    | PushNext(p: nat, outcome: Outcome)
    | Commit(p: nat)
    | Abort(p: nat)   // the process dies, or the commit fails

  ghost predicate Allowed(w: World, m: Move) {
    match m
    case Add(id, _, key) => NewIn(w.sys.rows, id, key)
    case Begin(p, picked) => p !in w.rounds && Picks(w.sys.rows, picked)
    case PushNext(p, _) =>
      p in w.rounds && |w.rounds[p].outcomes| < |w.rounds[p].picked| && |w.rounds[p].outcomes| < |w.rounds[p].loaded|
    case Commit(p) => p in w.rounds && Complete(w.rounds[p], |w.sys.rows|)
    case Abort(p) => p in w.rounds
  }

  predicate Complete(b: Batch, n: nat) {
    |b.outcomes| == |b.picked| == |b.loaded| && InRange(b.picked, n)
  }

  /** The row after the UPDATE of a round that loaded it as `loaded`: only columns the round
      changed are written. */
  function Overwrite(r: Row, loaded: Row, push: Push): Row {
    match push
    case Returned => r.(status := DELIVERED)
    case Raised(e) =>
      var attempts, error := loaded.attempts + 1, Some(Cut(e, 500));
      r.(attempts := attempts,
         lastError := if error == loaded.lastError then r.lastError else error,
         status := if attempts >= MAX_ATTEMPTS then FAILED else r.status)
  }

  /** The first n UPDATEs of a commit. */
  function Overwritten(rows: seq<Row>, b: Batch, n: nat): (t: seq<Row>)
    requires Complete(b, |rows|) && n <= |b.picked|
    ensures |t| == |rows|
  {
    if n == 0 then rows
    else
      var t, i := Overwritten(rows, b, n - 1), b.picked[n - 1];
      t[i := Overwrite(t[i], b.loaded[n - 1], b.outcomes[n - 1].push)]
  }

  ghost function Moved(w: World, m: Move): World
    requires Allowed(w, m)
  {
    match m
    case Add(id, event, key) => w.(sys := w.sys.(rows := w.sys.rows + [NewRow(id, event, key)]))
    case Begin(p, picked) =>
      var loaded := seq(|picked|, j requires 0 <= j < |picked| => w.sys.rows[picked[j]]);
      w.(rounds := w.rounds[p := Batch(picked, loaded, [])])
    case PushNext(p, o) =>
      var b := w.rounds[p];
      World(Receive(w.sys, b.loaded[|b.outcomes|], o), w.rounds[p := b.(outcomes := b.outcomes + [o])])
    case Commit(p) =>
      World(w.sys.(rows := Overwritten(w.sys.rows, w.rounds[p], |w.rounds[p].picked|)), w.rounds - {p})
    case Abort(p) => w.(rounds := w.rounds - {p})
  }

  ghost predicate Moves(w: World, run: seq<Move>, t: World)
    decreases |run|
  {
    if run == [] then w == t
    else Allowed(w, run[0]) && Moves(Moved(w, run[0]), run[1..], t)
  }

  // ----- At most once, however rounds overlap -----

  /** A round's rows are still those it loaded, but for what other rounds wrote. */
  ghost predicate BatchOk(b: Batch, rows: seq<Row>) {
    && |b.loaded| == |b.picked| && |b.outcomes| <= |b.picked| && InRange(b.picked, |rows|)
    && (forall i, j :: 0 <= i < j < |b.picked| ==> b.picked[i] != b.picked[j])
    && forall j :: 0 <= j < |b.picked| ==> Keeps(b.loaded[j], rows[b.picked[j]]) && Selectable(b.loaded[j])
  }

  ghost predicate WorldOk(w: World) {
    ReceiverOk(w.sys) && forall p :: p in w.rounds ==> BatchOk(w.rounds[p], w.sys.rows)
  }

  lemma {:induction false} OverwrittenKeeps(rows: seq<Row>, b: Batch, n: nat)
    requires Complete(b, |rows|) && n <= |b.picked|
    ensures AllKept(rows, Overwritten(rows, b, n))
  {
    if n > 0 {
      OverwrittenKeeps(rows, b, n - 1);
      var t, i := Overwritten(rows, b, n - 1), b.picked[n - 1];
      assert Keeps(t[i], Overwrite(t[i], b.loaded[n - 1], b.outcomes[n - 1].push));
    }
  }

  lemma KeptBatchOk(b: Batch, rows: seq<Row>, later: seq<Row>)
    requires BatchOk(b, rows) && AllKept(rows, later)
    ensures BatchOk(b, later)
  {
  }

  lemma KeptIdsDistinct(rows: seq<Row>, later: seq<Row>)
    requires DistinctIds(rows) && AllKept(rows, later) && |later| == |rows|
    ensures DistinctIds(later)
  {
    forall i, j | 0 <= i < j < |later| ensures later[i].id != later[j].id {
      assert Keeps(rows[i], later[i]) && Keeps(rows[j], later[j]);
    }
  }

  lemma NewRowsOk(w: World, rows: seq<Row>)
    requires WorldOk(w) && AllKept(w.sys.rows, rows) && DistinctIds(rows)
    ensures WorldOk(w.(sys := w.sys.(rows := rows)))
  {
    EvolutionKeepsReceiver(w.sys, rows);
    forall p | p in w.rounds ensures BatchOk(w.rounds[p], rows) {
      KeptBatchOk(w.rounds[p], w.sys.rows, rows);
    }
  }

  /** The receiver cannot tell the loaded row from the row in the table. */
  lemma PushKeepsReceiver(s: Sys, loaded: Row, i: nat, o: Outcome)
    requires ReceiverOk(s) && i < |s.rows| && Keeps(loaded, s.rows[i])
    ensures ReceiverOk(Receive(s, loaded, o)) && Receive(s, loaded, o).rows == s.rows
  {
    assert Receive(s, loaded, o) == Receive(s, s.rows[i], o);
    ReceiveKeeps(s, i, o);
  }

  lemma MoveKeepsOk(w: World, m: Move)
    requires WorldOk(w) && Allowed(w, m)
    ensures WorldOk(Moved(w, m))
  {
    match m
    case Add(id, event, key) =>
      NewRowsOk(w, w.sys.rows + [NewRow(id, event, key)]);
    case Begin(p, picked) =>
    case PushNext(p, o) =>
      var b := w.rounds[p];
      assert BatchOk(b, w.sys.rows);
      PushKeepsReceiver(w.sys, b.loaded[|b.outcomes|], b.picked[|b.outcomes|], o);
    case Commit(p) =>
      var rows := Overwritten(w.sys.rows, w.rounds[p], |w.rounds[p].picked|);
      OverwrittenKeeps(w.sys.rows, w.rounds[p], |w.rounds[p].picked|);
      KeptIdsDistinct(w.sys.rows, rows);
      NewRowsOk(w, rows);
    case Abort(p) =>
  }

  lemma {:induction false} RunKeepsWorldOk(w: World, run: seq<Move>, t: World)
    requires WorldOk(w) && Moves(w, run, t)
    ensures WorldOk(t)
    decreases |run|
  {
    if run != [] {
      MoveKeepsOk(w, run[0]);
      RunKeepsWorldOk(Moved(w, run[0]), run[1..], t);
    }
  }

  /** However the rounds of any number of processes overlap, an event is applied at most
      once, as it was enqueued, and every event that got through exactly once if and only if
      no two of them were sent under one key. */
  lemma OverlapExactlyOnceIff(run: seq<Move>, w: World)
    requires Moves(World(Start, map[]), run, w)
    ensures AtMostOnce(w.sys) && (ExactlyOnce(w.sys) <==> KeysApart(w.sys))
  {
    RunKeepsWorldOk(World(Start, map[]), run, w);
    ReceiverExactlyOnceIff(w.sys);
  }

  // ----- DELIVERED is not final when rounds overlap -----

  lemma {:induction false} OverwrittenRow(rows: seq<Row>, b: Batch, n: nat, j: nat)
    requires Complete(b, |rows|) && j < |b.picked| && n <= |b.picked|
    requires forall i, k :: 0 <= i < k < |b.picked| ==> b.picked[i] != b.picked[k]
    ensures var i := b.picked[j];
      Overwritten(rows, b, n)[i] == if j < n then Overwrite(rows[i], b.loaded[j], b.outcomes[j].push) else rows[i]
  {
    if n > 0 {
      OverwrittenRow(rows, b, n - 1, j);
    }
  }

  lemma {:induction false} OtherRowsStay(rows: seq<Row>, b: Batch, n: nat, i: nat)
    requires Complete(b, |rows|) && n <= |b.picked| && i < |rows| && i !in b.picked
    ensures Overwritten(rows, b, n)[i] == rows[i]
  {
    if n > 0 {
      OtherRowsStay(rows, b, n - 1, i);
    }
  }

  /** What a commit leaves of row i. */
  lemma CommittedRow(rows: seq<Row>, b: Batch, i: nat)
    requires Complete(b, |rows|) && forall j, k :: 0 <= j < k < |b.picked| ==> b.picked[j] != b.picked[k]
    requires i < |rows|
    ensures i !in b.picked ==> Overwritten(rows, b, |b.picked|)[i] == rows[i]
    ensures forall j :: 0 <= j < |b.picked| && b.picked[j] == i ==>
      Overwritten(rows, b, |b.picked|)[i] == Overwrite(rows[i], b.loaded[j], b.outcomes[j].push)
  {
    if i in b.picked {
      forall j | 0 <= j < |b.picked| && b.picked[j] == i
        ensures Overwritten(rows, b, |b.picked|)[i] == Overwrite(rows[i], b.loaded[j], b.outcomes[j].push)
      {
        OverwrittenRow(rows, b, |b.picked|, j);
      }
    } else {
      OtherRowsStay(rows, b, |b.picked|, i);
    }
  }

  /** A round that nothing interleaves with leaves the rows as a round of one process does. */
  lemma UndisturbedRound(rows: seq<Row>, b: Batch)
    requires Complete(b, |rows|) && forall j, k :: 0 <= j < k < |b.picked| ==> b.picked[j] != b.picked[k]
    requires forall j :: 0 <= j < |b.picked| ==> b.loaded[j] == rows[b.picked[j]] && Selectable(b.loaded[j])
    ensures Overwritten(rows, b, |b.picked|) == Attempted(rows, b.picked, b.outcomes)
  {
    AttemptedRows(rows, b.picked, b.outcomes);
    forall i | 0 <= i < |rows|
      ensures Overwritten(rows, b, |b.picked|)[i] == Attempted(rows, b.picked, b.outcomes)[i]
    {
      CommittedRow(rows, b, i);
      if i in b.picked {
        var j :| 0 <= j < |b.picked| && b.picked[j] == i;
        assert Overwrite(rows[i], b.loaded[j], b.outcomes[j].push) == Attempt(rows[i], b.outcomes[j].push);
      }
    }
  }

  /** The push of row i raised in a round that found it with one attempt left. */
  ghost predicate LastAttemptRaised(b: Batch, i: nat) {
    exists j :: 0 <= j < |b.picked| && j < |b.loaded| && j < |b.outcomes|
      && b.picked[j] == i && b.outcomes[j].push.Raised? && b.loaded[j].attempts + 1 >= MAX_ATTEMPTS
  }

  /** A commit takes a row out of DELIVERED if and only if its own push of the row was a
      failed last attempt: the round had loaded the row before it was delivered. */
  lemma CommitUndoesDeliveryIff(w: World, p: nat, i: nat)
    requires WorldOk(w) && Allowed(w, Commit(p)) && i < |w.sys.rows| && w.sys.rows[i].status == DELIVERED
    ensures Moved(w, Commit(p)).sys.rows[i].status != DELIVERED <==> LastAttemptRaised(w.rounds[p], i)
  {
    assert BatchOk(w.rounds[p], w.sys.rows);
    CommittedRow(w.sys.rows, w.rounds[p], i);
  }

  ghost predicate PushReturned(b: Batch, i: nat) {
    exists j :: 0 <= j < |b.picked| && j < |b.outcomes| && b.picked[j] == i && b.outcomes[j].push == Returned
  }

  /** A commit takes a row out of FAILED if and only if its own push of the row returned. */
  lemma CommitRevivesFailedIff(w: World, p: nat, i: nat)
    requires WorldOk(w) && Allowed(w, Commit(p)) && i < |w.sys.rows| && w.sys.rows[i].status == FAILED
    ensures Moved(w, Commit(p)).sys.rows[i].status != FAILED <==> PushReturned(w.rounds[p], i)
  {
    assert BatchOk(w.rounds[p], w.sys.rows);
    CommittedRow(w.sys.rows, w.rounds[p], i);
  }

  /** The push of row i raised in a round that had loaded fewer attempts than were made since. */
  ghost predicate StaleRaise(b: Batch, i: nat, attempts: nat) {
    exists j :: 0 <= j < |b.picked| && j < |b.loaded| && j < |b.outcomes|
      && b.picked[j] == i && b.outcomes[j].push.Raised? && b.loaded[j].attempts + 1 < attempts
  }

  /** A commit lowers the attempts of a row if and only if its own push of the row raised and
      at least two attempts were committed since it loaded the row. */
  lemma CommitLowersAttemptsIff(w: World, p: nat, i: nat)
    requires WorldOk(w) && Allowed(w, Commit(p)) && i < |w.sys.rows|
    ensures Moved(w, Commit(p)).sys.rows[i].attempts < w.sys.rows[i].attempts <==>
      StaleRaise(w.rounds[p], i, w.sys.rows[i].attempts)
  {
    assert BatchOk(w.rounds[p], w.sys.rows);
    CommittedRow(w.sys.rows, w.rounds[p], i);
  }

  // ----- What overlapping rounds keep -----

  /** A PENDING row can be selected. */
  ghost predicate PendingOk(rows: seq<Row>) {
    forall i :: 0 <= i < |rows| && rows[i].status == PENDING ==> rows[i].attempts < MAX_ATTEMPTS
  }

  lemma {:induction false} OverwrittenPendingOk(rows: seq<Row>, b: Batch, n: nat)
    requires Complete(b, |rows|) && n <= |b.picked| && PendingOk(rows)
    ensures PendingOk(Overwritten(rows, b, n))
  {
    if n > 0 {
      OverwrittenPendingOk(rows, b, n - 1);
    }
  }

  /** However rounds overlap, a row that is still PENDING has attempts left, so that every
      row waits for a round or is at an end. */
  lemma {:induction false} PendingStaysSelectable(w: World, run: seq<Move>, t: World)
    requires PendingOk(w.sys.rows) && Moves(w, run, t)
    ensures PendingOk(t.sys.rows)
    ensures forall i :: 0 <= i < |t.sys.rows| && t.sys.rows[i].status == PENDING ==> i in Selection(t.sys.rows)
    decreases |run|
  {
    if run != [] {
      if run[0].Commit? {
        OverwrittenPendingOk(w.sys.rows, w.rounds[run[0].p], |w.rounds[run[0].p].picked|);
      }
      PendingStaysSelectable(Moved(w, run[0]), run[1..], t);
    }
  }

  // ----- Runs -----

  /** How many rounds commit. */
  function Commits(run: seq<Move>): nat {
    if run == [] then 0 else (if run[0].Commit? then 1 else 0) + Commits(run[1..])
  }

  lemma {:induction false} MovesConcat(w: World, a: seq<Move>, m: World, b: seq<Move>, t: World)
    requires Moves(w, a, m) && Moves(m, b, t)
    ensures Moves(w, a + b, t) && Commits(a + b) == Commits(a) + Commits(b)
    decreases |a|
  {
    if a == [] {
      assert a + b == b;
    } else {
      MovesConcat(Moved(w, a[0]), a[1..], m, b, t);
      assert (a + b)[1..] == a[1..] + b;
    }
  }

  lemma Then(w: World, a: seq<Move>, m: World, b: seq<Move>, t: World) returns (run: seq<Move>)
    requires Moves(w, a, m) && Moves(m, b, t)
    ensures run == a + b && Moves(w, run, t) && Commits(run) == Commits(a) + Commits(b)
  {
    MovesConcat(w, a, m, b, t);
    run := a + b;
  }

  lemma One(w: World, m: Move) returns (run: seq<Move>)
    requires Allowed(w, m)
    ensures run == [m] && Moves(w, run, Moved(w, m)) && Commits(run) == if m.Commit? then 1 else 0
  {
    run := [m];
    assert run[1..] == [];
    assert Moves(Moved(w, m), [], Moved(w, m));
  }

  /** One row that failed n times with the same error, and no round open. */
  function FailedTimes(ev: Event, n: nat): World {
    World(Sys([Row("a", ev, None, PENDING, n, if n == 0 then None else Some("x"))], [], {}), map[])
  }

  const LOST := Outcome(false, Raised("x"))
  const GOT := Outcome(true, Returned)

  lemma OneRowPicks(rows: seq<Row>)
    requires |rows| == 1 && Selectable(rows[0])
    ensures Picks(rows, [0])
  {
    assert Selection(rows) == {0};
  }

  lemma BeginOne(w: World, r: Row, p: nat)
    requires w.sys.rows == [r] && Selectable(r) && p !in w.rounds
    ensures Allowed(w, Begin(p, [0])) && Moved(w, Begin(p, [0])) == w.(rounds := w.rounds[p := Batch([0], [r], [])])
  {
    OneRowPicks(w.sys.rows);
    assert Moved(w, Begin(p, [0])).rounds[p].loaded == [r];
  }

  lemma CommitOne(rows: seq<Row>, b: Batch)
    requires |rows| == 1 && b.picked == [0] && |b.loaded| == 1 && |b.outcomes| == 1
    ensures Complete(b, 1) && Overwritten(rows, b, 1) == [Overwrite(rows[0], b.loaded[0], b.outcomes[0].push)]
  {
    assert Overwritten(rows, b, 0) == rows;
  }

  lemma Three(w: World, a: Move, b: Move, c: Move) returns (run: seq<Move>)
    requires Allowed(w, a) && Allowed(Moved(w, a), b) && Allowed(Moved(Moved(w, a), b), c)
    ensures Moves(w, run, Moved(Moved(Moved(w, a), b), c))
    ensures Commits(run) == (if a.Commit? then 1 else 0) + (if b.Commit? then 1 else 0) + (if c.Commit? then 1 else 0)
  {
    var first := One(w, a);
    var second := One(Moved(w, a), b);
    var third := One(Moved(Moved(w, a), b), c);
    var two := Then(w, first, Moved(w, a), second, Moved(Moved(w, a), b));
    run := Then(w, two, Moved(Moved(w, a), b), third, Moved(Moved(Moved(w, a), b), c));
  }

  /** A row with its last error, and the rounds that are open beside. */
  function FailedBeside(ev: Event, n: nat, rounds: map<nat, Batch>): World {
    FailedTimes(ev, n).(rounds := rounds)
  }

  lemma FailsOnce(ev: Event, n: nat, rounds: map<nat, Batch>) returns (run: seq<Move>)
    requires n + 1 < MAX_ATTEMPTS && 0 !in rounds
    ensures Moves(FailedBeside(ev, n, rounds), run, FailedBeside(ev, n + 1, rounds)) && Commits(run) == 1
  {
    var w := FailedBeside(ev, n, rounds);
    var r := w.sys.rows[0];
    BeginOne(w, r, 0);
    var w1 := Moved(w, Begin(0, [0]));
    var w2 := Moved(w1, PushNext(0, LOST));
    assert w2.rounds[0] == Batch([0], [r], [LOST]);
    CommitOne(w.sys.rows, w2.rounds[0]);
    assert w2.rounds - {0} == rounds;
    run := Three(w, Begin(0, [0]), PushNext(0, LOST), Commit(0));
  }

  lemma {:induction false} FailsMore(ev: Event, from: nat, n: nat, rounds: map<nat, Batch>) returns (run: seq<Move>)
    requires from <= n < MAX_ATTEMPTS && 0 !in rounds
    ensures Moves(FailedBeside(ev, from, rounds), run, FailedBeside(ev, n, rounds)) && Commits(run) == n - from
    decreases n
  {
    if n == from {
      run := [];
    } else {
      var before := FailsMore(ev, from, n - 1, rounds);
      var last := FailsOnce(ev, n - 1, rounds);
      run := Then(FailedBeside(ev, from, rounds), before, FailedBeside(ev, n - 1, rounds), last, FailedBeside(ev, n, rounds));
    }
  }

  lemma Adds(ev: Event) returns (run: seq<Move>)
    ensures Moves(World(Start, map[]), run, FailedTimes(ev, 0))
  {
    run := [Add("a", ev, None)];
    assert Moved(World(Start, map[]), Add("a", ev, None)) == FailedTimes(ev, 0);
    assert run[1..] == [];
    assert Moves(FailedTimes(ev, 0), [], FailedTimes(ev, 0));
  }

  /** From the start to one row that failed n times. */
  lemma Fails(ev: Event, n: nat) returns (run: seq<Move>)
    requires n < MAX_ATTEMPTS
    ensures Moves(World(Start, map[]), run, FailedTimes(ev, n))
  {
    var add := Adds(ev);
    var fails := FailsMore(ev, 0, n, map[]);
    run := Then(World(Start, map[]), add, FailedTimes(ev, 0), fails, FailedTimes(ev, n));
  }

  /** Two rounds with the last attempt of one row, each with its push done. */
  function BothPushed(ev: Event, first: Outcome, second: Outcome): World {
    var w := FailedTimes(ev, 4);
    var r := w.sys.rows[0];
    World(w.sys.(applied := [EffectOf(r)], reached := {"a"}), map[0 := Batch([0], [r], [first]), 1 := Batch([0], [r], [second])])
  }

  /** Both rounds open, and the first pushes. */
  lemma FirstPush(ev: Event, first: Outcome) returns (run: seq<Move>, w: World)
    ensures Moves(FailedTimes(ev, 4), run, w)
    ensures var r := FailedTimes(ev, 4).sys.rows[0];
      && w.rounds == map[0 := Batch([0], [r], [first]), 1 := Batch([0], [r], [])]
      && w.sys == Receive(Sys([r], [], {}), r, first)
  {
    var w0 := FailedTimes(ev, 4);
    var r := w0.sys.rows[0];
    BeginOne(w0, r, 0);
    var w1 := Moved(w0, Begin(0, [0]));
    BeginOne(w1, r, 1);
    var w2 := Moved(w1, Begin(1, [0]));
    w := Moved(w2, PushNext(0, first));
    assert w.rounds[0] == Batch([0], [r], [first]) && w.rounds[1] == Batch([0], [r], []);
    run := Three(w0, Begin(0, [0]), Begin(1, [0]), PushNext(0, first));
  }

  lemma SecondPush(w: World, r: Row, first: Outcome, second: Outcome)
    requires (first == GOT && second == LOST) || (first == LOST && second == GOT)
    requires w.rounds == map[0 := Batch([0], [r], [first]), 1 := Batch([0], [r], [])]
    requires w.sys == Receive(Sys([r], [], {}), r, first)
    ensures Allowed(w, PushNext(1, second)) && var t := Moved(w, PushNext(1, second));
      && t.sys == Sys([r], [EffectOf(r)], {r.id})
      && t.rounds == map[0 := Batch([0], [r], [first]), 1 := Batch([0], [r], [second])]
  {
    assert Moved(w, PushNext(1, second)).rounds[1] == Batch([0], [r], [second]);
  }

  /** The push that gets through is the first or the second. */
  lemma BothPush(ev: Event, first: Outcome, second: Outcome) returns (run: seq<Move>)
    requires (first == GOT && second == LOST) || (first == LOST && second == GOT)
    ensures Moves(World(Start, map[]), run, BothPushed(ev, first, second))
  {
    var before := Fails(ev, 4);
    var opening, w := FirstPush(ev, first);
    SecondPush(w, FailedTimes(ev, 4).sys.rows[0], first, second);
    var last := One(w, PushNext(1, second));
    var all := Then(World(Start, map[]), before, FailedTimes(ev, 4), opening, w);
    run := Then(World(Start, map[]), all, w, last, BothPushed(ev, first, second));
  }

  /** The commits of the two rounds, one after the other. */
  lemma BothCommit(ev: Event, first: Outcome, second: Outcome) returns (m: World, t: World)
    ensures var r := FailedTimes(ev, 4).sys.rows[0];
      && Moves(BothPushed(ev, first, second), [Commit(0)], m) && Moves(m, [Commit(1)], t)
      && m.sys == BothPushed(ev, first, second).sys.(rows := [Overwrite(r, r, first.push)])
      && t.sys == m.sys.(rows := [Overwrite(Overwrite(r, r, first.push), r, second.push)])
  {
    var w := BothPushed(ev, first, second);
    CommitOne(w.sys.rows, w.rounds[0]);
    var a := One(w, Commit(0));
    m := Moved(w, Commit(0));
    assert m.rounds == map[1 := w.rounds[1]];
    CommitOne(m.sys.rows, m.rounds[1]);
    var b := One(m, Commit(1));
    t := Moved(m, Commit(1));
  }

  /** A run in which one round delivers a row, and the commit of the other, whose push had
      failed, then marks it FAILED. */
  lemma LateFailureOverwritesDelivered(ev: Event) returns (run: seq<Move>, m: World, t: World)
    ensures Moves(World(Start, map[]), run, m) && |m.sys.rows| == 1
    ensures m.sys.rows[0].status == DELIVERED && m.sys.rows[0].id in m.sys.reached
    ensures Moves(m, [Commit(1)], t) && |t.sys.rows| == 1 && t.sys.rows[0].status == FAILED
  {
    var before := BothPush(ev, GOT, LOST);
    m, t := BothCommit(ev, GOT, LOST);
    run := Then(World(Start, map[]), before, BothPushed(ev, GOT, LOST), [Commit(0)], m);
  }

  /** A run in which one round marks a row FAILED, and the commit of the other, whose push
      had returned, then marks it DELIVERED. */
  lemma LateDeliveryRevivesFailed(ev: Event) returns (run: seq<Move>, m: World, t: World)
    ensures Moves(World(Start, map[]), run, m) && |m.sys.rows| == 1 && m.sys.rows[0].status == FAILED
    ensures Moves(m, [Commit(1)], t) && |t.sys.rows| == 1 && t.sys.rows[0].status == DELIVERED
    ensures t.sys.rows[0].attempts == MAX_ATTEMPTS
  {
    var before := BothPush(ev, LOST, GOT);
    m, t := BothCommit(ev, LOST, GOT);
    run := Then(World(Start, map[]), before, BothPushed(ev, LOST, GOT), [Commit(0)], m);
  }

  /** A round of process 1 that loaded the row untried; its push has failed. */
  function Stale(ev: Event): map<nat, Batch> {
    map[1 := Batch([0], FailedTimes(ev, 0).sys.rows, [LOST])]
  }

  lemma OpensStale(ev: Event) returns (run: seq<Move>)
    ensures Moves(FailedTimes(ev, 0), run, FailedBeside(ev, 0, Stale(ev))) && Commits(run) == 0
  {
    var w := FailedTimes(ev, 0);
    var r := w.sys.rows[0];
    BeginOne(w, r, 1);
    var w1 := Moved(w, Begin(1, [0]));
    var w2 := Moved(w1, PushNext(1, LOST));
    assert w2.rounds[1] == Batch([0], [r], [LOST]);
    var begun := One(w, Begin(1, [0]));
    var pushed := One(w1, PushNext(1, LOST));
    run := Then(w, begun, w1, pushed, w2);
  }

  lemma CommitsStale(ev: Event) returns (t: World)
    ensures Moves(FailedBeside(ev, 4, Stale(ev)), [Commit(1)], t) && Commits([Commit(1)]) == 1
    ensures t.sys.rows == FailedTimes(ev, 1).sys.rows
  {
    var m := FailedBeside(ev, 4, Stale(ev));
    CommitOne(m.sys.rows, Stale(ev)[1]);
    var last := One(m, Commit(1));
    t := Moved(m, Commit(1));
  }

  /** A run in which a stale round takes a row from four attempts back to one, so that one
      pending row outlives the five committed rounds that would settle it without overlap. */
  lemma StaleRoundLowersAttempts(ev: Event) returns (run: seq<Move>, m: World, t: World)
    ensures Moves(FailedTimes(ev, 0), run, m) && |m.sys.rows| == 1 && m.sys.rows[0].attempts == 4
    ensures Moves(m, [Commit(1)], t) && |t.sys.rows| == 1 && t.sys.rows[0].attempts == 1 && t.sys.rows[0].status == PENDING
    ensures Commits(run + [Commit(1)]) == |Selection(FailedTimes(ev, 0).sys.rows)| / 20 + 5
  {
    var open := OpensStale(ev);
    var fails := FailsMore(ev, 0, 4, Stale(ev));
    m := FailedBeside(ev, 4, Stale(ev));
    run := Then(FailedTimes(ev, 0), open, FailedBeside(ev, 0, Stale(ev)), fails, m);
    t := CommitsStale(ev);
    var all := Then(FailedTimes(ev, 0), run, m, [Commit(1)], t);
    assert Selection(FailedTimes(ev, 0).sys.rows) == {0};
  }
}
