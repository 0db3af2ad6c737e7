// Runs of the outbox in one manager process: events are enqueued, and rounds push a
// batch of rows and then commit, unless the process dies first. The receiver applies
// an event only if it has not seen its key before.

module AuditOutboxRuns {
  import opened Common
  import opened AuditOutbox
  import opened Models

  /** How one push ended: whether the receiver got the event, and what the caller saw.
      The two are independent, since a response can be lost and an error swallowed. */
  datatype Outcome = Outcome(reached: bool, push: Push)

  /** An event the receiver applied. */
  datatype Effect = Effect(row: RowId, message: Message)

  function EffectOf(r: Row): Effect {
    Effect(r.id, WireMessage(r))
  }

  /** `reached` are the rows some push of which got through. */
  datatype Sys = Sys(rows: seq<Row>, applied: seq<Effect>, reached: set<RowId>)

  datatype Action =
    | Enqueue(id: RowId, event: Event, key: Option<string>)
    // the rows picked by the SELECT, in the order they are pushed
    | Round(picked: seq<nat>, outcomes: seq<Outcome>)
    // the process dies, or the commit fails, after some of the pushes
    | BrokenRound(picked: seq<nat>, outcomes: seq<Outcome>)

  function Selection(rows: seq<Row>): set<nat> {
    set i: nat | i < |rows| && Selectable(rows[i])
  }

  /** LIMIT 100 without ORDER BY: any rows that match, but as many as there are. */
  ghost predicate Picks(rows: seq<Row>, picked: seq<nat>) {
    && (forall i, j :: 0 <= i < j < |picked| ==> picked[i] != picked[j])
    && (forall j :: 0 <= j < |picked| ==> picked[j] in Selection(rows))
    && |picked| == Min(BATCH, |Selection(rows)|)
  }

  predicate InRange(picked: seq<nat>, n: nat) {
    forall j :: 0 <= j < |picked| ==> picked[j] < n
  }

  /** Ids are new, and the keys that rows are given are UNIQUE. */
  ghost predicate NewIn(rows: seq<Row>, id: RowId, key: Option<string>) {
    forall r :: r in rows ==> r.id != id && (key.Some? ==> r.idempotencyKey != key)
  }

  ghost predicate Enabled(s: Sys, a: Action) {
    match a
    case Enqueue(id, _, key) => NewIn(s.rows, id, key)
    case Round(picked, outcomes) => Picks(s.rows, picked) && |outcomes| == |picked|
    case BrokenRound(picked, outcomes) => Picks(s.rows, picked) && |outcomes| <= |picked|
  }

  ghost predicate Knows(applied: seq<Effect>, key: string) {
    exists i :: 0 <= i < |applied| && applied[i].message.idempotencyKey == key
  }

  /** The receiver's side of one push of row r. */
  ghost function Receive(s: Sys, r: Row, o: Outcome): Sys {
    if !o.reached then s
    else if Knows(s.applied, WireKey(r)) then s.(reached := s.reached + {r.id})
    else s.(applied := s.applied + [EffectOf(r)], reached := s.reached + {r.id})
  }

  /** The pushes of a round, seen from the receiver. */
  ghost function Sent(s: Sys, picked: seq<nat>, outcomes: seq<Outcome>): Sys
    requires |outcomes| <= |picked| && InRange(picked, |s.rows|)
    ensures Sent(s, picked, outcomes).rows == s.rows
    decreases |outcomes|
  {
    if outcomes == [] then s
    else Sent(Receive(s, s.rows[picked[0]], outcomes[0]), picked[1..], outcomes[1..])
  }

  /** The pushes of a round, seen from the table. */
  function Attempted(rows: seq<Row>, picked: seq<nat>, outcomes: seq<Outcome>): (t: seq<Row>)
    requires |outcomes| == |picked| && InRange(picked, |rows|)
    ensures |t| == |rows|
    decreases |outcomes|
  {
    if outcomes == [] then rows
    else Attempted(rows[picked[0] := Attempt(rows[picked[0]], outcomes[0].push)], picked[1..], outcomes[1..])
  }

  ghost function Apply(s: Sys, a: Action): Sys
    requires Enabled(s, a)
  {
    match a
    case Enqueue(id, event, key) => s.(rows := s.rows + [NewRow(id, event, key)])
    case Round(picked, outcomes) => Sent(s, picked, outcomes).(rows := Attempted(s.rows, picked, outcomes))
    case BrokenRound(picked, outcomes) => Sent(s, picked, outcomes)
  }

  ghost predicate Steps(s: Sys, run: seq<Action>, t: Sys)
    decreases |run|
  {
    if run == [] then s == t
    else Enabled(s, run[0]) && Steps(Apply(s, run[0]), run[1..], t)
  }

  const Start := Sys([], [], {})

  // ----- The states of a row -----

  predicate RowOk(r: Row) {
    && (r.status == PENDING ==> r.attempts < MAX_ATTEMPTS)
    && (r.status == FAILED <==> r.attempts == MAX_ATTEMPTS)
    && r.attempts <= MAX_ATTEMPTS
  }

  /** A row keeps its id, its event and its key, and so what it sends. */
  predicate Keeps(r: Row, t: Row) {
    t.id == r.id && t.event == r.event && t.idempotencyKey == r.idempotencyKey && WireMessage(t) == WireMessage(r)
  }

  /** Moreover, once it left PENDING it never changes. */
  predicate Evolves(r: Row, t: Row) {
    && Keeps(r, t) && r.attempts <= t.attempts
    && (r.status != PENDING ==> t == r)
  }

  ghost predicate RowsOk(rows: seq<Row>) {
    forall i :: 0 <= i < |rows| ==> RowOk(rows[i])
  }

  ghost predicate AllEvolve(rows: seq<Row>, later: seq<Row>) {
    |rows| <= |later| && forall i :: 0 <= i < |rows| ==> Evolves(rows[i], later[i])
  }

  ghost predicate AllKept(rows: seq<Row>, later: seq<Row>) {
    |rows| <= |later| && forall i :: 0 <= i < |rows| ==> Keeps(rows[i], later[i])
  }

  /** A round attempts exactly the picked rows, each with its own outcome. */
  lemma {:induction false} AttemptedRows(rows: seq<Row>, picked: seq<nat>, outcomes: seq<Outcome>)
    requires |outcomes| == |picked| && InRange(picked, |rows|)
    requires forall i, j :: 0 <= i < j < |picked| ==> picked[i] != picked[j]
    ensures var t := Attempted(rows, picked, outcomes);
      && (forall i :: 0 <= i < |rows| && i !in picked ==> t[i] == rows[i])
      && (forall j :: 0 <= j < |picked| ==> t[picked[j]] == Attempt(rows[picked[j]], outcomes[j].push))
    decreases |outcomes|
  {
    if outcomes != [] {
      var i := picked[0];
      var next := rows[i := Attempt(rows[i], outcomes[0].push)];
      AttemptedRows(next, picked[1..], outcomes[1..]);
      var t := Attempted(rows, picked, outcomes);
      assert i !in picked[1..];
      assert picked == [i] + picked[1..];
      forall j | 0 <= j < |picked| ensures t[picked[j]] == Attempt(rows[picked[j]], outcomes[j].push) {
        if j > 0 {
          assert picked[1..][j - 1] == picked[j] && outcomes[1..][j - 1] == outcomes[j];
        }
      }
    }
  }

  lemma AttemptEvolves(r: Row, push: Push)
    requires RowOk(r) && Selectable(r)
    ensures RowOk(Attempt(r, push)) && Evolves(r, Attempt(r, push))
  {
  }

  lemma StepEvolves(s: Sys, a: Action)
    requires RowsOk(s.rows) && Enabled(s, a)
    ensures RowsOk(Apply(s, a).rows) && AllEvolve(s.rows, Apply(s, a).rows)
  {
    if a.Round? {
      AttemptedRows(s.rows, a.picked, a.outcomes);
      forall i | 0 <= i < |s.rows|
        ensures RowOk(Apply(s, a).rows[i]) && Evolves(s.rows[i], Apply(s, a).rows[i])
      {
        if i in a.picked {
          var j :| 0 <= j < |a.picked| && a.picked[j] == i;
          assert Selectable(s.rows[i]);
          AttemptEvolves(s.rows[i], a.outcomes[j].push);
        }
      }
    }
  }

  /** Along every run: a PENDING row can always be selected, FAILED means five failed
      attempts, DELIVERED and FAILED are final, and a row never changes its event or its key. */
  lemma {:induction false} RowsStayOk(s: Sys, run: seq<Action>, t: Sys)
    requires RowsOk(s.rows) && Steps(s, run, t)
    ensures RowsOk(t.rows) && AllEvolve(s.rows, t.rows)
    ensures forall i :: 0 <= i < |t.rows| && t.rows[i].status == PENDING ==> i in Selection(t.rows)
    decreases |run|
  {
    if run != [] {
      StepEvolves(s, run[0]);
      RowsStayOk(Apply(s, run[0]), run[1..], t);
    }
  }

  function CountDelivered(rows: seq<Row>): nat {
    if rows == [] then 0 else (if rows[0].status == DELIVERED then 1 else 0) + CountDelivered(rows[1..])
  }

  function Pushes(outcomes: seq<Outcome>): (p: seq<Push>)
    ensures |p| == |outcomes|
  {
    seq(|outcomes|, i requires 0 <= i < |outcomes| => outcomes[i].push)
  }

  lemma {:induction false} DeliveredAfterUpdate(rows: seq<Row>, i: nat, r: Row)
    requires i < |rows|
    ensures CountDelivered(rows[i := r]) == CountDelivered(rows)
      - (if rows[i].status == DELIVERED then 1 else 0) + (if r.status == DELIVERED then 1 else 0)
  {
    if i > 0 {
      DeliveredAfterUpdate(rows[1..], i - 1, r);
      assert rows[i := r][1..] == rows[1..][i - 1 := r];
    } else {
      assert rows[i := r][1..] == rows[1..];
    }
  }

  lemma {:induction false} CountReturnedHead(p: seq<Push>)
    requires p != []
    ensures CountReturned(p) == (if p[0] == Returned then 1 else 0) + CountReturned(p[1..])
  {
    if |p| > 1 {
      var n := |p| - 1;
      CountReturnedHead(p[..n]);
      assert p[..n][1..] == p[1..][..n - 1];
    } else {
      assert p[..0] == [] && p[1..] == [];
    }
  }

  /** The count a committed round returns is the number of rows that became DELIVERED. */
  lemma {:induction false} ReturnsNewlyDelivered(rows: seq<Row>, picked: seq<nat>, outcomes: seq<Outcome>)
    requires |outcomes| == |picked|
    requires forall i, j :: 0 <= i < j < |picked| ==> picked[i] != picked[j]
    requires InRange(picked, |rows|) && forall j :: 0 <= j < |picked| ==> Selectable(rows[picked[j]])
    ensures CountDelivered(Attempted(rows, picked, outcomes)) == CountDelivered(rows) + CountReturned(Pushes(outcomes))
    decreases |outcomes|
  {
    if outcomes != [] {
      var i := picked[0];
      var r := Attempt(rows[i], outcomes[0].push);
      ReturnsNewlyDelivered(rows[i := r], picked[1..], outcomes[1..]);
      DeliveredAfterUpdate(rows, i, r);
      CountReturnedHead(Pushes(outcomes));
      assert Pushes(outcomes)[1..] == Pushes(outcomes[1..]);
    }
  }

  // ----- Exactly-once effect -----

  ghost predicate DistinctIds(rows: seq<Row>) {
    forall i, j :: 0 <= i < j < |rows| ==> rows[i].id != rows[j].id
  }

  /** The receiver's record: one effect a key, each of a row with that key whose push got
      through, and no key that got through is missing. */
  ghost predicate ReceiverOk(s: Sys) {
    && DistinctIds(s.rows)
    && (forall i, j :: 0 <= i < j < |s.applied| ==> s.applied[i].message.idempotencyKey != s.applied[j].message.idempotencyKey)
    && (forall e :: e in s.applied ==> e.row in s.reached && MadeByOne(e, s.rows))
    && (forall i :: 0 <= i < |s.rows| && s.rows[i].id in s.reached ==> Knows(s.applied, WireKey(s.rows[i])))
    && (forall id :: id in s.reached ==> IsRow(id, s.rows))
  }

  predicate Made(e: Effect, r: Row) {
    e == EffectOf(r)
  }

  ghost predicate MadeByOne(e: Effect, rows: seq<Row>) {
    exists i :: 0 <= i < |rows| && Made(e, rows[i])
  }

  ghost predicate IsRow(id: RowId, rows: seq<Row>) {
    exists i :: 0 <= i < |rows| && rows[i].id == id
  }

  lemma KnowsMore(applied: seq<Effect>, e: Effect, key: string)
    ensures Knows(applied + [e], key) <==> Knows(applied, key) || key == e.message.idempotencyKey
  {
    if Knows(applied, key) {
      var i :| 0 <= i < |applied| && applied[i].message.idempotencyKey == key;
      assert (applied + [e])[i] == applied[i];
    }
    assert (applied + [e])[|applied|] == e;
  }

  lemma ReceiveKeeps(s: Sys, i: nat, o: Outcome)
    requires ReceiverOk(s) && i < |s.rows|
    ensures ReceiverOk(Receive(s, s.rows[i], o))
  {
    var r, t := s.rows[i], Receive(s, s.rows[i], o);
    assert IsRow(r.id, s.rows);
    if o.reached && !Knows(s.applied, WireKey(r)) {
      var e := EffectOf(r);
      assert Made(e, r) && MadeByOne(e, s.rows);
      forall j | 0 <= j < |s.rows| && s.rows[j].id in t.reached ensures Knows(t.applied, WireKey(s.rows[j])) {
        KnowsMore(s.applied, e, WireKey(s.rows[j]));
        assert j != i ==> s.rows[j].id != r.id;
      }
    }
  }

  lemma {:induction false} SentKeeps(s: Sys, picked: seq<nat>, outcomes: seq<Outcome>)
    requires ReceiverOk(s) && |outcomes| <= |picked| && InRange(picked, |s.rows|)
    ensures ReceiverOk(Sent(s, picked, outcomes))
    decreases |outcomes|
  {
    if outcomes != [] {
      ReceiveKeeps(s, picked[0], outcomes[0]);
      SentKeeps(Receive(s, s.rows[picked[0]], outcomes[0]), picked[1..], outcomes[1..]);
    }
  }

  /** Rows that keep ids and keys, and new rows, leave the receiver's record intact. */
  lemma EvolutionKeepsReceiver(s: Sys, rows: seq<Row>)
    requires ReceiverOk(s) && AllKept(s.rows, rows) && DistinctIds(rows)
    ensures ReceiverOk(s.(rows := rows))
  {
    forall e | e in s.applied ensures MadeByOne(e, rows) {
      var i :| 0 <= i < |s.rows| && Made(e, s.rows[i]);
      assert Made(e, rows[i]);
    }
    forall i | 0 <= i < |rows| && rows[i].id in s.reached ensures Knows(s.applied, WireKey(rows[i])) {
      var j :| 0 <= j < |s.rows| && s.rows[j].id == rows[i].id;
      assert Keeps(s.rows[j], rows[j]);
    }
    forall id | id in s.reached ensures IsRow(id, rows) {
      var i :| 0 <= i < |s.rows| && s.rows[i].id == id;
      assert Keeps(s.rows[i], rows[i]);
    }
  }

  lemma StepKeepsIdsDistinct(s: Sys, a: Action)
    requires RowsOk(s.rows) && DistinctIds(s.rows) && Enabled(s, a)
    ensures DistinctIds(Apply(s, a).rows)
  {
    StepEvolves(s, a);
    var rows := Apply(s, a).rows;
    forall i, j | 0 <= i < j < |rows| ensures rows[i].id != rows[j].id {
      assert i < |s.rows| ==> Evolves(s.rows[i], rows[i]) && s.rows[i] in s.rows;
      assert j < |s.rows| ==> Evolves(s.rows[j], rows[j]);
    }
  }

  lemma StepKeepsReceiver(s: Sys, a: Action)
    requires RowsOk(s.rows) && ReceiverOk(s) && Enabled(s, a)
    ensures ReceiverOk(Apply(s, a))
  {
    StepEvolves(s, a);
    var rows := Apply(s, a).rows;
    StepKeepsIdsDistinct(s, a);
    if a.Enqueue? {
      EvolutionKeepsReceiver(s, rows);
    } else {
      SentKeeps(s, a.picked, a.outcomes);
      EvolutionKeepsReceiver(Sent(s, a.picked, a.outcomes), rows);
    }
  }

  lemma {:induction false} RunKeepsReceiver(s: Sys, run: seq<Action>, t: Sys)
    requires RowsOk(s.rows) && ReceiverOk(s) && Steps(s, run, t)
    ensures ReceiverOk(t)
    decreases |run|
  {
    if run != [] {
      StepEvolves(s, run[0]);
      StepKeepsReceiver(s, run[0]);
      RunKeepsReceiver(Apply(s, run[0]), run[1..], t);
    }
  }

  /** How often the receiver applied the event of a row. */
  function Times(applied: seq<Effect>, id: RowId): nat {
    if applied == [] then 0 else (if applied[0].row == id then 1 else 0) + Times(applied[1..], id)
  }

  lemma {:induction false} TimesAtMostOnce(applied: seq<Effect>, e: Effect)
    requires forall i, j :: 0 <= i < j < |applied| ==> applied[i].message.idempotencyKey != applied[j].message.idempotencyKey
    requires forall i :: 0 <= i < |applied| && applied[i].row == e.row ==> applied[i] == e
    ensures Times(applied, e.row) == if e in applied then 1 else 0
  {
    if applied != [] {
      assert forall i :: 0 <= i < |applied| - 1 ==> applied[1..][i] == applied[i + 1];
      TimesAtMostOnce(applied[1..], e);
      assert applied == [applied[0]] + applied[1..];
    }
  }

  /** At most once for every row; and once if and only if no other row took its key first. */
  lemma RowTimes(s: Sys, i: nat)
    requires ReceiverOk(s) && i < |s.rows|
    ensures Times(s.applied, s.rows[i].id) == if EffectOf(s.rows[i]) in s.applied then 1 else 0
  {
    forall a | 0 <= a < |s.applied| && s.applied[a].row == s.rows[i].id ensures s.applied[a] == EffectOf(s.rows[i]) {
      assert s.applied[a] in s.applied;
      var j :| 0 <= j < |s.rows| && Made(s.applied[a], s.rows[j]);
      assert i == j;
    }
    TimesAtMostOnce(s.applied, EffectOf(s.rows[i]));
  }

  ghost predicate KeysApart(s: Sys) {
    forall i, j :: 0 <= i < j < |s.rows| && s.rows[i].id in s.reached && s.rows[j].id in s.reached ==>
      WireKey(s.rows[i]) != WireKey(s.rows[j])
  }

  /** The event of every row is applied once if one of its pushes got through, else never. */
  ghost predicate ExactlyOnce(s: Sys) {
    forall i :: 0 <= i < |s.rows| ==> Times(s.applied, s.rows[i].id) == if s.rows[i].id in s.reached then 1 else 0
  }

  /** What the receiver applied of each row is at most one event, the one enqueued. */
  ghost predicate AtMostOnce(s: Sys) {
    && (forall i :: 0 <= i < |s.rows| ==> Times(s.applied, s.rows[i].id) <= 1)
    && forall e :: e in s.applied ==> MadeByOne(e, s.rows)
  }

  lemma ReceiverExactlyOnceIff(s: Sys)
    requires ReceiverOk(s)
    ensures AtMostOnce(s) && (ExactlyOnce(s) <==> KeysApart(s))
  {
    forall i | 0 <= i < |s.rows| ensures Times(s.applied, s.rows[i].id) <= 1 {
      RowTimes(s, i);
    }
    if KeysApart(s) {
      forall i | 0 <= i < |s.rows| ensures Times(s.applied, s.rows[i].id) == if s.rows[i].id in s.reached then 1 else 0 {
        RowTimes(s, i);
        if s.rows[i].id in s.reached {
          AppliedUnderOwnKey(s, i);
        }
      }
    }
    if ExactlyOnce(s) {
      forall i, j | 0 <= i < j < |s.rows| && s.rows[i].id in s.reached && s.rows[j].id in s.reached
        ensures WireKey(s.rows[i]) != WireKey(s.rows[j])
      {
        AppliedTwiceApart(s, i, j);
      }
    }
  }

  /** Over any run with crashes and lost responses an event is applied at most once, as it
      was enqueued, and every event that got through has exactly one effect if and only if
      no two of them were sent under one key. */
  lemma ExactlyOnceIffKeysApart(run: seq<Action>, s: Sys)
    requires Steps(Start, run, s)
    ensures AtMostOnce(s) && (ExactlyOnce(s) <==> KeysApart(s))
  {
    RunKeepsReceiver(Start, run, s);
    ReceiverExactlyOnceIff(s);
  }

  lemma AppliedTwiceApart(s: Sys, i: nat, j: nat)
    requires ReceiverOk(s) && i < j < |s.rows|
    requires Times(s.applied, s.rows[i].id) == 1 == Times(s.applied, s.rows[j].id)
    ensures WireKey(s.rows[i]) != WireKey(s.rows[j])
  {
    RowTimes(s, i);
    RowTimes(s, j);
    var a :| 0 <= a < |s.applied| && s.applied[a] == EffectOf(s.rows[i]);
    var b :| 0 <= b < |s.applied| && s.applied[b] == EffectOf(s.rows[j]);
    assert a != b;
  }

  lemma AppliedUnderOwnKey(s: Sys, i: nat)
    requires ReceiverOk(s) && KeysApart(s) && i < |s.rows| && s.rows[i].id in s.reached
    ensures EffectOf(s.rows[i]) in s.applied
  {
    var a :| 0 <= a < |s.applied| && s.applied[a].message.idempotencyKey == WireKey(s.rows[i]);
    assert s.applied[a] in s.applied;
    var j :| 0 <= j < |s.rows| && Made(s.applied[a], s.rows[j]);
    assert i == j;
  }

  // ----- Where the effects come from -----

  /** Some step of the run enqueued the row. */
  predicate EnqueuedIn(run: seq<Action>, r: Row) {
    exists k :: 0 <= k < |run| && run[k] == Enqueue(r.id, r.event, r.idempotencyKey)
  }

  lemma {:induction false} RowsWereEnqueued(s: Sys, run: seq<Action>, t: Sys, i: nat)
    requires RowsOk(s.rows) && Steps(s, run, t) && i < |t.rows|
    ensures (i < |s.rows| && Keeps(s.rows[i], t.rows[i])) || EnqueuedIn(run, t.rows[i])
    decreases |run|
  {
    if run != [] {
      var m := Apply(s, run[0]);
      StepEvolves(s, run[0]);
      RowsWereEnqueued(m, run[1..], t, i);
      if i < |m.rows| && Keeps(m.rows[i], t.rows[i]) {
        if i >= |s.rows| {
          assert run[0] == Enqueue(t.rows[i].id, t.rows[i].event, t.rows[i].idempotencyKey);
        }
      } else {
        var k :| 0 <= k < |run| - 1 && run[1..][k] == Enqueue(t.rows[i].id, t.rows[i].event, t.rows[i].idempotencyKey);
        assert run[k + 1] == run[1..][k];
      }
    }
  }

  /** Everything the receiver applied was enqueued: the effect carries the user, the action,
      the resource, the address and the detail given to that Enqueue, under the key given to
      it or else the id of the row. */
  lemma EffectsWereEnqueued(run: seq<Action>, s: Sys, e: Effect)
    requires Steps(Start, run, s) && e in s.applied
    ensures exists k, event, key ::
      && 0 <= k < |run| && run[k] == Enqueue(e.row, event, key)
      && e.message == Message("hm-prod", Event(event.userId, event.action, event.resourceType, event.resourceId,
           Some(if event.detail.Some? then event.detail.value else map[]), event.ipAddress),
           if key.Some? && key.value != "" then key.value else e.row)
  {
    RunKeepsReceiver(Start, run, s);
    var i :| 0 <= i < |s.rows| && Made(e, s.rows[i]);
    var r := s.rows[i];
    RowsWereEnqueued(Start, run, s, i);
    var k :| 0 <= k < |run| && run[k] == Enqueue(r.id, r.event, r.idempotencyKey);
    MessageTellsTheEvent(r);
    assert run[k] == Enqueue(e.row, r.event, r.idempotencyKey);
  }

  /** Every event was enqueued the way record_audit does, without a key of its own. */
  predicate OnlyRecorded(run: seq<Action>) {
    forall i :: 0 <= i < |run| && run[i].Enqueue? ==> run[i].key == None
  }

  lemma {:induction false} RecordedRowsHaveNoKey(s: Sys, run: seq<Action>, t: Sys)
    requires RowsOk(s.rows) && Steps(s, run, t) && OnlyRecorded(run)
    requires forall r :: r in s.rows ==> r.idempotencyKey == None
    ensures forall r :: r in t.rows ==> r.idempotencyKey == None
    decreases |run|
  {
    if run != [] {
      StepEvolves(s, run[0]);
      var m := Apply(s, run[0]);
      forall i | 0 <= i < |m.rows| ensures m.rows[i].idempotencyKey == None {
        assert i < |s.rows| ==> s.rows[i] in s.rows && Evolves(s.rows[i], m.rows[i]);
      }
      assert OnlyRecorded(run[1..]) by {
        assert forall i :: 0 <= i < |run| - 1 ==> run[1..][i] == run[i + 1];
      }
      RecordedRowsHaveNoKey(m, run[1..], t);
    }
  }

  /** The events the manager records reach the platform's log exactly once each, if at all. */
  lemma RecordedEventsExactlyOnce(run: seq<Action>, s: Sys)
    requires Steps(Start, run, s) && OnlyRecorded(run)
    ensures ExactlyOnce(s)
  {
    RunKeepsReceiver(Start, run, s);
    RecordedRowsHaveNoKey(Start, run, s);
    assert forall i :: 0 <= i < |s.rows| ==> s.rows[i] in s.rows && WireKey(s.rows[i]) == s.rows[i].id;
    ExactlyOnceIffKeysApart(run, s);
  }

  // ----- What DELIVERED means -----

  /** The events of all DELIVERED rows got through. */
  ghost predicate DeliveredReached(s: Sys) {
    forall i :: 0 <= i < |s.rows| && s.rows[i].status == DELIVERED ==> s.rows[i].id in s.reached
  }

  lemma {:induction false} SentReached(s: Sys, picked: seq<nat>, outcomes: seq<Outcome>, id: RowId)
    requires |outcomes| <= |picked| && InRange(picked, |s.rows|)
    ensures id in Sent(s, picked, outcomes).reached <==>
      id in s.reached || exists j :: 0 <= j < |outcomes| && outcomes[j].reached && s.rows[picked[j]].id == id
    decreases |outcomes|
  {
    if outcomes != [] {
      SentReached(Receive(s, s.rows[picked[0]], outcomes[0]), picked[1..], outcomes[1..], id);
      if j :| 0 <= j < |outcomes| && outcomes[j].reached && s.rows[picked[j]].id == id {
        assert j > 0 ==> outcomes[1..][j - 1] == outcomes[j] && picked[1..][j - 1] == picked[j];
      }
    }
  }

  lemma RowReachedIff(s: Sys, picked: seq<nat>, outcomes: seq<Outcome>, j: nat)
    requires DistinctIds(s.rows) && InRange(picked, |s.rows|) && |outcomes| == |picked| && j < |picked|
    requires forall i, k :: 0 <= i < k < |picked| ==> picked[i] != picked[k]
    ensures s.rows[picked[j]].id in Sent(s, picked, outcomes).reached <==> outcomes[j].reached || s.rows[picked[j]].id in s.reached
  {
    SentReached(s, picked, outcomes, s.rows[picked[j]].id);
  }

  /** Each push of a committed round that returned got through, or an earlier one of its row had. */
  ghost predicate RoundReaches(s: Sys, a: Action)
    requires Enabled(s, a)
  {
    a.Round? ==> forall j :: 0 <= j < |a.picked| && a.outcomes[j].push == Returned ==>
      a.outcomes[j].reached || s.rows[a.picked[j]].id in s.reached
  }

  ghost predicate EveryRoundReaches(s: Sys, run: seq<Action>, t: Sys)
    requires Steps(s, run, t)
    decreases |run|
  {
    run != [] ==> RoundReaches(s, run[0]) && EveryRoundReaches(Apply(s, run[0]), run[1..], t)
  }

  lemma RoundDeliversReachedIff(s: Sys, a: Action)
    requires DistinctIds(s.rows) && DeliveredReached(s) && Enabled(s, a) && a.Round?
    ensures DeliveredReached(Apply(s, a)) <==> RoundReaches(s, a)
  {
    var t := Apply(s, a);
    AttemptedRows(s.rows, a.picked, a.outcomes);
    forall i | 0 <= i < |s.rows| && i !in a.picked && t.rows[i].status == DELIVERED ensures t.rows[i].id in t.reached {
      SentReached(s, a.picked, a.outcomes, s.rows[i].id);
    }
    forall j | 0 <= j < |a.picked|
      ensures t.rows[a.picked[j]].status == DELIVERED <==> a.outcomes[j].push == Returned
      ensures t.rows[a.picked[j]].id == s.rows[a.picked[j]].id
      ensures t.rows[a.picked[j]].id in t.reached <==> a.outcomes[j].reached || s.rows[a.picked[j]].id in s.reached
    {
      RowReachedIff(s, a.picked, a.outcomes, j);
    }
  }

  lemma OtherStepsKeepReached(s: Sys, a: Action)
    requires DeliveredReached(s) && Enabled(s, a) && !a.Round?
    ensures DeliveredReached(Apply(s, a))
  {
    if a.BrokenRound? {
      forall i | 0 <= i < |s.rows| && s.rows[i].status == DELIVERED ensures s.rows[i].id in Apply(s, a).reached {
        SentReached(s, a.picked, a.outcomes, s.rows[i].id);
      }
    }
  }

  /** Row i counts as delivered and its event never got through. */
  predicate LostRow(s: Sys, i: nat) {
    i < |s.rows| && s.rows[i].status == DELIVERED && s.rows[i].id !in s.reached
  }

  lemma StepKeepsLost(s: Sys, a: Action, i: nat)
    requires DistinctIds(s.rows) && Enabled(s, a) && LostRow(s, i)
    ensures LostRow(Apply(s, a), i)
  {
    if !a.Enqueue? {
      SentReached(s, a.picked, a.outcomes, s.rows[i].id);
      forall j | 0 <= j < |a.outcomes| ensures s.rows[a.picked[j]].id != s.rows[i].id {
        assert Selectable(s.rows[a.picked[j]]);
      }
      if a.Round? {
        AttemptedRows(s.rows, a.picked, a.outcomes);
      }
    }
  }

  /** Such a row is never sent again: its event stays lost. */
  lemma {:induction false} LostForGood(s: Sys, run: seq<Action>, t: Sys, i: nat)
    requires RowsOk(s.rows) && DistinctIds(s.rows) && Steps(s, run, t) && LostRow(s, i)
    ensures LostRow(t, i)
    decreases |run|
  {
    if run != [] {
      StepEvolves(s, run[0]);
      StepKeepsIdsDistinct(s, run[0]);
      StepKeepsLost(s, run[0], i);
      LostForGood(Apply(s, run[0]), run[1..], t, i);
    }
  }

  /** After a run every DELIVERED row got through if and only if every committed round of it
      reaches: a round that does not leaves a row that is lost for good. */
  lemma {:induction false} DeliveredReachedIff(s: Sys, run: seq<Action>, t: Sys)
    requires RowsOk(s.rows) && DistinctIds(s.rows) && DeliveredReached(s) && Steps(s, run, t)
    ensures DeliveredReached(t) <==> EveryRoundReaches(s, run, t)
    decreases |run|
  {
    if run != [] {
      var m := Apply(s, run[0]);
      StepEvolves(s, run[0]);
      StepKeepsIdsDistinct(s, run[0]);
      if run[0].Round? {
        RoundDeliversReachedIff(s, run[0]);
      } else {
        OtherStepsKeepReached(s, run[0]);
      }
      if DeliveredReached(m) {
        DeliveredReachedIff(m, run[1..], t);
      } else {
        var i :| 0 <= i < |m.rows| && m.rows[i].status == DELIVERED && m.rows[i].id !in m.reached;
        LostForGood(m, run[1..], t, i);
      }
    }
  }

  // ----- The shipped client -----

  /** The push is one of the shipped client. */
  ghost predicate Shipped(o: Outcome) {
    exists r: HttpResult :: o.push == PushAudit(r)
  }

  ghost predicate ByShippedClient(run: seq<Action>) {
    forall k, j :: 0 <= k < |run| && run[k].Round? && 0 <= j < |run[k].outcomes| ==> Shipped(run[k].outcomes[j])
  }

  /** Some committed round of the run pushed row i. */
  ghost predicate PushedIn(run: seq<Action>, i: nat)
    decreases |run|
  {
    run != [] && ((run[0].Round? && i in run[0].picked) || PushedIn(run[1..], i))
  }

  /** A row no attempt of which failed. */
  predicate Unfailed(r: Row) {
    r.attempts == 0 && r.lastError == None && r.status != FAILED
  }

  lemma ShippedStep(s: Sys, a: Action, i: nat)
    requires Enabled(s, a) && i < |Apply(s, a).rows|
    requires a.Round? ==> forall j :: 0 <= j < |a.outcomes| ==> Shipped(a.outcomes[j])
    requires forall r :: r in s.rows ==> Unfailed(r)
    ensures Unfailed(Apply(s, a).rows[i])
    ensures Apply(s, a).rows[i].status == DELIVERED <==>
      (i < |s.rows| && s.rows[i].status == DELIVERED) || (a.Round? && i in a.picked)
  {
    if a.Round? {
      AttemptedRows(s.rows, a.picked, a.outcomes);
      assert s.rows[i] in s.rows;
      if i in a.picked {
        var j :| 0 <= j < |a.picked| && a.picked[j] == i;
        assert Shipped(a.outcomes[j]);
      }
    } else if i < |s.rows| {
      assert s.rows[i] in s.rows;
    }
  }

  /** With the shipped client, which never raises, the retry count never matters: over every
      run no attempt is counted, no row is FAILED, and a row is DELIVERED if and only if a
      committed round pushed it, got through or not. */
  lemma {:induction false} ShippedClientNeverRetries(s: Sys, run: seq<Action>, t: Sys, i: nat)
    requires Steps(s, run, t) && ByShippedClient(run) && i < |t.rows|
    requires forall r :: r in s.rows ==> Unfailed(r)
    ensures Unfailed(t.rows[i])
    ensures t.rows[i].status == DELIVERED <==> (i < |s.rows| && s.rows[i].status == DELIVERED) || PushedIn(run, i)
    decreases |run|
  {
    if run == [] {
      assert t.rows[i] in t.rows;
    } else {
      var m := Apply(s, run[0]);
      forall r | r in m.rows ensures Unfailed(r) {
        var k :| 0 <= k < |m.rows| && m.rows[k] == r;
        ShippedStep(s, run[0], k);
      }
      assert ByShippedClient(run[1..]) by {
        assert forall k :: 0 <= k < |run| - 1 ==> run[1..][k] == run[k + 1];
      }
      if i < |m.rows| {
        ShippedStep(s, run[0], i);
      } else {
        AllRowsStay(s, run[0]);
      }
      ShippedClientNeverRetries(m, run[1..], t, i);
    }
  }

  lemma AllRowsStay(s: Sys, a: Action)
    requires Enabled(s, a)
    ensures |s.rows| <= |Apply(s, a).rows|
    ensures a.Round? ==> InRange(a.picked, |s.rows|)
  {
  }

  /** The shipped client swallows its failures, and then DELIVERED says nothing. */
  lemma SwallowedFailureLooksDelivered(ev: Event)
    ensures exists s ::
      && Steps(Start, [Enqueue("a", ev, None), Round([0], [Outcome(false, Returned)])], s)
      && |s.rows| == 1 && s.rows[0].status == DELIVERED && s.applied == [] && s.reached == {}
  {
    var round := Round([0], [Outcome(false, Returned)]);
    var s1 := Apply(Start, Enqueue("a", ev, None));
    assert s1.rows == [NewRow("a", ev, None)] && Selection(s1.rows) == {0};
    var s := Apply(s1, round);
    assert Attempted(s1.rows, [0], [Outcome(false, Returned)]) == [Attempt(s1.rows[0], Returned)];
    assert [Enqueue("a", ev, None), round][1..] == [round] && [round][1..] == [];
    assert Steps(s, [], s);
    assert Steps(s1, [round], s);
  }

  /** A caller-supplied key that equals another row's id hides one of the two events. */
  lemma BorrowedKeyHidesAnEvent(ev: Event)
    ensures var got := Outcome(true, Returned);
      exists s :: Steps(Start, [Enqueue("a", ev, Some("b")), Enqueue("b", ev, None), Round([0, 1], [got, got])], s)
        && s.reached == {"a", "b"} && Times(s.applied, "a") == 1 && Times(s.applied, "b") == 0
  {
    var got := Outcome(true, Returned);
    var run := [Enqueue("a", ev, Some("b")), Enqueue("b", ev, None), Round([0, 1], [got, got])];
    var s1 := Apply(Start, run[0]);
    var s2 := Apply(s1, run[1]);
    assert s2.rows == [NewRow("a", ev, Some("b")), NewRow("b", ev, None)];
    assert Selection(s2.rows) == {0, 1};
    var s := Apply(s2, run[2]);
    BorrowedRound(s2, ev);
    ThreeSteps(Start, run[0], run[1], run[2]);
  }

  lemma ThreeSteps(s: Sys, a: Action, b: Action, c: Action)
    requires Enabled(s, a) && Enabled(Apply(s, a), b) && Enabled(Apply(Apply(s, a), b), c)
    ensures Steps(s, [a, b, c], Apply(Apply(Apply(s, a), b), c))
  {
    var t := Apply(Apply(Apply(s, a), b), c);
    assert [a, b, c][1..] == [b, c] && [b, c][1..] == [c] && [c][1..] == [];
    assert Steps(t, [], t);
    assert Steps(Apply(Apply(s, a), b), [c], t);
    assert Steps(Apply(s, a), [b, c], t);
  }

  lemma BorrowedRound(s: Sys, ev: Event)
    requires s == Sys([NewRow("a", ev, Some("b")), NewRow("b", ev, None)], [], {})
    ensures var got := Outcome(true, Returned);
      var t := Sent(s, [0, 1], [got, got]);
      t.reached == {"a", "b"} && Times(t.applied, "a") == 1 && Times(t.applied, "b") == 0
  {
    var got := Outcome(true, Returned);
    var s1 := Receive(s, s.rows[0], got);
    assert !Knows(s.applied, "b");
    assert s1.applied == [EffectOf(s.rows[0])] && s1.applied[0].message.idempotencyKey == "b";
    assert Knows(s1.applied, "b");
    var s2 := Receive(s1, s.rows[1], got);
    assert [0, 1][1..] == [1] && [got, got][1..] == [got] && [1][1..] == [] && [got][1..] == [];
    assert Sent(s1, [1], [got]) == Sent(s2, [], []) == s2;
    assert Sent(s, [0, 1], [got, got]) == s2;
    assert s2.applied[1..] == [];
  }
}
