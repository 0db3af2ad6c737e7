// How many rounds the outbox needs to settle every pending row.

module AuditOutboxProgress {
  import opened Common
  import opened AuditOutbox
  import opened AuditOutboxRuns

  /** The attempts a pending row has left. */
  function Left(r: Row): nat {
    if Selectable(r) then MAX_ATTEMPTS - r.attempts else 0
  }

  function Potential(rows: seq<Row>): nat {
    if rows == [] then 0 else Potential(rows[..|rows| - 1]) + Left(rows[|rows| - 1])
  }

  function Horizon(rows: seq<Row>): nat {
    if rows == [] then 0 else Max(Horizon(rows[..|rows| - 1]), Left(rows[|rows| - 1]))
  }

  /** An upper bound on the committed rounds still needed. */
  ghost function Rank(rows: seq<Row>): nat {
    if |Selection(rows)| >= BATCH then Potential(rows) / BATCH + MAX_ATTEMPTS else Horizon(rows)
  }

  lemma {:induction false} PotentialAfterUpdate(rows: seq<Row>, i: nat, r: Row)
    requires i < |rows|
    ensures Potential(rows[i := r]) == Potential(rows) - Left(rows[i]) + Left(r)
  {
    var n := |rows| - 1;
    if i < n {
      PotentialAfterUpdate(rows[..n], i, r);
      assert rows[i := r][..n] == rows[..n][i := r];
    } else {
      assert rows[i := r][..n] == rows[..n];
    }
  }

  /** Every push of a committed round uses up an attempt of its row. */
  lemma {:induction false} RoundUsesAttempts(rows: seq<Row>, picked: seq<nat>, outcomes: seq<Outcome>)
    requires |outcomes| == |picked| && InRange(picked, |rows|)
    requires forall i, j :: 0 <= i < j < |picked| ==> picked[i] != picked[j]
    requires forall j :: 0 <= j < |picked| ==> Selectable(rows[picked[j]])
    ensures Potential(Attempted(rows, picked, outcomes)) + |picked| <= Potential(rows)
    decreases |outcomes|
  {
    if outcomes != [] {
      var i := picked[0];
      var r := Attempt(rows[i], outcomes[0].push);
      RoundUsesAttempts(rows[i := r], picked[1..], outcomes[1..]);
      PotentialAfterUpdate(rows, i, r);
    }
  }

  lemma {:induction false} PotentialBound(rows: seq<Row>)
    ensures Potential(rows) <= MAX_ATTEMPTS * |Selection(rows)|
  {
    if rows != [] {
      var n := |rows| - 1;
      PotentialBound(rows[..n]);
      if Selectable(rows[n]) {
        assert Selection(rows) == Selection(rows[..n]) + {n};
      } else {
        assert Selection(rows) == Selection(rows[..n]);
      }
    }
  }

  lemma {:induction false} HorizonIsMax(rows: seq<Row>)
    ensures Horizon(rows) <= MAX_ATTEMPTS
    ensures forall i :: 0 <= i < |rows| ==> Left(rows[i]) <= Horizon(rows)
    ensures Horizon(rows) > 0 ==> exists i :: 0 <= i < |rows| && Left(rows[i]) == Horizon(rows)
  {
    if rows != [] {
      var n := |rows| - 1;
      HorizonIsMax(rows[..n]);
      if Horizon(rows) > 0 && Horizon(rows[..n]) == Horizon(rows) {
        var i :| 0 <= i < n && Left(rows[..n][i]) == Horizon(rows[..n]);
        assert Left(rows[i]) == Horizon(rows);
      }
    }
  }

  lemma SelectionShrinks(rows: seq<Row>, picked: seq<nat>, outcomes: seq<Outcome>)
    requires Picks(rows, picked) && |outcomes| == |picked|
    ensures Selection(Attempted(rows, picked, outcomes)) <= Selection(rows)
  {
    AttemptedRows(rows, picked, outcomes);
  }

  /** A round with room for all pending rows attempts all of them. */
  lemma SmallRoundsTakeAll(rows: seq<Row>, picked: seq<nat>)
    requires Picks(rows, picked) && |Selection(rows)| < BATCH
    ensures forall i :: i in Selection(rows) ==> i in picked
  {
    ElementsCount(picked);
    SubsetCount(Elements(picked), Selection(rows));
  }

  /** A round takes different rows that are PENDING with fewer than five attempts, at most a
      hundred of them, and all of them if it takes fewer. */
  lemma RoundTakesUpTo100(rows: seq<Row>, picked: seq<nat>)
    requires Picks(rows, picked)
    ensures |picked| <= 100 && forall i, j :: 0 <= i < j < |picked| ==> picked[i] != picked[j]
    ensures forall i :: i in picked ==> i < |rows| && rows[i].status == PENDING && rows[i].attempts < 5
    ensures |picked| < 100 ==> forall i :: 0 <= i < |rows| && rows[i].status == PENDING && rows[i].attempts < 5 ==> i in picked
  {
    if |picked| < 100 {
      SmallRoundsTakeAll(rows, picked);
      assert forall i :: 0 <= i < |rows| && rows[i].status == PENDING && rows[i].attempts < 5 ==> i in Selection(rows);
    }
  }

  lemma SmallRoundUsesAll(rows: seq<Row>, picked: seq<nat>, outcomes: seq<Outcome>, i: nat)
    requires Picks(rows, picked) && |outcomes| == |picked| && |Selection(rows)| < BATCH && i < |rows|
    ensures Left(Attempted(rows, picked, outcomes)[i]) <= Max(Left(rows[i]) - 1, 0)
  {
    AttemptedRows(rows, picked, outcomes);
    SmallRoundsTakeAll(rows, picked);
    if i in Selection(rows) {
      var j :| 0 <= j < |picked| && picked[j] == i;
    } else {
      assert i !in picked;
    }
  }

  lemma SmallRoundLowersHorizon(rows: seq<Row>, picked: seq<nat>, outcomes: seq<Outcome>)
    requires Picks(rows, picked) && |outcomes| == |picked| && |Selection(rows)| < BATCH
    ensures Horizon(Attempted(rows, picked, outcomes)) <= Max(Horizon(rows) - 1, 0)
  {
    var t := Attempted(rows, picked, outcomes);
    HorizonIsMax(rows);
    HorizonIsMax(t);
    if Horizon(t) > 0 {
      var i :| 0 <= i < |t| && Left(t[i]) == Horizon(t);
      SmallRoundUsesAll(rows, picked, outcomes, i);
    }
  }

  lemma RoundLowersRank(rows: seq<Row>, picked: seq<nat>, outcomes: seq<Outcome>)
    requires Picks(rows, picked) && |outcomes| == |picked|
    ensures Rank(Attempted(rows, picked, outcomes)) <= Max(Rank(rows) - 1, 0)
  {
    var t := Attempted(rows, picked, outcomes);
    SelectionShrinks(rows, picked, outcomes);
    SubsetCount(Selection(t), Selection(rows));
    if |Selection(rows)| < BATCH {
      SmallRoundLowersHorizon(rows, picked, outcomes);
    } else {
      RoundUsesAttempts(rows, picked, outcomes);
      HorizonIsMax(t);
    }
  }

  lemma RankZeroIsSettled(rows: seq<Row>)
    requires Rank(rows) == 0
    ensures forall i :: 0 <= i < |rows| ==> !Selectable(rows[i])
  {
    HorizonIsMax(rows);
  }

  function CommittedRounds(run: seq<Action>): nat {
    if run == [] then 0 else (if run[0].Round? then 1 else 0) + CommittedRounds(run[1..])
  }

  predicate NoEnqueue(run: seq<Action>) {
    forall i :: 0 <= i < |run| ==> !run[i].Enqueue?
  }

  lemma {:induction false} RankFalls(s: Sys, run: seq<Action>, t: Sys)
    requires Steps(s, run, t) && NoEnqueue(run)
    ensures Rank(t.rows) <= Max(Rank(s.rows) - CommittedRounds(run), 0)
    decreases |run|
  {
    if run != [] {
      if run[0].Round? {
        RoundLowersRank(s.rows, run[0].picked, run[0].outcomes);
      }
      assert NoEnqueue(run[1..]) by {
        assert forall i :: 0 <= i < |run| - 1 ==> run[1..][i] == run[i + 1];
      }
      RankFalls(Apply(s, run[0]), run[1..], t);
    }
  }

  /** Whatever rows the rounds pick and however the pushes end: once nothing is enqueued,
      N pending rows are all DELIVERED or FAILED after floor(N / 20) + 5 committed rounds,
      no matter how many rounds break down in between. */
  lemma SettlesInBoundedRounds(s: Sys, run: seq<Action>, t: Sys)
    requires RowsOk(s.rows) && Steps(s, run, t) && NoEnqueue(run)
    requires CommittedRounds(run) >= |Selection(s.rows)| / 20 + 5
    ensures forall i :: 0 <= i < |t.rows| ==> t.rows[i].status != PENDING
  {
    PotentialBound(s.rows);
    HorizonIsMax(s.rows);
    assert Rank(s.rows) <= |Selection(s.rows)| / 20 + 5;
    RankFalls(s, run, t);
    RankZeroIsSettled(t.rows);
    RowsStayOk(s, run, t);
  }
}
