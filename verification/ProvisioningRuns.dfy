// Lazy provisioning of tenant schemas by interleaved calls of authenticate in one
// process. Two calls may migrate the same schema at once; a migration may fail.

module ProvisioningRuns {
  import opened Common
  import opened TenantExtension

  /** `completed` are the schemas some migration of this process has finished. */
  datatype Sys = Sys(initialized: set<Schema>, calls: seq<Phase>, completed: set<Schema>)

  datatype Action =
    | Arrive
    | Resume(c: nat, row: Option<Schema>)
    | MigrationEnds(c: nat)
    | MigrationFails(c: nat)
    | Continue(c: nat)

  predicate Enabled(s: Sys, a: Action) {
    match a
    case Arrive => true
    case Resume(c, _) => c < |s.calls| && s.calls[c].Looking?
    case MigrationEnds(c) => c < |s.calls| && s.calls[c].Migrating?
    case MigrationFails(c) => c < |s.calls| && s.calls[c].Migrating?
    case Continue(c) => c < |s.calls| && s.calls[c].Migrated?
  }

  function Apply(s: Sys, a: Action): Sys
    requires Enabled(s, a)
  {
    match a
    case Arrive => s.(calls := s.calls + [Looking])
    case Resume(c, row) => s.(calls := s.calls[c := AfterLookup(row, s.initialized)])
    case MigrationEnds(c) =>
      var schema := s.calls[c].schema;
      s.(calls := s.calls[c := Migrated(schema)], completed := s.completed + {schema})
    case MigrationFails(c) => s.(calls := s.calls[c := Failed])
    case Continue(c) =>
      var schema := s.calls[c].schema;
      s.(calls := s.calls[c := Served(schema)], initialized := s.initialized + {schema})
  }

  ghost predicate Steps(s: Sys, run: seq<Action>, t: Sys)
    decreases |run|
  {
    if run == [] then s == t
    else Enabled(s, run[0]) && Steps(Apply(s, run[0]), run[1..], t)
  }

  const Start := Sys({}, [], {})

  ghost predicate Inv(s: Sys) {
    && s.initialized <= s.completed
    && forall c :: 0 <= c < |s.calls| && (s.calls[c].Served? || s.calls[c].Migrated?) ==> s.calls[c].schema in s.completed
  }

  /** What a later state keeps: provisioned schemas stay so, and the only calls that
      migrate one are those already doing it. */
  ghost predicate Settles(s: Sys, t: Sys) {
    && s.initialized <= t.initialized && |s.calls| <= |t.calls|
    && forall c :: 0 <= c < |t.calls| && t.calls[c].Migrating? && t.calls[c].schema in s.initialized ==>
         c < |s.calls| && s.calls[c] == t.calls[c]
  }

  lemma {:induction false} StepsKeep(s: Sys, run: seq<Action>, t: Sys)
    requires Steps(s, run, t)
    ensures Inv(s) ==> Inv(t)
    ensures Settles(s, t)
    decreases |run|
  {
    if run != [] {
      var m := Apply(s, run[0]);
      assert Inv(s) ==> Inv(m);
      assert Settles(s, m);
      StepsKeep(m, run[1..], t);
    }
  }

  /** No context of a schema is handed out before a migration of it has completed. */
  lemma ProvisionedBeforeUse(run: seq<Action>, t: Sys, c: nat)
    requires Steps(Start, run, t) && c < |t.calls| && t.calls[c].Served?
    ensures t.calls[c].schema in t.completed
  {
    StepsKeep(Start, run, t);
  }

  // ----- What the phase of a call tells -----

  /** The call was resumed with this row. */
  predicate ResumedWith(run: seq<Action>, c: nat, row: Option<Schema>) {
    exists i :: 0 <= i < |run| && run[i] == Resume(c, row)
  }

  predicate MigrationFailed(run: seq<Action>, c: nat) {
    exists i :: 0 <= i < |run| && run[i] == MigrationFails(c)
  }

  /** Call c, told from the steps before. */
  ghost predicate Told(run: seq<Action>, s: Sys, c: nat)
    requires c < |s.calls|
  {
    match s.calls[c]
    case Looking => forall row :: !ResumedWith(run, c, row)
    case Refused => ResumedWith(run, c, None)
    case Migrating(schema) => ResumedWith(run, c, Some(schema))
    case Migrated(schema) => ResumedWith(run, c, Some(schema))
    case Served(schema) => ResumedWith(run, c, Some(schema))
    case Failed => MigrationFailed(run, c) && exists schema :: ResumedWith(run, c, Some(schema))
  }

  /** Nothing is told of calls that have not arrived, and each is resumed at most once. */
  ghost predicate AllTold(run: seq<Action>, s: Sys) {
    && (forall c :: 0 <= c < |s.calls| ==> Told(run, s, c))
    && (forall c: nat, row :: c >= |s.calls| ==> !ResumedWith(run, c, row))
    && (forall c, row, other :: ResumedWith(run, c, row) && ResumedWith(run, c, other) ==> row == other)
  }

  lemma ResumedSnoc(run: seq<Action>, a: Action, c: nat, row: Option<Schema>)
    ensures ResumedWith(run + [a], c, row) <==> ResumedWith(run, c, row) || a == Resume(c, row)
    ensures MigrationFailed(run + [a], c) <==> MigrationFailed(run, c) || a == MigrationFails(c)
  {
    assert (run + [a])[|run|] == a;
    assert forall i :: 0 <= i < |run| ==> (run + [a])[i] == run[i];
    if ResumedWith(run, c, row) {
      var i :| 0 <= i < |run| && run[i] == Resume(c, row);
      assert (run + [a])[i] == Resume(c, row);
    }
    if MigrationFailed(run, c) {
      var i :| 0 <= i < |run| && run[i] == MigrationFails(c);
      assert (run + [a])[i] == MigrationFails(c);
    }
  }

  lemma StepTells(run: seq<Action>, s: Sys, a: Action)
    requires AllTold(run, s) && Enabled(s, a)
    ensures AllTold(run + [a], Apply(s, a))
  {
    var t := Apply(s, a);
    forall c: nat, row ensures ResumedWith(run + [a], c, row) <==> ResumedWith(run, c, row) || a == Resume(c, row) {
      ResumedSnoc(run, a, c, row);
    }
    forall c: nat ensures MigrationFailed(run + [a], c) <==> MigrationFailed(run, c) || a == MigrationFails(c) {
      ResumedSnoc(run, a, c, None);
    }
    forall c | 0 <= c < |t.calls| ensures Told(run + [a], t, c) {
      assert c < |s.calls| ==> Told(run, s, c);
    }
    forall c: nat, row, other | ResumedWith(run + [a], c, row) && ResumedWith(run + [a], c, other) ensures row == other {
      assert a.Resume? && a.c == c ==> Told(run, s, c);
    }
  }

  lemma {:induction false} RunTells(before: seq<Action>, s: Sys, run: seq<Action>, t: Sys)
    requires AllTold(before, s) && Steps(s, run, t)
    ensures AllTold(before + run, t)
    decreases |run|
  {
    if run == [] {
      assert before + run == before;
    } else {
      StepTells(before, s, run[0]);
      RunTells(before + [run[0]], Apply(s, run[0]), run[1..], t);
      assert before + [run[0]] + run[1..] == before + run;
    }
  }

  /** A call that is refused had no row; one that migrates, has migrated or is served had a
      row with that schema; only a migration that raised fails a call. */
  lemma PhaseTellsTheRow(run: seq<Action>, t: Sys, c: nat)
    requires Steps(Start, run, t) && c < |t.calls|
    ensures Told(run, t, c)
    ensures ResumedWith(run, c, None) <==> t.calls[c].Refused?
    ensures forall schema :: ResumedWith(run, c, Some(schema)) ==>
      t.calls[c] in {Migrating(schema), Migrated(schema), Served(schema), Failed}
  {
    assert AllTold([], Start);
    RunTells([], Start, run, t);
    assert [] + run == run;
  }

  /** The first call of a schema migrates it, and can then be served. */
  lemma FirstCallCanBeServed(s: Sys, c: nat, schema: Schema)
    requires c < |s.calls| && s.calls[c].Looking? && schema !in s.initialized
    ensures var run := [Resume(c, Some(schema)), MigrationEnds(c), Continue(c)];
      exists t :: Steps(s, run, t) && t.calls == s.calls[c := Served(schema)] && t.initialized == s.initialized + {schema}
  {
    var run := [Resume(c, Some(schema)), MigrationEnds(c), Continue(c)];
    var s1 := Apply(s, run[0]);
    assert s1.calls[c] == Migrating(schema);
    var s2 := Apply(s1, run[1]);
    assert s2.calls[c] == Migrated(schema);
    var t := Apply(s2, run[2]);
    assert run[1..] == [run[1], run[2]] && run[1..][1..] == [run[2]] && run[1..][1..][1..] == [];
    assert Steps(t, [], t);
    assert Steps(s2, [run[2]], t);
    assert Steps(s1, run[1..], t);
  }

  /** A schema known as initialized is never migrated by a call that looks it up later,
      and such a call is served whenever its row names that schema. */
  lemma NoSecondMigration(s: Sys, run: seq<Action>, t: Sys, c: nat, schema: Schema)
    requires Steps(s, run, t) && schema in s.initialized && c < |t.calls|
    requires c >= |s.calls| || s.calls[c].Looking?
    ensures t.calls[c] != Migrating(schema)
    ensures t.calls[c].Looking? ==> Apply(t, Resume(c, Some(schema))).calls[c] == Served(schema)
  {
    StepsKeep(s, run, t);
  }
}
