// hindsight_manager/extensions/manager_tenant.py. A coroutine gives way at every
// await, so each method here is one stretch of code between two awaits.

module TenantExtension {
  import opened Common

  type Key = string   // the SHA-256 hash of an API key
  type Schema = string
  type Time = int
  type Times = map<Key, Time>

  /** Each key with the later of its times. */
  function Merge(a: Times, b: Times): Times {
    map k | k in a.Keys + b.Keys ::
      if k in a && k in b then Max(a[k], b[k]) else if k in a then a[k] else b[k]
  }

  /** Whether the UPDATE matches a row holding `cell`. */
  predicate Matches(cell: Option<Time>, ts: Time) {
    cell.None? || cell.value < ts
  }

  /** The rows after a guarded UPDATE for each key that has one. */
  function Flushed(rows: map<Key, Option<Time>>, updates: Times): map<Key, Option<Time>> {
    map k | k in rows :: if k in updates && Matches(rows[k], updates[k]) then Some(updates[k]) else rows[k]
  }

  /** last_used_at of the api_keys table. */
  class KeyTable {
    var rows: map<Key, Option<Time>>

    constructor ()
      ensures rows == map[]
    {
      rows := map[];
    }
  }

  datatype AuthError = MissingKey | NotInitialized | InvalidKey

  /** Where a call of authenticate is. */
  datatype Phase =
    | Looking
    | Refused                     // AuthenticationError(InvalidKey)
    | Migrating(schema: Schema)   // run_migration is under way
    | Migrated(schema: Schema)    // it completed; the call has not resumed yet
    | Failed                      // it raised
    | Served(schema: Schema)      // a TenantContext was returned

  function AfterLookup(row: Option<Schema>, initialized: set<Schema>): Phase {
    match row
    case None => Refused
    case Some(s) => if s in initialized then Served(s) else Migrating(s)
  }

  class ManagerTenantExtension {
    var hasEngine: bool
    var pending: Times
    var initialized: set<Schema>

    constructor (hasEngine: bool)
      ensures this.hasEngine == hasEngine && pending == map[] && initialized == {}
    {
      this.hasEngine, pending, initialized := hasEngine, map[], {};
    }

    /** authenticate, up to the lookup. */
    method Admit(apiKey: string) returns (error: Option<AuthError>)
      ensures error == None <==> apiKey != "" && hasEngine
      ensures error == Some(MissingKey) <==> apiKey == ""
      ensures error != Some(InvalidKey)
    {
      if apiKey == "" {
        return Some(MissingKey);
      }
      if !hasEngine {
        return Some(NotInitialized);
      }
      return None;
    }

    /** authenticate, from the looked-up row to the answer or the migration. */
    method Resume(k: Key, row: Option<Schema>, now: Time) returns (phase: Phase)
      modifies this`pending
      ensures phase == AfterLookup(row, initialized)
      ensures phase == Refused <==> row.None?
      ensures forall s :: phase == Served(s) <==> row == Some(s) && s in initialized
      ensures forall s :: phase == Migrating(s) <==> row == Some(s) && s !in initialized
      ensures pending == if row.Some? then old(pending)[k := now] else old(pending)
    {
      if row.None? {
        return Refused;
      }
      pending := pending[k := now];
      if row.value !in initialized {
        return Migrating(row.value);
      }
      return Served(row.value);
    }

    /** authenticate, after a migration that raised nothing. */
    method Provisioned(schema: Schema) returns (phase: Phase)
      modifies this`initialized
      ensures initialized == old(initialized) + {schema} && phase == Served(schema)
    {
      initialized := initialized + {schema};
      return Served(schema);
    }

    /** The start of a flush: nothing to do, or the pending times, now taken. */
    method TakeSnapshot() returns (updates: Option<Times>)
      modifies this`pending
      ensures updates.Some? <==> old(pending) != map[] && hasEngine
      ensures updates.Some? ==> updates.value == old(pending) && pending == map[]
      ensures updates.None? ==> pending == old(pending)
    {
      if pending == map[] || !hasEngine {
        return None;
      }
      updates := Some(pending);
      pending := map[];
    }

    /** The handler of a failed flush. */
    method MergeBack(updates: Times)
      modifies this`pending
      ensures pending == Merge(old(pending), updates)
    {
      var todo := updates.Keys;
      while todo != {}
        invariant todo <= updates.Keys
        invariant pending.Keys == old(pending).Keys + (updates.Keys - todo)
        invariant forall k :: k in pending ==>
          pending[k] == if k in todo then old(pending)[k] else Merge(old(pending), updates)[k]
        decreases todo
      {
        var k :| k in todo;
        if k !in pending || updates[k] > pending[k] {
          pending := pending[k := updates[k]];
        }
        todo := todo - {k};
      }
    }

    /** A flush that nothing interleaves with. An exception comes after `raises` rows, or
        from the commit, which may have taken effect all the same. */
    method FlushPending(table: KeyTable, raises: Option<nat>, tookEffect: bool)
      modifies this`pending, table
      ensures old(pending) == map[] || !hasEngine ==> table.rows == old(table.rows)
      ensures old(pending) != map[] && hasEngine ==>
        table.rows == if raises.None? || (raises.value >= |old(pending)| && tookEffect)
                      then Flushed(old(table.rows), old(pending)) else old(table.rows)
      ensures pending == if hasEngine && raises.None? then map[] else old(pending)
    {
      var snapshot := TakeSnapshot();
      if snapshot.None? {
        return;
      }
      var updates := snapshot.value;
      var view, failed := WriteRows(table.rows, updates, raises);
      if !failed && (raises.None? || tookEffect) {
        table.rows := view;
      }
      if raises.Some? {
        MergeBack(updates);
        assert pending == updates;
      }
    }
  }

  /** The rows when the updates of the keys in `todo` are still to come. */
  function FlushedBut(rows: map<Key, Option<Time>>, updates: Times, todo: set<Key>): map<Key, Option<Time>> {
    map k | k in rows ::
      if k in updates && k !in todo && Matches(rows[k], updates[k]) then Some(updates[k]) else rows[k]
  }

  /** The rows after the guarded UPDATE of one key. */
  function Updated(view: map<Key, Option<Time>>, k: Key, ts: Time): map<Key, Option<Time>> {
    if k in view && Matches(view[k], ts) then view[k := Some(ts)] else view
  }

  /** One more statement of the transaction. */
  lemma FlushedNext(rows: map<Key, Option<Time>>, updates: Times, todo: set<Key>, k: Key)
    requires todo <= updates.Keys && k in todo
    ensures todo - {k} <= updates.Keys && |todo - {k}| == |todo| - 1
    ensures FlushedBut(rows, updates, todo - {k}) == Updated(FlushedBut(rows, updates, todo), k, updates[k])
  {
  }

  lemma NothingFlushed(rows: map<Key, Option<Time>>, updates: Times)
    ensures FlushedBut(rows, updates, updates.Keys) == rows
  {
  }

  lemma AllFlushed(rows: map<Key, Option<Time>>, updates: Times)
    ensures FlushedBut(rows, updates, {}) == Flushed(rows, updates)
  {
  }

  /** The statements of the transaction, up to the one that raises. */
  method WriteRows(rows: map<Key, Option<Time>>, updates: Times, raises: Option<nat>)
    returns (view: map<Key, Option<Time>>, failed: bool)
    ensures failed <==> raises.Some? && raises.value < |updates|
    ensures !failed ==> view == Flushed(rows, updates)
  {
    NothingFlushed(rows, updates);
    view, failed := rows, false;
    var todo, done := updates.Keys, 0;
    while todo != {}
      invariant todo <= updates.Keys && done + |todo| == |updates|
      invariant view == FlushedBut(rows, updates, todo)
      invariant raises.Some? ==> done <= raises.value
      decreases |todo|
    {
      if raises == Some(done) {
        return view, true;
      }
      var k :| k in todo;
      FlushedNext(rows, updates, todo, k);
      view, todo, done := Updated(view, k, updates[k]), todo - {k}, done + 1;
    }
    AllFlushed(rows, updates);
  }
}
