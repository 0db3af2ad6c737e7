// Runs of tenant and key requests, with schemas provisioned from outside at any time.

module TenantLifecycleRuns {
  import opened Common
  import opened Models
  import opened TenantLifecycle

  datatype Action =
    | Create(owner: Id, name: string, draw: Draw)
    | NameTenant(user: Id, tenantId: Id, newName: Option<string>)
    | OwnerDelete(user: Id, tenantId: Id)
    | AdminDelete(admin: Caller, tenantId: Id)
    | PurgeTenant(admin: Caller, tenantId: Id)
    | NewKey(user: Id, tenantId: Id, name: string, keyId: Id, keyHash: string)
    | Revoke(user: Id, tenantId: Id, keyId: Id)
    | AdminRevoke(admin: Caller, keyId: Id)
    | Rename(user: Id, tenantId: Id, keyId: Id, name: string)
    | EditMembers(members: set<TenantMember>)
    | Provision(schema: Schema)   // the extension's migration of a schema

  /** Random ids are new, eight hex digits name a schema, and a user has one role a tenant. */
  ghost predicate Enabled(db: Db, a: Action) {
    match a
    case Create(_, _, d) => d.tenantId !in db.tenants && d.keyId !in db.keys && IsHex8(d.hex)
    case NewKey(_, _, _, keyId, _) => keyId !in db.keys
    case EditMembers(members) =>
      forall m, n :: m in members && n in members && m.userId == n.userId && m.tenantId == n.tenantId ==> m == n
    case _ => true
  }

  function Step(db: Db, a: Action): (Answer, Db) {
    match a
    case Create(owner, name, d) => CreateTenant(db, owner, name, d)
    case NameTenant(user, t, name) => RenameTenant(db, user, t, name)
    case OwnerDelete(user, t) => DeleteByOwner(db, user, t)
    case AdminDelete(admin, t) => DeleteByAdmin(db, admin, t)
    case PurgeTenant(admin, t) => Purge(db, admin, t)
    case NewKey(user, t, name, k, h) => CreateKey(db, user, t, name, k, h)
    case Revoke(user, t, k) => RevokeKey(db, user, t, k)
    case AdminRevoke(admin, k) => RevokeKeyByAdmin(db, admin, k)
    case Rename(user, t, k, name) => RenameKey(db, user, t, k, name)
    case EditMembers(members) => (Done, db.(members := members))
    case Provision(schema) => (Done, db.(schemas := db.schemas + {schema}))
  }

  ghost predicate Steps(db: Db, run: seq<Action>, t: Db)
    decreases |run|
  {
    if run == [] then db == t
    else Enabled(db, run[0]) && Steps(Step(db, run[0]).1, run[1..], t)
  }

  const Empty := Db(map[], {}, map[], {}, [])

  /** The lookup of authenticate: the schema of the ACTIVE tenant that owns the key. */
  ghost predicate Resolves(db: Db, keyHash: string, schema: Schema) {
    exists k :: k in db.keys && Grants(db, k, keyHash, schema)
  }

  predicate Grants(db: Db, k: Id, keyHash: string, schema: Schema)
    requires k in db.keys
  {
    && db.keys[k].keyHash == keyHash && db.keys[k].tenantId in db.tenants
    && db.tenants[db.keys[k].tenantId].status == ACTIVE
    && db.tenants[db.keys[k].tenantId].schemaName == schema
  }

  ghost predicate TenantsOk(db: Db) {
    && (forall t :: t in db.tenants ==> db.tenants[t].id == t && MatchesSchemaPattern(db.tenants[t].schemaName))
    && (forall t, u :: t in db.tenants && u in db.tenants && t != u ==> db.tenants[t].schemaName != db.tenants[u].schemaName)
  }

  ghost predicate KeysOk(db: Db) {
    && (forall k :: k in db.keys ==> db.keys[k].id == k && db.keys[k].tenantId in db.tenants)
    && (forall k, l :: k in db.keys && l in db.keys && k != l ==> db.keys[k].keyHash != db.keys[l].keyHash)
    && (forall k, l :: k in db.keys && l in db.keys && k != l && db.keys[k].isSystem && db.keys[l].isSystem ==>
          db.keys[k].tenantId != db.keys[l].tenantId)
  }

  lemma NewSchemaMatches(hex: string)
    requires IsHex8(hex)
    ensures MatchesSchemaPattern("tenant_" + hex)
  {
  }

  lemma CreateKeepsTenantsOk(db: Db, owner: Id, name: string, d: Draw)
    requires TenantsOk(db) && d.tenantId !in db.tenants && IsHex8(d.hex)
    ensures TenantsOk(CreateTenant(db, owner, name, d).1)
  {
    NewSchemaMatches(d.hex);
    var (r, t) := CreateTenant(db, owner, name, d);
    if r == Done {
      assert t.tenants.Keys == db.tenants.Keys + {d.tenantId};
      assert forall u :: u in db.tenants ==> t.tenants[u] == db.tenants[u] && db.tenants[u].schemaName != "tenant_" + d.hex;
    }
  }

  lemma StepKeepsTenantsOk(db: Db, a: Action)
    requires TenantsOk(db) && Enabled(db, a)
    ensures TenantsOk(Step(db, a).1)
  {
    match a
    case Create(owner, name, d) => CreateKeepsTenantsOk(db, owner, name, d);
    case NameTenant(_, id, name) =>
      if id in db.tenants && name.Some? {
        NameKeepsTenantsOk(db, id, Strip(name.value));
      }
    case OwnerDelete(_, id) =>
      if id in db.tenants {
        StatusKeepsTenantsOk(db, id, DELETING);
      }
    case AdminDelete(_, id) =>
      if id in db.tenants {
        StatusKeepsTenantsOk(db, id, DELETING);
      }
    case PurgeTenant(_, id) =>
      if id in db.tenants {
        StatusKeepsTenantsOk(db, id, DELETED);
      }
    case _ =>
  }

  lemma NameKeepsTenantsOk(db: Db, id: Id, name: string)
    requires TenantsOk(db) && id in db.tenants
    ensures TenantsOk(WithName(db, id, name))
  {
  }

  lemma StatusKeepsTenantsOk(db: Db, id: Id, status: TenantStatus)
    requires TenantsOk(db) && id in db.tenants
    ensures TenantsOk(WithStatus(db, id, status))
  {
  }

  lemma AddKeyKeepsKeysOk(db: Db, key: ApiKey)
    requires KeysOk(db) && key.id !in db.keys && key.tenantId in db.tenants && !HashTaken(db, key.keyHash)
    requires key.isSystem ==> forall k :: k in db.keys ==> db.keys[k].tenantId != key.tenantId
    ensures KeysOk(db.(keys := db.keys[key.id := key]))
  {
  }

  lemma DropKeyKeepsKeysOk(db: Db, k: Id)
    requires KeysOk(db)
    ensures KeysOk(db.(keys := db.keys - {k}))
  {
  }

  lemma RenameKeepsKeysOk(db: Db, k: Id, name: string)
    requires KeysOk(db) && k in db.keys
    ensures KeysOk(db.(keys := db.keys[k := db.keys[k].(name := name)]))
  {
  }

  /** The invariant of the keys reads of the tenants only which there are. */
  lemma SameTenantsKeepKeysOk(db: Db, t: Db)
    requires KeysOk(db) && t.keys == db.keys && db.tenants.Keys <= t.tenants.Keys
    ensures KeysOk(t)
  {
  }

  lemma StepKeepsKeysOk(db: Db, a: Action)
    requires KeysOk(db) && Enabled(db, a)
    ensures KeysOk(Step(db, a).1)
  {
    var (r, t) := Step(db, a);
    match a
    case Create(_, _, d) =>
      if r == Done {
        SameTenantsKeepKeysOk(db, t.(keys := db.keys));
        AddKeyKeepsKeysOk(t.(keys := db.keys), ApiKey(d.keyId, d.tenantId, d.keyHash, SYSTEM_KEY_NAME, true));
      }
    case NewKey(_, id, name, k, h) =>
      if r == Done {
        AddKeyKeepsKeysOk(db, ApiKey(k, id, h, Stored(name).value, false));
      }
    case Revoke(_, _, k) => DropKeyKeepsKeysOk(db, k);
    case AdminRevoke(_, k) =>
      DropKeyKeepsKeysOk(db, k);
      SameTenantsKeepKeysOk(db.(keys := t.keys), t);
    case Rename(_, _, k, name) =>
      if k in db.keys {
        RenameKeepsKeysOk(db, k, Strip(name));
      }
    case _ => SameTenantsKeepKeysOk(db, t);
  }

  /** Along every run schema names and key hashes stay unique, and a tenant has at most one
      system key. */
  lemma {:induction false} RunKeepsOk(db: Db, run: seq<Action>, t: Db)
    requires TenantsOk(db) && KeysOk(db) && Steps(db, run, t)
    ensures TenantsOk(t) && KeysOk(t)
    decreases |run|
  {
    if run != [] {
      StepKeepsTenantsOk(db, run[0]);
      StepKeepsKeysOk(db, run[0]);
      RunKeepsOk(Step(db, run[0]).1, run[1..], t);
    }
  }

  /** A key hash leads to at most one schema. */
  lemma LookupIsUnique(run: seq<Action>, db: Db, keyHash: string, s1: Schema, s2: Schema)
    requires Steps(Empty, run, db) && Resolves(db, keyHash, s1) && Resolves(db, keyHash, s2)
    ensures s1 == s2
  {
    RunKeepsOk(Empty, run, db);
    var k :| k in db.keys && Grants(db, k, keyHash, s1);
    var l :| l in db.keys && Grants(db, l, keyHash, s2);
    assert k == l;
  }

  /** What a step leaves of a tenant: its identity and schema; and it is ACTIVE after only
      if it was before. */
  predicate KeptInactive(db: Db, t: Db, id: Id) {
    id in db.tenants ==>
      && id in t.tenants && t.tenants[id].schemaName == db.tenants[id].schemaName
      && (t.tenants[id].status == ACTIVE ==> db.tenants[id].status == ACTIVE)
  }

  lemma StepKeepsInactive(db: Db, a: Action, id: Id)
    requires Enabled(db, a)
    ensures KeptInactive(db, Step(db, a).1, id)
  {
  }

  lemma {:induction false} NothingReactivates(db: Db, run: seq<Action>, t: Db, id: Id)
    requires Steps(db, run, t)
    ensures KeptInactive(db, t, id)
    decreases |run|
  {
    if run != [] {
      StepKeepsInactive(db, run[0], id);
      NothingReactivates(Step(db, run[0]).1, run[1..], t, id);
    }
  }

  /** Once a tenant is deleted or purged, no key leads to its schema again, whatever
      deletes, purges, new keys and provisionings follow. */
  lemma PurgeIsFinalForAccess(before: seq<Action>, db: Db, after: seq<Action>, t: Db, id: Id, keyHash: string)
    requires Steps(Empty, before, db) && id in db.tenants && db.tenants[id].status != ACTIVE
    requires Steps(db, after, t)
    ensures !Resolves(t, keyHash, db.tenants[id].schemaName)
    ensures forall k :: k in t.keys && t.keys[k].tenantId == id ==> forall s :: !Resolves(t, t.keys[k].keyHash, s)
  {
    RunKeepsOk(Empty, before, db);
    RunKeepsOk(db, after, t);
    NothingReactivates(db, after, t, id);
  }

  lemma AfterCreate(db: Db, a: Action, h: string, s: Schema)
    requires TenantsOk(db) && KeysOk(db) && a.Create? && Enabled(db, a) && Step(db, a).0 == Done
    ensures Resolves(Step(db, a).1, h, s) <==> Resolves(db, h, s) || (h == a.draw.keyHash && s == "tenant_" + a.draw.hex)
  {
    var t, schema := Step(db, a).1, "tenant_" + a.draw.hex;
    assert Grants(t, a.draw.keyId, a.draw.keyHash, schema);
    assert forall k :: k in db.keys ==> k in t.keys && (Grants(t, k, h, s) <==> Grants(db, k, h, s));
  }

  lemma AfterNewKey(db: Db, a: Action, h: string, s: Schema)
    requires a.NewKey? && Enabled(db, a) && Step(db, a).0 == Done
    ensures a.tenantId in db.tenants
    ensures var tenant := db.tenants[a.tenantId];
      Resolves(Step(db, a).1, h, s) <==>
        Resolves(db, h, s) || (h == a.keyHash && tenant.status == ACTIVE && s == tenant.schemaName)
  {
    var t := Step(db, a).1;
    var tenant := db.tenants[a.tenantId];
    assert Grants(t, a.keyId, h, s) <==> h == a.keyHash && tenant.status == ACTIVE && s == tenant.schemaName;
    assert forall k :: k in db.keys ==> k in t.keys && (Grants(t, k, h, s) <==> Grants(db, k, h, s));
  }

  lemma AfterStatus(db: Db, id: Id, status: TenantStatus, h: string, s: Schema)
    requires TenantsOk(db) && KeysOk(db) && id in db.tenants && status != ACTIVE
    ensures Resolves(WithStatus(db, id, status), h, s) <==> Resolves(db, h, s) && s != db.tenants[id].schemaName
  {
    var t := WithStatus(db, id, status);
    assert forall k :: k in db.keys ==> (Grants(t, k, h, s) <==> Grants(db, k, h, s) && db.keys[k].tenantId != id);
  }

  lemma AfterRevoke(db: Db, k: Id, h: string, s: Schema)
    requires KeysOk(db) && k in db.keys
    ensures Resolves(db.(keys := db.keys - {k}), h, s) <==> Resolves(db, h, s) && h != db.keys[k].keyHash
  {
    var t := db.(keys := db.keys - {k});
    assert forall j :: j in t.keys ==> (Grants(t, j, h, s) <==> Grants(db, j, h, s));
  }

  lemma AfterRename(db: Db, k: Id, name: string, h: string, s: Schema)
    requires k in db.keys
    ensures Resolves(db.(keys := db.keys[k := db.keys[k].(name := name)]), h, s) <==> Resolves(db, h, s)
  {
    var t := db.(keys := db.keys[k := db.keys[k].(name := name)]);
    assert forall j :: j in db.keys ==> (Grants(t, j, h, s) <==> Grants(db, j, h, s));
  }

  lemma AfterPurge(db: Db, admin: Caller, id: Id, h: string, s: Schema)
    requires TenantsOk(db)
    ensures Resolves(Purge(db, admin, id).1, h, s) <==> Resolves(db, h, s)
  {
    var t := Purge(db, admin, id).1;
    assert t.keys == db.keys;
    assert forall k :: k in db.keys ==> (Grants(t, k, h, s) <==> Grants(db, k, h, s));
  }

  lemma AfterName(db: Db, id: Id, name: string, h: string, s: Schema)
    requires id in db.tenants
    ensures Resolves(WithName(db, id, name), h, s) <==> Resolves(db, h, s)
  {
    var t := WithName(db, id, name);
    assert forall k :: k in db.keys ==> (Grants(t, k, h, s) <==> Grants(db, k, h, s));
  }

  /** A lookup reads only tenants and keys. */
  lemma AfterOther(db: Db, t: Db, h: string, s: Schema)
    requires t.tenants == db.tenants && t.keys == db.keys
    ensures Resolves(t, h, s) <==> Resolves(db, h, s)
  {
    assert forall k :: k in db.keys ==> (Grants(t, k, h, s) <==> Grants(db, k, h, s));
  }

  /** Whether h leads to s once request a was done. */
  ghost predicate Leads(db: Db, a: Action, h: string, s: Schema)
    requires Step(db, a).0 == Done
  {
    match a
    case Create(_, _, d) => Resolves(db, h, s) || (h == d.keyHash && s == "tenant_" + d.hex)
    case NewKey(_, id, _, _, hash) =>
      Resolves(db, h, s) || (h == hash && db.tenants[id].status == ACTIVE && s == db.tenants[id].schemaName)
    case OwnerDelete(_, id) => Resolves(db, h, s) && s != db.tenants[id].schemaName
    case AdminDelete(_, id) => Resolves(db, h, s) && s != db.tenants[id].schemaName
    case Revoke(_, _, k) => Resolves(db, h, s) && h != db.keys[k].keyHash
    case AdminRevoke(_, k) => Resolves(db, h, s) && h != db.keys[k].keyHash
    case _ => Resolves(db, h, s)
  }

  lemma AfterDone(db: Db, a: Action, h: string, s: Schema)
    requires TenantsOk(db) && KeysOk(db) && Enabled(db, a) && Step(db, a).0 == Done
    ensures Resolves(Step(db, a).1, h, s) <==> Leads(db, a, h, s)
  {
    var t := Step(db, a).1;
    match a
    case Create(_, _, _) => AfterCreate(db, a, h, s);
    case NewKey(_, _, _, _, _) => AfterNewKey(db, a, h, s);
    case NameTenant(_, id, name) =>
      if name.Some? {
        AfterName(db, id, Strip(name.value), h, s);
      }
    case OwnerDelete(_, id) => AfterStatus(db, id, DELETING, h, s);
    case AdminDelete(_, id) =>
      AfterStatus(db, id, DELETING, h, s);
      AfterOther(WithStatus(db, id, DELETING), t, h, s);
    case Revoke(_, _, k) => AfterRevoke(db, k, h, s);
    case AdminRevoke(_, k) =>
      AfterRevoke(db, k, h, s);
      AfterOther(db.(keys := db.keys - {k}), t, h, s);
    case Rename(_, _, k, name) => AfterRename(db, k, Strip(name), h, s);
    case PurgeTenant(_, _) =>
    case EditMembers(_) => AfterOther(db, t, h, s);
    case Provision(_) => AfterOther(db, t, h, s);
  }

  lemma RefusedChangesNothing(db: Db, a: Action)
    requires Step(db, a).0.Refused?
    ensures Step(db, a).1 == db
  {
  }

  lemma PurgedIsPurge(db: Db, a: Action)
    requires Step(db, a).0.Purged?
    ensures a.PurgeTenant? && a.tenantId in db.tenants && db.tenants[a.tenantId].status == DELETING
  {
  }

  /** What one request does to the lookups: a new tenant's system key and an ACTIVE tenant's
      new key start to lead to the schema, a revoked key leads nowhere, a deleted tenant's
      schema is reached by none, and no request changes anything else. */
  lemma LookupAfterStep(run: seq<Action>, db: Db, a: Action, h: string, s: Schema)
    requires Steps(Empty, run, db) && Enabled(db, a)
    ensures var (r, t) := Step(db, a);
      Resolves(t, h, s) <==> if r == Done then Leads(db, a, h, s) else Resolves(db, h, s)
  {
    RunKeepsOk(Empty, run, db);
    match Step(db, a).0
    case Done => AfterDone(db, a, h, s);
    case Purged(_) =>
      PurgedIsPurge(db, a);
      AfterPurge(db, a.admin, a.tenantId, h, s);
    case Refused(_) => RefusedChangesNothing(db, a);
  }

  /** Purge answers by the status alone: the pattern check never fails, and exactly a
      DELETING tenant is purged. */
  lemma PurgeSucceedsIffDeleting(run: seq<Action>, db: Db, admin: Caller, id: Id)
    requires Steps(Empty, run, db)
    ensures var (r, t) := Purge(db, admin, id);
      && r != Refused(BadSchemaName)
      && (r.Purged? <==> id in db.tenants && db.tenants[id].status == DELETING)
      && (r.Purged? ==> t.tenants[id].status == DELETED)
  {
    RunKeepsOk(Empty, run, db);
  }

  lemma OnlyPurgeDrops(db: Db, a: Action, schema: Schema)
    requires Enabled(db, a) && schema in db.schemas && schema !in Step(db, a).1.schemas
    ensures Step(db, a).0.Purged? && a.PurgeTenant? && a.tenantId in db.tenants
    ensures schema == db.tenants[a.tenantId].schemaName
  {
  }

  /** Purge drops the schema of the tenant it is asked about and of no other, and nothing
      but purge drops a schema. */
  lemma OnlyPurgeDropsOnlyItsSchema(run: seq<Action>, db: Db, a: Action, other: Id)
    requires Steps(Empty, run, db) && Enabled(db, a) && other in db.tenants
    ensures var (r, t) := Step(db, a);
      && (r.Purged? ==> (a.PurgeTenant? && t.schemas == db.schemas - {db.tenants[a.tenantId].schemaName}
                         && (r.schemaDropped <==> db.tenants[a.tenantId].schemaName in db.schemas)))
      && (db.tenants[other].schemaName in db.schemas - t.schemas ==>
            a.PurgeTenant? && a.tenantId == other && db.tenants[other].status == DELETING)
  {
    RunKeepsOk(Empty, run, db);
    var (r, t) := Step(db, a);
    if r.Purged? {
      PurgedIsPurge(db, a);
    }
    if db.tenants[other].schemaName in db.schemas - t.schemas {
      OnlyPurgeDrops(db, a, db.tenants[other].schemaName);
      assert a.tenantId == other;
    }
  }

  // ----- Deleting twice -----

  /** The request deletes the tenant, for an owner or an admin. */
  predicate Deletes(db: Db, a: Action, id: Id) {
    (a.OwnerDelete? || a.AdminDelete?) && a.tenantId == id && Step(db, a).0 == Done
  }

  ghost predicate DeletedIn(db: Db, run: seq<Action>, id: Id)
    decreases |run|
  {
    run != [] && (Deletes(db, run[0], id) || DeletedIn(Step(db, run[0]).1, run[1..], id))
  }

  /** The tenant is DELETED before and after every request of the run. */
  ghost predicate StaysDeleted(db: Db, run: seq<Action>, id: Id)
    decreases |run|
  {
    && id in db.tenants && db.tenants[id].status == DELETED
    && (run != [] ==> StaysDeleted(Step(db, run[0]).1, run[1..], id))
  }

  lemma StepFromDeleted(db: Db, a: Action, id: Id)
    requires Enabled(db, a) && id in db.tenants && db.tenants[id].status == DELETED
    ensures id in Step(db, a).1.tenants
    ensures Step(db, a).1.tenants[id].status == DELETED <==> !Deletes(db, a, id)
  {
  }

  /** DELETED is not final: a purged tenant stays DELETED over a run if and only if no
      request of the run deletes it once more. */
  lemma {:induction false} StaysDeletedIff(db: Db, run: seq<Action>, t: Db, id: Id)
    requires Steps(db, run, t) && id in db.tenants && db.tenants[id].status == DELETED
    ensures StaysDeleted(db, run, id) <==> !DeletedIn(db, run, id)
    decreases |run|
  {
    if run != [] {
      StepFromDeleted(db, run[0], id);
      if !Deletes(db, run[0], id) {
        StaysDeletedIff(Step(db, run[0]).1, run[1..], t, id);
      }
    }
  }

  lemma TwoSteps(db: Db, a: Action, b: Action)
    requires Enabled(db, a) && Enabled(Step(db, a).1, b)
    ensures Steps(db, [a, b], Step(Step(db, a).1, b).1)
  {
    var t := Step(Step(db, a).1, b).1;
    assert [a, b][1..] == [b] && [b][1..] == [];
    assert Steps(t, [], t);
    assert Steps(Step(db, a).1, [b], t);
  }

  lemma ThreeSteps(db: Db, a: Action, b: Action, c: Action)
    requires Enabled(db, a) && Enabled(Step(db, a).1, b) && Enabled(Step(Step(db, a).1, b).1, c)
    ensures Steps(db, [a, b, c], Step(Step(Step(db, a).1, b).1, c).1)
  {
    TwoSteps(Step(db, a).1, b, c);
    assert [a, b, c][1..] == [b, c];
  }

  /** Any tenant can be deleted, purged, and deleted again, which leaves it DELETING. */
  lemma DeletePurgeDelete(db: Db, admin: Caller, id: Id)
    requires TenantsOk(db) && id in db.tenants
    ensures exists t ::
      && Steps(db, [AdminDelete(admin, id), PurgeTenant(admin, id), AdminDelete(admin, id)], t)
      && id in t.tenants && t.tenants[id].status == DELETING
  {
    ThreeSteps(db, AdminDelete(admin, id), PurgeTenant(admin, id), AdminDelete(admin, id));
    var s1 := DeleteByAdmin(db, admin, id).1;
    var s2 := Purge(s1, admin, id).1;
    assert id in s2.tenants;
    var t := DeleteByAdmin(s2, admin, id).1;
    assert id in t.tenants && t.tenants[id].status == DELETING;
  }

  lemma DeletedBecomesDeleting(admin: Caller)
    ensures var run := [Create(9, "n", Draw(1, "0123abcd", 2, "hash", 0)),
                        AdminDelete(admin, 1), PurgeTenant(admin, 1), AdminDelete(admin, 1)];
      exists t :: Steps(Empty, run, t) && 1 in t.tenants && t.tenants[1].status == DELETING
  {
    var create := Create(9, "n", Draw(1, "0123abcd", 2, "hash", 0));
    StepKeepsTenantsOk(Empty, create);
    var s1 := Step(Empty, create).1;
    assert s1.tenants[1].status == ACTIVE;
    DeletePurgeDelete(s1, admin, 1);
    var rest := [AdminDelete(admin, 1), PurgeTenant(admin, 1), AdminDelete(admin, 1)];
    assert ([create] + rest)[1..] == rest;
    assert [create] + rest == [create, AdminDelete(admin, 1), PurgeTenant(admin, 1), AdminDelete(admin, 1)];
  }

  // ----- Who changes what -----

  predicate IsOwner(db: Db, user: Id, tenantId: Id) {
    tenantId in db.tenants && TenantMember(user, tenantId, OWNER) in db.members
  }

  /** The request is an owner's and was done: it revokes the key of the tenant. */
  predicate OwnerRevoke(db: Db, a: Action, k: Id, tenantId: Id) {
    a.Revoke? && a.keyId == k && a.tenantId == tenantId && IsOwner(db, a.user, tenantId) && Step(db, a).0 == Done
  }

  /** It renames the key of the tenant to `name`. */
  predicate OwnerRename(db: Db, a: Action, k: Id, tenantId: Id, name: string) {
    && a.Rename? && a.keyId == k && a.tenantId == tenantId && IsOwner(db, a.user, tenantId) && Step(db, a).0 == Done
    && name == Strip(a.name) && 1 <= |name| <= NAME_LENGTH
  }

  /** It deletes the tenant. */
  predicate OwnerDeletion(db: Db, a: Action, id: Id) {
    a.OwnerDelete? && a.tenantId == id && IsOwner(db, a.user, id) && Step(db, a).0 == Done
  }

  /** It gives the tenant the name. */
  predicate OwnerNaming(db: Db, a: Action, id: Id, name: string) {
    && a.NameTenant? && a.tenantId == id && IsOwner(db, a.user, id) && Step(db, a).0 == Done
    && a.newName.Some? && name == Strip(a.newName.value) && 1 <= |name| <= NAME_LENGTH
  }

  /** Some request of the run is an owner's revocation of the key. */
  ghost predicate OwnerRevokes(db: Db, run: seq<Action>, k: Id, tenantId: Id)
    decreases |run|
  {
    run != [] && (OwnerRevoke(db, run[0], k, tenantId) || OwnerRevokes(Step(db, run[0]).1, run[1..], k, tenantId))
  }

  ghost predicate OwnerRenames(db: Db, run: seq<Action>, k: Id, tenantId: Id, name: string)
    decreases |run|
  {
    run != [] && (OwnerRename(db, run[0], k, tenantId, name) || OwnerRenames(Step(db, run[0]).1, run[1..], k, tenantId, name))
  }

  ghost predicate OwnerDeletes(db: Db, run: seq<Action>, id: Id)
    decreases |run|
  {
    run != [] && (OwnerDeletion(db, run[0], id) || OwnerDeletes(Step(db, run[0]).1, run[1..], id))
  }

  ghost predicate OwnerNames(db: Db, run: seq<Action>, id: Id, name: string)
    decreases |run|
  {
    run != [] && (OwnerNaming(db, run[0], id, name) || OwnerNames(Step(db, run[0]).1, run[1..], id, name))
  }

  /** An audit row written between the two states tells of the action. */
  ghost predicate OnRecord(db: Db, t: Db, action: string, id: Id) {
    exists i :: |db.audit| <= i < |t.audit| && t.audit[i].action == action && t.audit[i].resourceId == id
  }

  lemma StepExtendsAudit(db: Db, a: Action)
    ensures db.audit <= Step(db, a).1.audit
  {
  }

  /** Audit rows are only added. */
  lemma {:induction false} AuditIsAppendOnly(db: Db, run: seq<Action>, t: Db)
    requires Steps(db, run, t)
    ensures db.audit <= t.audit
    decreases |run|
  {
    if run != [] {
      StepExtendsAudit(db, run[0]);
      AuditIsAppendOnly(Step(db, run[0]).1, run[1..], t);
    }
  }

  lemma RecordCarries(db: Db, m: Db, t: Db, action: string, id: Id)
    requires db.audit <= m.audit <= t.audit
    ensures OnRecord(db, m, action, id) || OnRecord(m, t, action, id) ==> OnRecord(db, t, action, id)
  {
    if i :| |db.audit| <= i < |m.audit| && m.audit[i].action == action && m.audit[i].resourceId == id {
      assert t.audit[i] == m.audit[i];
    }
  }

  lemma StepChangesKey(db: Db, a: Action, k: Id)
    requires Enabled(db, a) && KeysOk(db) && k in db.keys
    ensures var t, key := Step(db, a).1, db.keys[k];
      && (k !in t.keys ==>
            OwnerRevoke(db, a, k, key.tenantId) || OnRecord(db, t, "hm.api_key.revoke", k))
      && (k in t.keys && t.keys[k] != key ==>
            !key.isSystem && t.keys[k] == key.(name := t.keys[k].name) && OwnerRename(db, a, k, key.tenantId, t.keys[k].name))
  {
    if a.AdminRevoke? && a.keyId == k {
      assert Step(db, a).1.audit[|db.audit|] == RevokeEvent(a.admin, k, db.keys[k]);
    }
  }

  /** Over a run a key disappears only when an owner of its tenant revokes it or an admin
      does, who leaves an audit row; and it changes only in its name, by an owner's rename,
      and never if it is a system key. */
  lemma {:induction false} KeyChangesAreAuthorised(db: Db, run: seq<Action>, t: Db, k: Id)
    requires KeysOk(db) && Steps(db, run, t) && k in db.keys
    ensures var key := db.keys[k];
      || OwnerRevokes(db, run, k, key.tenantId)
      || OnRecord(db, t, "hm.api_key.revoke", k)
      || (k in t.keys && t.keys[k] == key.(name := t.keys[k].name)
          && (t.keys[k].name == key.name || (!key.isSystem && OwnerRenames(db, run, k, key.tenantId, t.keys[k].name))))
    decreases |run|
  {
    if run != [] {
      var m := Step(db, run[0]).1;
      StepChangesKey(db, run[0], k);
      StepKeepsKeysOk(db, run[0]);
      StepExtendsAudit(db, run[0]);
      AuditIsAppendOnly(m, run[1..], t);
      RecordCarries(db, m, t, "hm.api_key.revoke", k);
      if k in m.keys {
        KeyChangesAreAuthorised(m, run[1..], t, k);
      }
    }
  }

  lemma StepChangesTenant(db: Db, a: Action, id: Id)
    requires Enabled(db, a) && id in db.tenants
    ensures id in Step(db, a).1.tenants
    ensures var t, tenant := Step(db, a).1, db.tenants[id];
      var after := t.tenants[id];
      && after == tenant.(status := after.status, name := after.name)
      && (after.name != tenant.name ==> OwnerNaming(db, a, id, after.name))
      && (after.status != tenant.status ==>
            || (after.status == DELETING && OwnerDeletion(db, a, id))
            || (after.status == DELETING && OnRecord(db, t, "hm.tenant.delete", id))
            || (after.status == DELETED && OnRecord(db, t, "hm.tenant.purge", id)))
  {
    var t := Step(db, a).1;
    if a.AdminDelete? && a.tenantId == id {
      assert t.audit[|db.audit|] == DeleteEvent(a.admin, id, db.tenants[id]);
    } else if a.PurgeTenant? && a.tenantId == id && Step(db, a).0.Purged? {
      assert t.audit[|db.audit|] == PurgeEvent(a.admin, id, db.tenants[id], db.tenants[id].schemaName in db.schemas);
    }
  }

  /** Over a run nothing of a tenant changes but its name and its status: the name by an
      owner's rename, the status to DELETING by an owner or by an admin, who leaves an audit
      row, and to DELETED by a purge, which leaves one too. */
  lemma {:induction false} TenantChangesAreAuthorised(db: Db, run: seq<Action>, t: Db, id: Id)
    requires Steps(db, run, t) && id in db.tenants
    ensures id in t.tenants && t.tenants[id] == db.tenants[id].(status := t.tenants[id].status, name := t.tenants[id].name)
    ensures t.tenants[id].name != db.tenants[id].name ==> OwnerNames(db, run, id, t.tenants[id].name)
    ensures t.tenants[id].status != db.tenants[id].status ==>
      || (t.tenants[id].status == DELETING && OwnerDeletes(db, run, id))
      || (t.tenants[id].status == DELETING && OnRecord(db, t, "hm.tenant.delete", id))
      || (t.tenants[id].status == DELETED && OnRecord(db, t, "hm.tenant.purge", id))
    decreases |run|
  {
    if run != [] {
      var m := Step(db, run[0]).1;
      StepChangesTenant(db, run[0], id);
      TenantChangesAreAuthorised(m, run[1..], t, id);
      StepExtendsAudit(db, run[0]);
      AuditIsAppendOnly(m, run[1..], t);
      RecordCarries(db, m, t, "hm.tenant.delete", id);
      RecordCarries(db, m, t, "hm.tenant.purge", id);
    }
  }

  // ----- What the audit rows tell -----

  /** The row tells of a deletion or a purge of a tenant that exists, and of a purge the
      schema the tenant has. */
  predicate TellsSchema(db: Db, e: Event) {
    e.action == "hm.tenant.delete" || e.action == "hm.tenant.purge" ==>
      && e.resourceId in db.tenants && e.detail.Some? && "name" in e.detail.value
      && (e.action == "hm.tenant.purge" ==>
            "schema_name" in e.detail.value && e.detail.value["schema_name"] == Text(db.tenants[e.resourceId].schemaName))
  }

  /** It moreover tells the name the tenant has. */
  predicate Truthful(db: Db, e: Event) {
    && TellsSchema(db, e)
    && (e.action == "hm.tenant.delete" || e.action == "hm.tenant.purge" ==>
          e.detail.value["name"] == Text(db.tenants[e.resourceId].name))
  }

  lemma StepKeepsSchemaTold(db: Db, a: Action, e: Event)
    requires Enabled(db, a) && TellsSchema(db, e)
    ensures TellsSchema(Step(db, a).1, e)
  {
    if e.resourceId in db.tenants {
      StepChangesTenant(db, a, e.resourceId);
    }
  }

  /** Every audit row is truthful when it is written. */
  lemma TruthfulWhenWritten(db: Db, a: Action, e: Event)
    requires e in Step(db, a).1.audit && e !in db.audit
    ensures Truthful(Step(db, a).1, e)
  {
  }

  /** Every audit row of a deletion or a purge is of an existing tenant, and tells the schema
      it has to the end. */
  lemma {:induction false} AuditTellsTheSchema(db: Db, run: seq<Action>, t: Db)
    requires Steps(db, run, t) && forall e :: e in db.audit ==> TellsSchema(db, e)
    ensures forall e :: e in t.audit ==> TellsSchema(t, e)
    decreases |run|
  {
    if run != [] {
      var m := Step(db, run[0]).1;
      forall e | e in m.audit ensures TellsSchema(m, e) {
        if e in db.audit {
          StepKeepsSchemaTold(db, run[0], e);
        } else {
          TruthfulWhenWritten(db, run[0], e);
        }
      }
      AuditTellsTheSchema(m, run[1..], t);
    }
  }

  /** The row is truthful before and after every request of the run. */
  ghost predicate StaysTruthful(db: Db, run: seq<Action>, e: Event)
    decreases |run|
  {
    Truthful(db, e) && (run != [] ==> StaysTruthful(Step(db, run[0]).1, run[1..], e))
  }

  /** Some request of the run gives the tenant another name than this. */
  ghost predicate RenamedFrom(db: Db, run: seq<Action>, id: Id, name: string)
    decreases |run|
  {
    run != [] && (
      || (run[0].NameTenant? && run[0].tenantId == id && Step(db, run[0]).0 == Done
          && run[0].newName.Some? && Strip(run[0].newName.value) != name)
      || RenamedFrom(Step(db, run[0]).1, run[1..], id, name))
  }

  /** A truthful audit row of a deletion or a purge stays truthful over a run if and only if
      no request of the run renames its tenant to another name. */
  lemma {:induction false} StaysTruthfulIff(db: Db, run: seq<Action>, t: Db, e: Event)
    requires Steps(db, run, t) && Truthful(db, e) && (e.action == "hm.tenant.delete" || e.action == "hm.tenant.purge")
    ensures StaysTruthful(db, run, e) <==> !RenamedFrom(db, run, e.resourceId, db.tenants[e.resourceId].name)
    decreases |run|
  {
    if run != [] {
      var m := Step(db, run[0]).1;
      StepKeepsSchemaTold(db, run[0], e);
      StepNames(db, run[0], e.resourceId);
      if m.tenants[e.resourceId].name == db.tenants[e.resourceId].name {
        StaysTruthfulIff(m, run[1..], t, e);
      }
    }
  }

  lemma StepNames(db: Db, a: Action, id: Id)
    requires Enabled(db, a) && id in db.tenants
    ensures id in Step(db, a).1.tenants
    ensures Step(db, a).1.tenants[id].name ==
      if a.NameTenant? && a.tenantId == id && Step(db, a).0 == Done && a.newName.Some?
      then Strip(a.newName.value) else db.tenants[id].name
  {
  }

  lemma RenameOutdates(db: Db, user: Id, id: Id, e: Event, name: string)
    requires IsOwner(db, user, id) && Truthful(db, e) && e.action == "hm.tenant.delete" && e.resourceId == id
    requires name != db.tenants[id].name && Strip(name) == name && 1 <= |name| <= NAME_LENGTH
    ensures !Truthful(Step(db, NameTenant(user, id, Some(name))).1, e)
  {
    assert Step(db, NameTenant(user, id, Some(name))).1 == WithName(db, id, name);
  }

  /** An owner renames a deleted tenant, and the audit row of the deletion tells a name the
      tenant no longer has. */
  lemma RenameOutdatesAudit(admin: Caller)
    ensures var s1 := Step(Empty, Create(9, "a", Draw(1, "0123abcd", 2, "hash", 0))).1;
      var s2 := Step(s1, AdminDelete(admin, 1)).1;
      var rename := NameTenant(9, 1, Some("b"));
      && Steps(Empty, [Create(9, "a", Draw(1, "0123abcd", 2, "hash", 0)), AdminDelete(admin, 1)], s2) && Enabled(s2, rename)
      && |s2.audit| == 1 && Truthful(s2, s2.audit[0]) && !Truthful(Step(s2, rename).1, s2.audit[0])
  {
    var create, del := Create(9, "a", Draw(1, "0123abcd", 2, "hash", 0)), AdminDelete(admin, 1);
    TwoSteps(Empty, create, del);
    var s1 := Step(Empty, create).1;
    assert Stored("a") == Some("a") && s1.tenants[1].name == "a" && IsOwner(s1, 9, 1);
    var s2 := DeleteByAdmin(s1, admin, 1).1;
    assert s2.audit == [DeleteEvent(admin, 1, s1.tenants[1])];
    StripWord("b");
    RenameOutdates(s2, 9, 1, s2.audit[0], "b");
  }

  /** A text without white space at its ends is left as it is. */
  lemma StripWord(s: string)
    requires s != [] && !IsSpace(s[0]) && !IsSpace(s[|s| - 1])
    ensures Strip(s) == s
  {
  }
}
