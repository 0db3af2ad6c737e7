// What each request about tenants and keys needs to be done, whom it refuses and how, and
// where the tenants, the keys and the audit rows of a run come from.

module TenantRequests {
  import opened Common
  import opened Models
  import opened TenantLifecycle
  import opened TenantLifecycleRuns

  // ----- Who may do what -----

  /** The text fits a VARCHAR(255) column. */
  predicate Fits(name: string) {
    forall i :: 255 <= i < |name| ==> name[i] == ' '
  }

  predicate GoodName(name: string) {
    1 <= |Strip(name)| <= 255
  }

  ghost predicate FreeHash(db: Db, keyHash: string) {
    forall k :: k in db.keys ==> db.keys[k].keyHash != keyHash
  }

  predicate KeyOf(db: Db, k: Id, tenantId: Id) {
    k in db.keys && db.keys[k].tenantId == tenantId
  }

  /** What a request needs. */
  ghost predicate Permitted(db: Db, a: Action) {
    match a
    case Create(_, name, d) =>
      Fits(name) && FreeHash(db, d.keyHash) && forall t :: t in db.tenants ==> db.tenants[t].schemaName != "tenant_" + d.hex
    case NameTenant(user, id, name) => IsOwner(db, user, id) && (name.Some? ==> GoodName(name.value))
    case OwnerDelete(user, id) => IsOwner(db, user, id)
    case AdminDelete(_, id) => id in db.tenants
    case PurgeTenant(_, id) =>
      id in db.tenants && db.tenants[id].status == DELETING && MatchesSchemaPattern(db.tenants[id].schemaName)
    case NewKey(user, id, name, _, h) => IsOwner(db, user, id) && Fits(name) && FreeHash(db, h)
    case Revoke(user, id, k) => IsOwner(db, user, id) && KeyOf(db, k, id)
    case AdminRevoke(_, k) => k in db.keys
    case Rename(user, id, k, name) => IsOwner(db, user, id) && KeyOf(db, k, id) && !db.keys[k].isSystem && GoodName(name)
    case EditMembers(_) => true
    case Provision(_) => true
  }

  lemma StoredIffFits(name: string)
    ensures Stored(name).Some? <==> Fits(name)
    ensures Stored(name).Some? ==> Stored(name).value == if |name| <= 255 then name else name[..255]
  {
  }

  lemma OwnerCheckIffOwner(db: Db, user: Id, id: Id)
    ensures OwnerCheck(db, user, id) == None <==> IsOwner(db, user, id)
    ensures OwnerCheck(db, user, id) == Some(Forbidden) <==>
      id in db.tenants && TenantMember(user, id, MEMBER) in db.members && TenantMember(user, id, OWNER) !in db.members
    ensures OwnerCheck(db, user, id) in {None, Some(Forbidden), Some(NotFound)}
  {
  }

  /** A request is done if and only if it is permitted; one that is not changes nothing. */
  lemma DoneIffPermitted(db: Db, a: Action)
    requires Enabled(db, a)
    ensures !Step(db, a).0.Refused? <==> Permitted(db, a)
    ensures !Permitted(db, a) ==> Step(db, a).1 == db
    ensures Step(db, a).0.Purged? ==> a.PurgeTenant?
    ensures a.PurgeTenant? && Permitted(db, a) ==> Step(db, a).0 == Purged(db.tenants[a.tenantId].schemaName in db.schemas)
  {
    match a
    case Create(_, name, _) => StoredIffFits(name);
    case NewKey(user, id, name, _, _) =>
      StoredIffFits(name);
      OwnerCheckIffOwner(db, user, id);
    case NameTenant(user, id, _) => OwnerCheckIffOwner(db, user, id);
    case OwnerDelete(user, id) => OwnerCheckIffOwner(db, user, id);
    case Revoke(user, id, _) => OwnerCheckIffOwner(db, user, id);
    case Rename(user, id, _, _) => OwnerCheckIffOwner(db, user, id);
    case _ =>
  }

  /** The error of a tenant request that is no owner's: a plain member of an existing tenant
      is forbidden, anyone else finds nothing. */
  lemma OthersAreRefused(db: Db, a: Action)
    requires Enabled(db, a) && (a.NameTenant? || a.OwnerDelete? || a.NewKey? || a.Revoke? || a.Rename?)
    requires !IsOwner(db, a.user, a.tenantId)
    ensures Step(db, a) ==
      (Refused(if a.tenantId in db.tenants && TenantMember(a.user, a.tenantId, MEMBER) in db.members then Forbidden else NotFound), db)
  {
    OwnerCheckIffOwner(db, a.user, a.tenantId);
  }

  /** The errors of an owner's and an admin's requests, in their order. */
  lemma ErrorsInOrder(db: Db, a: Action)
    requires Enabled(db, a) && !Permitted(db, a)
    requires (a.NameTenant? || a.OwnerDelete? || a.NewKey? || a.Revoke? || a.Rename?) ==> IsOwner(db, a.user, a.tenantId)
    ensures Step(db, a).0 == Refused(
      match a
      case Create(_, name, _) => if Fits(name) then Duplicate else TooLong
      case NewKey(_, _, name, _, _) => if Fits(name) then Duplicate else TooLong
      case NameTenant(_, _, _) => BadName
      case Rename(_, id, k, _) => if !KeyOf(db, k, id) then NotFound else if db.keys[k].isSystem then Forbidden else BadName
      case PurgeTenant(_, id) =>
        if id !in db.tenants then NotFound else if db.tenants[id].status != DELETING then Conflict else BadSchemaName
      case _ => NotFound)
  {
    match a
    case Create(_, name, _) => StoredIffFits(name);
    case NewKey(_, _, name, _, _) => StoredIffFits(name);
    case _ =>
  }

  /** The prefix, eight hex digits, and a final newline if there is one. */
  predicate SchemaNameOf(s: string, hex: string) {
    && |hex| == 8 && (forall i :: 0 <= i < 8 ==> hex[i] in "0123456789abcdef")
    && (s == "tenant_" + hex || s == "tenant_" + hex + "\n")
  }

  /** The schema names a purge accepts. */
  lemma PatternMeans(s: string)
    ensures MatchesSchemaPattern(s) <==> exists hex :: SchemaNameOf(s, hex)
  {
    forall c: char ensures IsHex(c) <==> c in "0123456789abcdef" {
      HexDigits(c);
    }
    if MatchesSchemaPattern(s) {
      var hex := s[7..15];
      assert s == s[..7] + hex + s[15..];
      assert forall i :: 0 <= i < 8 ==> IsHex(hex[i]);
      assert SchemaNameOf(s, hex);
    }
    if hex :| SchemaNameOf(s, hex) {
      assert s[..7] == "tenant_" && s[7..15] == hex;
      assert forall i :: 0 <= i < 8 ==> IsHex(hex[i]);
    }
  }

  lemma HexDigits(c: char)
    ensures IsHex(c) <==> c in "0123456789abcdef"
  {
    var digits := "0123456789abcdef";
    if '0' <= c <= '9' {
      assert digits[c as int - '0' as int] == c;
    } else if 'a' <= c <= 'f' {
      assert digits[c as int - 'a' as int + 10] == c;
    }
  }

  /** What str.strip takes for white space. */
  lemma SpacesAre(c: char)
    ensures IsSpace(c) <==> var n := c as int;
      || 9 <= n <= 13 || 28 <= n <= 32 || n in {133, 160, 5760, 8232, 8233, 8239, 8287, 12288} || 8192 <= n <= 8202
  {
  }

  // ----- What a done request leaves -----

  /** The key a done request adds. */
  function KeyMade(a: Action): Option<ApiKey> {
    match a
    case Create(_, _, d) => Some(ApiKey(d.keyId, d.tenantId, d.keyHash, "system-proxy-key", true))
    case NewKey(_, id, name, k, h) => Some(ApiKey(k, id, h, if |name| <= 255 then name else name[..255], false))
    case _ => None
  }

  /** The tenant a done request adds. */
  function TenantMade(a: Action): Option<Tenant> {
    match a
    case Create(_, name, d) => Some(Tenant(d.tenantId, if |name| <= 255 then name else name[..255], "tenant_" + d.hex, ACTIVE, d.now))
    case _ => None
  }

  lemma DoneCreate(db: Db, a: Action)
    requires Enabled(db, a) && Permitted(db, a) && a.Create?
    ensures var t := Step(db, a).1;
      && t.tenants.Keys == db.tenants.Keys + {a.draw.tenantId} && t.tenants[a.draw.tenantId] == TenantMade(a).value
      && t.keys.Keys == db.keys.Keys + {a.draw.keyId} && t.keys[a.draw.keyId] == KeyMade(a).value
      && t.members == db.members + {TenantMember(a.owner, a.draw.tenantId, OWNER)}
      && (forall id :: id in db.tenants ==> t.tenants[id] == db.tenants[id])
      && (forall k :: k in db.keys ==> t.keys[k] == db.keys[k])
      && t.schemas == db.schemas && t.audit == db.audit
  {
    StoredIffFits(a.name);
  }

  /** The new tenant has one key, and it is a system key. */
  lemma CreateMakesOneSystemKey(db: Db, a: Action, k: Id)
    requires KeysOk(db) && Enabled(db, a) && Permitted(db, a) && a.Create?
    ensures KeyOf(Step(db, a).1, k, a.draw.tenantId) <==> k == a.draw.keyId
    ensures Step(db, a).1.keys[a.draw.keyId].isSystem
  {
    DoneCreate(db, a);
  }

  lemma DoneNewKey(db: Db, a: Action)
    requires Enabled(db, a) && Permitted(db, a) && a.NewKey?
    ensures Step(db, a).1 == db.(keys := db.keys[a.keyId := KeyMade(a).value])
  {
    StoredIffFits(a.name);
  }

  /** A done rename leaves the name without the white space around it, and nothing else. */
  lemma DoneRename(db: Db, a: Action, k: Id)
    requires Enabled(db, a) && Permitted(db, a) && a.Rename? && k in db.keys
    ensures var t := Step(db, a).1;
      && t == db.(keys := t.keys) && t.keys.Keys == db.keys.Keys
      && t.keys[k] == if k == a.keyId then db.keys[k].(name := Strip(a.name)) else db.keys[k]
  {
  }

  lemma DoneRevoke(db: Db, a: Action)
    requires Enabled(db, a) && Permitted(db, a) && (a.Revoke? || a.AdminRevoke?)
    ensures var t := Step(db, a).1;
      && t.keys == db.keys - {a.keyId} && t.tenants == db.tenants && t.members == db.members && t.schemas == db.schemas
  {
  }

  /** The name and the status of every tenant after a done request. */
  lemma DoneOnTenants(db: Db, a: Action, id: Id)
    requires Enabled(db, a) && Permitted(db, a) && !a.Create? && id in db.tenants
    ensures var t := Step(db, a).1;
      && t.tenants.Keys == db.tenants.Keys
      && t.tenants[id].status == (
           if (a.OwnerDelete? || a.AdminDelete?) && a.tenantId == id then DELETING
           else if a.PurgeTenant? && a.tenantId == id then DELETED else db.tenants[id].status)
      && t.tenants[id].name == (
           if a.NameTenant? && a.tenantId == id && a.newName.Some? then Strip(a.newName.value) else db.tenants[id].name)
      && t.tenants[id] == db.tenants[id].(name := t.tenants[id].name, status := t.tenants[id].status)
  {
  }

  /** Only the requests named change the members and the schemas. */
  lemma DoneElsewhere(db: Db, a: Action)
    requires Enabled(db, a) && Permitted(db, a)
    ensures var t := Step(db, a).1;
      && (!a.Create? && !a.EditMembers? ==> t.members == db.members)
      && (a.EditMembers? ==> t == db.(members := a.members))
      && (a.Provision? ==> t == db.(schemas := db.schemas + {a.schema}))
      && (a.PurgeTenant? ==> t.schemas == db.schemas - {db.tenants[a.tenantId].schemaName})
      && (!a.PurgeTenant? && !a.Provision? ==> t.schemas == db.schemas)
      && (!(a.Create? || a.NewKey? || a.Revoke? || a.AdminRevoke? || a.Rename?) ==> t.keys == db.keys)
  {
  }

  // ----- Where keys come from -----

  /** The two keys differ at most in their name, which an owner's rename then gave. */
  ghost predicate SameButRenamed(db: Db, run: seq<Action>, before: ApiKey, after: ApiKey) {
    && after == before.(name := after.name)
    && (after.name == before.name || OwnerRenames(db, run, before.id, before.tenantId, after.name))
  }

  /** Some permitted request of the run made the key: the creation of its tenant, or a new key
      of an owner of its tenant; and only owners' renames have changed its name since. */
  ghost predicate MadeIn(db: Db, run: seq<Action>, key: ApiKey)
    decreases |run|
  {
    run != [] && (
      || (Permitted(db, run[0]) && KeyMade(run[0]).Some?
          && SameButRenamed(Step(db, run[0]).1, run[1..], KeyMade(run[0]).value, key))
      || MadeIn(Step(db, run[0]).1, run[1..], key))
  }

  lemma StepMakesKey(db: Db, a: Action, k: Id)
    requires Enabled(db, a) && k !in db.keys && k in Step(db, a).1.keys
    ensures Permitted(db, a) && KeyMade(a) == Some(Step(db, a).1.keys[k])
  {
    DoneIffPermitted(db, a);
    match a
    case Create(_, _, _) => DoneCreate(db, a);
    case NewKey(_, _, _, _, _) => DoneNewKey(db, a);
    case _ =>
  }

  /** Over a run every key was there before or was made by such a request, with the hash and
      the tenant it has; its name is the one it was given or an owner's rename of it. */
  lemma {:induction false} KeysAreMade(db: Db, run: seq<Action>, t: Db, k: Id)
    requires KeysOk(db) && Steps(db, run, t) && k in t.keys
    ensures (k in db.keys && SameButRenamed(db, run, db.keys[k], t.keys[k])) || MadeIn(db, run, t.keys[k])
    decreases |run|
  {
    if run != [] {
      var m := Step(db, run[0]).1;
      StepKeepsKeysOk(db, run[0]);
      KeysAreMade(m, run[1..], t, k);
      if k in m.keys && k in db.keys {
        StepChangesKey(db, run[0], k);
      } else if k in m.keys {
        StepMakesKey(db, run[0], k);
      }
    }
  }

  // ----- Where tenants come from -----

  /** Some permitted creation of the run made the tenant; its name is the one it was given or
      an owner's rename of it. */
  ghost predicate FoundedIn(db: Db, run: seq<Action>, tenant: Tenant)
    decreases |run|
  {
    run != [] && (
      || (Permitted(db, run[0]) && TenantMade(run[0]).Some?
          && tenant == TenantMade(run[0]).value.(name := tenant.name, status := tenant.status)
          && (tenant.name == TenantMade(run[0]).value.name || OwnerNames(Step(db, run[0]).1, run[1..], tenant.id, tenant.name)))
      || FoundedIn(Step(db, run[0]).1, run[1..], tenant))
  }

  lemma StepFoundsTenant(db: Db, a: Action, id: Id)
    requires Enabled(db, a) && id !in db.tenants && id in Step(db, a).1.tenants
    ensures Permitted(db, a) && TenantMade(a) == Some(Step(db, a).1.tenants[id])
  {
    DoneIffPermitted(db, a);
    if a.Create? {
      DoneCreate(db, a);
    }
  }

  /** Over a run every tenant that was not there before was founded by a creation. */
  lemma {:induction false} TenantsAreFounded(db: Db, run: seq<Action>, t: Db, id: Id)
    requires Steps(db, run, t) && id in t.tenants && id !in db.tenants
    ensures FoundedIn(db, run, t.tenants[id])
    decreases |run|
  {
    if run != [] {
      var m := Step(db, run[0]).1;
      if id in m.tenants {
        StepFoundsTenant(db, run[0], id);
        TenantChangesAreAuthorised(m, run[1..], t, id);
      } else {
        TenantsAreFounded(m, run[1..], t, id);
      }
    }
  }

  // ----- Where audit rows come from -----

  /** The audit rows of a request: one if it is a permitted one of an admin, which tells who
      asked, from where, and about what. */
  ghost function RowsOf(db: Db, a: Action): seq<Event> {
    if !Permitted(db, a) then [] else
    match a
    case AdminDelete(admin, id) =>
      [Event(Some(admin.userId), "hm.tenant.delete", "tenant", id, Some(map["name" := Text(db.tenants[id].name)]), admin.ip)]
    case PurgeTenant(admin, id) =>
      [Event(Some(admin.userId), "hm.tenant.purge", "tenant", id,
             Some(map["name" := Text(db.tenants[id].name), "schema_name" := Text(db.tenants[id].schemaName),
                      "schema_dropped" := Flag(db.tenants[id].schemaName in db.schemas)]), admin.ip)]
    case AdminRevoke(admin, k) =>
      [Event(Some(admin.userId), "hm.api_key.revoke", "api_key", k,
             Some(map["name" := Text(db.keys[k].name), "tenant_id" := Ref(db.keys[k].tenantId)]), admin.ip)]
    case _ => []
  }

  ghost function Trail(db: Db, run: seq<Action>): seq<Event>
    decreases |run|
  {
    if run == [] then [] else RowsOf(db, run[0]) + Trail(Step(db, run[0]).1, run[1..])
  }

  lemma StepLeavesRows(db: Db, a: Action)
    requires Enabled(db, a)
    ensures Step(db, a).1.audit == db.audit + RowsOf(db, a)
  {
    DoneIffPermitted(db, a);
  }

  /** The audit rows of a run are those of its requests, in their order: each permitted request
      of an admin leaves one, with the admin and the address, and nothing else leaves any. */
  lemma {:induction false} AuditIsTheTrail(db: Db, run: seq<Action>, t: Db)
    requires Steps(db, run, t)
    ensures t.audit == db.audit + Trail(db, run)
    decreases |run|
  {
    if run != [] {
      StepLeavesRows(db, run[0]);
      AuditIsTheTrail(Step(db, run[0]).1, run[1..], t);
    }
  }
}
