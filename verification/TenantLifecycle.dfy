// The life of tenants and their API keys: hindsight_manager/services/tenant_service.py,
// services/api_key_service.py, services/membership.py and the admin endpoints of
// hindsight_manager/api/admin.py. Every request is one transaction.

module TenantLifecycle {
  import opened Common
  import opened Models

  /** `audit` are the events enqueued in the outbox, oldest first. */
  datatype Db = Db(tenants: map<Id, Tenant>, members: set<TenantMember>, keys: map<Id, ApiKey>, schemas: set<Schema>,
                   audit: seq<Event>)

  /** The admin who sends a request, and from where. */
  datatype Caller = Caller(userId: Id, ip: Option<string>)

  datatype Error =
    | NotFound          // 404
    | Forbidden         // 403
    | Conflict          // 409: the tenant is not DELETING
    | BadSchemaName     // 500
    | BadName           // 422
    | TooLong           // the name does not fit its column and the transaction rolls back
    | Duplicate         // a UNIQUE constraint fails and the transaction rolls back

  datatype Answer = Done | Purged(schemaDropped: bool) | Refused(error: Error)

  const SYSTEM_KEY_NAME := "system-proxy-key"

  predicate IsHex(c: char) {
    '0' <= c <= '9' || 'a' <= c <= 'f'
  }

  predicate IsHex8(s: string) {
    |s| == 8 && forall i :: 0 <= i < 8 ==> IsHex(s[i])
  }

  /** ^tenant_[a-f0-9]{8}$, where Python's $ also stands before a final newline. */
  predicate MatchesSchemaPattern(s: string) {
    && |s| >= 15 && s[..7] == "tenant_" && IsHex8(s[7..15])
    && (|s| == 15 || s[15..] == "\n")
  }

  const NAME_LENGTH := 255

  /** What VARCHAR(255) stores of a name: spaces past the end are cut, a longer text is an error. */
  function Stored(name: string): (r: Option<string>)
    ensures r.Some? ==> r.value <= name && |r.value| <= NAME_LENGTH
    ensures r.None? <==> exists i :: NAME_LENGTH <= i < |name| && name[i] != ' '
  {
    if |name| <= NAME_LENGTH then Some(name)
    else if forall i :: NAME_LENGTH <= i < |name| ==> name[i] == ' ' then Some(name[..NAME_LENGTH])
    else None
  }

  predicate HashTaken(db: Db, keyHash: string) {
    exists k :: k in db.keys && db.keys[k].keyHash == keyHash
  }

  predicate SchemaTaken(db: Db, schema: Schema) {
    exists t :: t in db.tenants && db.tenants[t].schemaName == schema
  }

  function WithStatus(db: Db, id: Id, status: TenantStatus): Db
    requires id in db.tenants
  {
    db.(tenants := db.tenants[id := db.tenants[id].(status := status)])
  }

  /** What create_tenant draws at random, and the times and ids the database assigns. */
  datatype Draw = Draw(tenantId: Id, hex: string, keyId: Id, keyHash: string, now: int)

  function CreateTenant(db: Db, owner: Id, name: string, d: Draw): (Answer, Db) {
    var schema, stored := "tenant_" + d.hex, Stored(name);
    if stored.None? then (Refused(TooLong), db)
    else if SchemaTaken(db, schema) || HashTaken(db, d.keyHash) then (Refused(Duplicate), db)
    else (Done, db.(
      tenants := db.tenants[d.tenantId := Tenant(d.tenantId, stored.value, schema, ACTIVE, d.now)],
      members := db.members + {TenantMember(owner, d.tenantId, OWNER)},
      keys := db.keys[d.keyId := ApiKey(d.keyId, d.tenantId, d.keyHash, SYSTEM_KEY_NAME, true)]))
  }

  /** require_membership(require_owner=True); (user, tenant) is the key of the members. */
  function OwnerCheck(db: Db, user: Id, tenantId: Id): Option<Error> {
    if tenantId !in db.tenants then Some(NotFound)
    else if TenantMember(user, tenantId, OWNER) in db.members then None
    else if TenantMember(user, tenantId, MEMBER) in db.members then Some(Forbidden)
    else Some(NotFound)
  }

  function DeleteByOwner(db: Db, user: Id, tenantId: Id): (Answer, Db) {
    var e := OwnerCheck(db, user, tenantId);
    if e.Some? then (Refused(e.value), db) else (Done, WithStatus(db, tenantId, DELETING))
  }

  /** record_audit, as the admin endpoints call it. */
  function Audited(admin: Caller, action: string, resourceType: string, id: Id, detail: map<string, Json>): Event {
    Event(Some(admin.userId), action, resourceType, id, Some(detail), admin.ip)
  }

  function DeleteEvent(admin: Caller, id: Id, t: Tenant): Event {
    Audited(admin, "hm.tenant.delete", "tenant", id, map["name" := Text(t.name)])
  }

  function PurgeEvent(admin: Caller, id: Id, t: Tenant, dropped: bool): Event {
    Audited(admin, "hm.tenant.purge", "tenant", id,
            map["name" := Text(t.name), "schema_name" := Text(t.schemaName), "schema_dropped" := Flag(dropped)])
  }

  function RevokeEvent(admin: Caller, id: Id, k: ApiKey): Event {
    Audited(admin, "hm.api_key.revoke", "api_key", id, map["name" := Text(k.name), "tenant_id" := Ref(k.tenantId)])
  }

  function DeleteByAdmin(db: Db, admin: Caller, tenantId: Id): (Answer, Db) {
    if tenantId !in db.tenants then (Refused(NotFound), db)
    else (Done, WithStatus(db, tenantId, DELETING).(audit := db.audit + [DeleteEvent(admin, tenantId, db.tenants[tenantId])]))
  }

  function Purge(db: Db, admin: Caller, tenantId: Id): (Answer, Db) {
    if tenantId !in db.tenants then (Refused(NotFound), db) else
    var t := db.tenants[tenantId];
    if t.status != DELETING then (Refused(Conflict), db)
    else if !MatchesSchemaPattern(t.schemaName) then (Refused(BadSchemaName), db)
    else
      var dropped := t.schemaName in db.schemas;
      (Purged(dropped), WithStatus(db, tenantId, DELETED)
        .(schemas := db.schemas - {t.schemaName}, audit := db.audit + [PurgeEvent(admin, tenantId, t, dropped)]))
  }

  function CreateKey(db: Db, user: Id, tenantId: Id, name: string, keyId: Id, keyHash: string): (Answer, Db) {
    var e := OwnerCheck(db, user, tenantId);
    if e.Some? then (Refused(e.value), db)
    else if Stored(name).None? then (Refused(TooLong), db)
    else if HashTaken(db, keyHash) then (Refused(Duplicate), db)
    else (Done, db.(keys := db.keys[keyId := ApiKey(keyId, tenantId, keyHash, Stored(name).value, false)]))
  }

  function RevokeKey(db: Db, user: Id, tenantId: Id, keyId: Id): (Answer, Db) {
    var e := OwnerCheck(db, user, tenantId);
    if e.Some? then (Refused(e.value), db)
    else if keyId !in db.keys || db.keys[keyId].tenantId != tenantId then (Refused(NotFound), db)
    else (Done, db.(keys := db.keys - {keyId}))
  }

  function RevokeKeyByAdmin(db: Db, admin: Caller, keyId: Id): (Answer, Db) {
    if keyId !in db.keys then (Refused(NotFound), db)
    else (Done, db.(keys := db.keys - {keyId}, audit := db.audit + [RevokeEvent(admin, keyId, db.keys[keyId])]))
  }

  /** The characters str.strip removes. */
  predicate IsSpace(c: char) {
    || '\t' <= c <= '\r' || '\U{1c}' <= c <= ' ' || c == '\U{85}' || c == '\U{a0}' || c == '\U{1680}'
    || '\U{2000}' <= c <= '\U{200a}' || c == '\U{2028}' || c == '\U{2029}' || c == '\U{202f}'
    || c == '\U{205f}' || c == '\U{3000}'
  }

  /** The first position from i on that is not white space. */
  function SkipRight(s: string, i: nat): (r: nat)
    requires i <= |s|
    ensures i <= r <= |s|
    ensures forall k :: i <= k < r ==> IsSpace(s[k])
    ensures r < |s| ==> !IsSpace(s[r])
    decreases |s| - i
  {
    if i < |s| && IsSpace(s[i]) then SkipRight(s, i + 1) else i
  }

  /** The end of what is left of s[lo..j] without the white space at its end. */
  function SkipLeft(s: string, lo: nat, j: nat): (r: nat)
    requires lo <= j <= |s|
    ensures lo <= r <= j
    ensures forall k :: r <= k < j ==> IsSpace(s[k])
    ensures r > lo ==> !IsSpace(s[r - 1])
  {
    if j > lo && IsSpace(s[j - 1]) then SkipLeft(s, lo, j - 1) else j
  }

  /** str.strip: white space removed from both ends, all of it, and nothing else. */
  function Strip(s: string): (r: string)
    ensures r != [] ==> !IsSpace(r[0]) && !IsSpace(r[|r| - 1])
    ensures exists lo: nat, hi: nat ::
      && lo <= hi <= |s| && r == s[lo..hi]
      && forall k :: 0 <= k < |s| && !(lo <= k < hi) ==> IsSpace(s[k])
  {
    var lo := SkipRight(s, 0);
    var hi := SkipLeft(s, lo, |s|);
    s[lo..hi]
  }

  function RenameKey(db: Db, user: Id, tenantId: Id, keyId: Id, name: string): (Answer, Db) {
    var e := OwnerCheck(db, user, tenantId);
    if e.Some? then (Refused(e.value), db)
    else if keyId !in db.keys || db.keys[keyId].tenantId != tenantId then (Refused(NotFound), db)
    else if db.keys[keyId].isSystem then (Refused(Forbidden), db)
    else if !(1 <= |Strip(name)| <= NAME_LENGTH) then (Refused(BadName), db)
    else (Done, db.(keys := db.keys[keyId := db.keys[keyId].(name := Strip(name))]))
  }

  function WithName(db: Db, id: Id, name: string): Db
    requires id in db.tenants
  {
    db.(tenants := db.tenants[id := db.tenants[id].(name := name)])
  }

  /** The name of a tenant in any status; a request may leave it as it is. */
  function RenameTenant(db: Db, user: Id, tenantId: Id, name: Option<string>): (Answer, Db) {
    var e := OwnerCheck(db, user, tenantId);
    if e.Some? then (Refused(e.value), db)
    else if name.None? then (Done, db)
    else if !(1 <= |Strip(name.value)| <= NAME_LENGTH) then (Refused(BadName), db)
    else (Done, WithName(db, tenantId, Strip(name.value)))
  }

  /** The database as the request handlers change it. */
  class Manager {
    var tenants: map<Id, Tenant>
    var members: set<TenantMember>
    var keys: map<Id, ApiKey>
    var schemas: set<Schema>
    var audit: seq<Event>

    function State(): Db reads this {
      Db(tenants, members, keys, schemas, audit)
    }

    constructor ()
      ensures State() == Db(map[], {}, map[], {}, [])
    {
      tenants, members, keys, schemas, audit := map[], {}, map[], {}, [];
    }

    method CreateTenantFor(owner: Id, name: string, d: Draw) returns (a: Answer)
      modifies this
      ensures (a, State()) == CreateTenant(old(State()), owner, name, d)
    {
      var schemaName, stored := "tenant_" + d.hex, Stored(name);
      if stored.None? {
        return Refused(TooLong);
      }
      if SchemaTaken(State(), schemaName) || HashTaken(State(), d.keyHash) {
        return Refused(Duplicate);
      }
      tenants := tenants[d.tenantId := Tenant(d.tenantId, stored.value, schemaName, ACTIVE, d.now)];
      members := members + {TenantMember(owner, d.tenantId, OWNER)};
      keys := keys[d.keyId := ApiKey(d.keyId, d.tenantId, d.keyHash, SYSTEM_KEY_NAME, true)];
      return Done;
    }

    /** The name in a PATCH of a tenant. */
    method UpdateTenantConfig(user: Id, tenantId: Id, name: Option<string>) returns (a: Answer)
      modifies this`tenants
      ensures (a, State()) == RenameTenant(old(State()), user, tenantId, name)
    {
      var e := OwnerCheck(State(), user, tenantId);
      if e.Some? {
        return Refused(e.value);
      }
      if name.Some? {
        var trimmed := Strip(name.value);
        if !(1 <= |trimmed| <= NAME_LENGTH) {
          return Refused(BadName);
        }
        tenants := tenants[tenantId := tenants[tenantId].(name := trimmed)];
      }
      return Done;
    }

    method SetStatus(tenantId: Id, status: TenantStatus)
      requires tenantId in tenants
      modifies this`tenants
      ensures State() == WithStatus(old(State()), tenantId, status)
    {
      tenants := tenants[tenantId := tenants[tenantId].(status := status)];
    }

    method DeleteTenant(user: Id, tenantId: Id) returns (a: Answer)
      modifies this`tenants
      ensures (a, State()) == DeleteByOwner(old(State()), user, tenantId)
    {
      var e := OwnerCheck(State(), user, tenantId);
      if e.Some? {
        return Refused(e.value);
      }
      SetStatus(tenantId, DELETING);
      return Done;
    }

    /** The audit row is written in the transaction of the change it tells of. */
    method RecordAudit(admin: Caller, action: string, resourceType: string, id: Id, detail: map<string, Json>)
      modifies this`audit
      ensures audit == old(audit) + [Audited(admin, action, resourceType, id, detail)]
    {
      audit := audit + [Event(Some(admin.userId), action, resourceType, id, Some(detail), admin.ip)];
    }

    method DeleteTenantAdmin(admin: Caller, tenantId: Id) returns (a: Answer)
      modifies this`tenants, this`audit
      ensures (a, State()) == DeleteByAdmin(old(State()), admin, tenantId)
    {
      if tenantId !in tenants {
        return Refused(NotFound);
      }
      var tenant := tenants[tenantId];
      SetStatus(tenantId, DELETING);
      RecordAudit(admin, "hm.tenant.delete", "tenant", tenantId, map["name" := Text(tenant.name)]);
      return Done;
    }

    method PurgeTenantAdmin(admin: Caller, tenantId: Id) returns (a: Answer)
      modifies this`tenants, this`schemas, this`audit
      ensures (a, State()) == Purge(old(State()), admin, tenantId)
    {
      if tenantId !in tenants {
        return Refused(NotFound);
      }
      var tenant := tenants[tenantId];
      if tenant.status != DELETING {
        return Refused(Conflict);
      }
      if !MatchesSchemaPattern(tenant.schemaName) {
        return Refused(BadSchemaName);
      }
      var schemaExisted := tenant.schemaName in schemas;
      if schemaExisted {
        schemas := schemas - {tenant.schemaName};
      }
      assert schemas == old(schemas) - {tenant.schemaName};
      SetStatus(tenantId, DELETED);
      RecordAudit(admin, "hm.tenant.purge", "tenant", tenantId,
        map["name" := Text(tenant.name), "schema_name" := Text(tenant.schemaName), "schema_dropped" := Flag(schemaExisted)]);
      return Purged(schemaExisted);
    }

    method CreateApiKey(user: Id, tenantId: Id, name: string, keyId: Id, keyHash: string) returns (a: Answer)
      modifies this`keys
      ensures (a, State()) == CreateKey(old(State()), user, tenantId, name, keyId, keyHash)
    {
      var e := OwnerCheck(State(), user, tenantId);
      if e.Some? {
        return Refused(e.value);
      }
      var stored := Stored(name);
      if stored.None? {
        return Refused(TooLong);
      }
      if HashTaken(State(), keyHash) {
        return Refused(Duplicate);
      }
      keys := keys[keyId := ApiKey(keyId, tenantId, keyHash, stored.value, false)];
      return Done;
    }

    method RevokeApiKey(user: Id, tenantId: Id, keyId: Id) returns (a: Answer)
      modifies this`keys
      ensures (a, State()) == RevokeKey(old(State()), user, tenantId, keyId)
    {
      var e := OwnerCheck(State(), user, tenantId);
      if e.Some? {
        return Refused(e.value);
      }
      if keyId !in keys || keys[keyId].tenantId != tenantId {
        return Refused(NotFound);
      }
      keys := keys - {keyId};
      return Done;
    }

    method RevokeApiKeyAdmin(admin: Caller, keyId: Id) returns (a: Answer)
      modifies this`keys, this`audit
      ensures (a, State()) == RevokeKeyByAdmin(old(State()), admin, keyId)
    {
      if keyId !in keys {
        return Refused(NotFound);
      }
      var key := keys[keyId];
      RecordAudit(admin, "hm.api_key.revoke", "api_key", keyId, map["name" := Text(key.name), "tenant_id" := Ref(key.tenantId)]);
      keys := keys - {keyId};
      return Done;
    }

    method UpdateApiKeyName(user: Id, tenantId: Id, keyId: Id, name: string) returns (a: Answer)
      modifies this`keys
      ensures (a, State()) == RenameKey(old(State()), user, tenantId, keyId, name)
    {
      var e := OwnerCheck(State(), user, tenantId);
      if e.Some? {
        return Refused(e.value);
      }
      if keyId !in keys || keys[keyId].tenantId != tenantId {
        return Refused(NotFound);
      }
      if keys[keyId].isSystem {
        return Refused(Forbidden);
      }
      var trimmed := Strip(name);
      if !(1 <= |trimmed| <= NAME_LENGTH) {
        return Refused(BadName);
      }
      keys := keys[keyId := keys[keyId].(name := trimmed)];
      return Done;
    }
  }
}
