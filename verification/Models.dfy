// The rows of the manager schema (hindsight_manager/models). Ids stand for their text.

module Models {
  import opened Common

  type Id = nat
  type Schema = string

  datatype TenantStatus = ACTIVE | DELETING | DELETED
  datatype MemberRole = OWNER | MEMBER

  datatype Tenant = Tenant(id: Id, name: string, schemaName: Schema, status: TenantStatus, createdAt: int)
  datatype TenantMember = TenantMember(userId: Id, tenantId: Id, role: MemberRole)
  datatype ApiKey = ApiKey(id: Id, tenantId: Id, keyHash: string, name: string, isSystem: bool)

  datatype Json = Text(text: string) | Flag(flag: bool) | Ref(id: Id)

  /** What an audit row tells: who did what to which resource, from where. */
  datatype Event = Event(userId: Option<Id>, action: string, resourceType: string, resourceId: Id,
                         detail: Option<map<string, Json>>, ipAddress: Option<string>)
}
