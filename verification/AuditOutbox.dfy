// hindsight_manager/services/audit_outbox_service.py: the local outbox of audit events.

module AuditOutbox {
  import opened Common
  import opened Models

  type RowId = string   // the text of the row's UUID

  const MAX_ATTEMPTS: nat := 5
  const BATCH: nat := 100
  const CLIENT_ID := "hm-prod"

  datatype OutboxStatus = PENDING | DELIVERED | FAILED

  datatype Row = Row(id: RowId, event: Event, idempotencyKey: Option<string>,
                     status: OutboxStatus, attempts: nat, lastError: Option<string>)

  /** What push_audit is given. */
  datatype Message = Message(clientId: string, event: Event, idempotencyKey: string)

  /** What one call of push_audit did, as the loop sees it. */
  datatype Push = Returned | Raised(error: string)

  /** How an HTTP request to the platform ends. */
  datatype HttpResult = Response(status: nat) | HttpError(error: string)

  /** The shipped push_audit: an error status and an exception are logged and ignored. */
  function PushAudit(r: HttpResult): Push {
    match r
    case Response(_) => Returned
    case HttpError(_) => Returned
  }

  function Cut(s: string, n: nat): string {
    if |s| <= n then s else s[..n]
  }

  /** The key the receiver is given; an empty key counts as none. */
  function WireKey(r: Row): string {
    if r.idempotencyKey.Some? && r.idempotencyKey.value != "" then r.idempotencyKey.value else r.id
  }

  /** The row as it is sent: no detail is sent as an empty one. */
  function WireMessage(r: Row): Message {
    var detail := if r.event.detail.Some? then r.event.detail.value else map[];
    Message(CLIENT_ID, r.event.(detail := Some(detail)), WireKey(r))
  }

  /** What is sent of a row is its event, field by field, under its key or else its id. */
  lemma MessageTellsTheEvent(r: Row)
    ensures var m := WireMessage(r);
      && m.clientId == "hm-prod" && m.event.userId == r.event.userId && m.event.action == r.event.action
      && m.event.resourceType == r.event.resourceType && m.event.resourceId == r.event.resourceId
      && m.event.ipAddress == r.event.ipAddress
      && (r.event.detail.Some? ==> m.event.detail == r.event.detail)
      && (r.event.detail.None? ==> m.event.detail == Some(map[]))
      && (r.idempotencyKey == None || r.idempotencyKey == Some("") ==> m.idempotencyKey == r.id)
      && (r.idempotencyKey.Some? && r.idempotencyKey.value != "" ==> m.idempotencyKey == r.idempotencyKey.value)
  {
  }

  predicate Selectable(r: Row) {
    r.status == PENDING && r.attempts < MAX_ATTEMPTS
  }

  function NewRow(id: RowId, event: Event, key: Option<string>): Row {
    Row(id, event, key, PENDING, 0, None)
  }

  /** The row after its push. */
  function Attempt(r: Row, push: Push): Row {
    match push
    case Returned => r.(status := DELIVERED)
    case Raised(e) =>
      r.(attempts := r.attempts + 1, lastError := Some(Cut(e, 500)),
         status := if r.attempts + 1 >= MAX_ATTEMPTS then FAILED else r.status)
  }

  function CountReturned(pushes: seq<Push>): nat {
    if pushes == [] then 0
    else CountReturned(pushes[..|pushes| - 1]) + if pushes[|pushes| - 1] == Returned then 1 else 0
  }

  class OutboxRow {
    const id: RowId
    const event: Event
    const idempotencyKey: Option<string>
    var status: OutboxStatus
    var attempts: nat
    var lastError: Option<string>

    function Value(): Row reads this {
      Row(id, event, idempotencyKey, status, attempts, lastError)
    }

    /** enqueue_audit */
    constructor Enqueue(id: RowId, event: Event, idempotencyKey: Option<string>)
      ensures Value() == NewRow(id, event, idempotencyKey)
      ensures this.id == id && this.event == event && this.idempotencyKey == idempotencyKey
      ensures status == PENDING && attempts == 0 && lastError == None
    {
      this.id, this.event, this.idempotencyKey := id, event, idempotencyKey;
      status, attempts, lastError := PENDING, 0, None;
    }

    /** The row after its push ended. */
    method Settle(push: Push)
      modifies this
      ensures Value() == Attempt(old(Value()), push)
      ensures push == Returned ==> status == DELIVERED && attempts == old(attempts) && lastError == old(lastError)
      ensures push.Raised? ==> attempts == old(attempts) + 1 && status == if attempts >= 5 then FAILED else old(status)
      ensures push.Raised? ==> lastError.Some? && lastError.value <= push.error && |lastError.value| == Min(500, |push.error|)
    {
      match push
      case Returned =>
        status := DELIVERED;
      case Raised(e) =>
        attempts := attempts + 1;
        lastError := Some(Cut(e, 500));
        if attempts >= MAX_ATTEMPTS {
          status := FAILED;
        }
    }
  }

  /** One round over the selected rows. `pushes` says how each call of the client ends;
      `sent` is what it was called with. */
  method AuditRetryOnce(pending: seq<OutboxRow>, pushes: seq<Push>) returns (delivered: nat, sent: seq<Message>)
    requires |pushes| == |pending|
    requires forall i, j :: 0 <= i < j < |pending| ==> pending[i] != pending[j]
    modifies pending
    ensures forall i :: 0 <= i < |pending| ==> pending[i].Value() == Attempt(old(pending[i].Value()), pushes[i])
    ensures delivered == CountReturned(pushes)
    ensures |sent| == |pending| && forall i :: 0 <= i < |sent| ==> sent[i] == WireMessage(old(pending[i].Value()))
    ensures forall i :: 0 <= i < |pending| ==>
      && sent[i].clientId == "hm-prod" && sent[i].event == pending[i].event.(detail := sent[i].event.detail)
      && sent[i].event.detail == Some(if pending[i].event.detail.Some? then pending[i].event.detail.value else map[])
  {
    delivered, sent := 0, [];
    for i := 0 to |pending|
      invariant delivered == CountReturned(pushes[..i]) && |sent| == i
      invariant forall j :: 0 <= j < i ==> pending[j].Value() == Attempt(old(pending[j].Value()), pushes[j])
      invariant forall j :: i <= j < |pending| ==> pending[j].Value() == old(pending[j].Value())
      invariant forall j :: 0 <= j < i ==> sent[j] == WireMessage(old(pending[j].Value()))
    {
      var row := pending[i];
      sent := sent + [WireMessage(row.Value())];
      row.Settle(pushes[i]);
      delivered := delivered + if pushes[i] == Returned then 1 else 0;
      assert pushes[..i + 1][..i] == pushes[..i];
    }
    assert pushes[..|pushes|] == pushes;
  }
}
