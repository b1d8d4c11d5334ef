/** What one Prisma call on `sync_operations`, the idempotency ledger, does: the
    specification of both sync repositories (the `PrismaSyncRepository` class and the
    functions of `sync.repository.ts`). */
module LedgerTables {
  import opened Prelude
  import opened Domain
  import opened JsValues

  /** `CreateSyncOperationData`: what the reconcilers record about one decided operation.
      The entity type, client id, operation and payload are the values the client sent. */
  datatype CreateSyncOperationData = CreateSyncOperationData(
    userId: int,
    deviceId: string,
    opId: string,
    entityType: Json,
    entityClientId: Option<Json>,
    operation: Json,
    payload: Json,
    baseVersion: Option<int>,
    result: SyncResult)

  function OpKey(deviceId: string, opId: string): SyncRecord -> bool {
    (r: SyncRecord) => r.deviceId == deviceId && r.opId == opId
  }

  /** `findFirst({ where: { device_id, op_id } })`: the first ledger row of that device and
      operation id, whichever user wrote it. */
  function FindByDeviceAndOpId(t: Tables, deviceId: string, opId: string): (r: Option<SyncRecord>)
    ensures r.Some? ==> r.value.deviceId == deviceId && r.value.opId == opId
  {
    var k := FirstMatch(t.ledger, OpKey(deviceId, opId));
    if k.Some? then Some(t.ledger[k.value]) else None
  }

  /** The lookup finds a row of the ledger with that device and operation id, the earliest
      one, and finds nothing exactly when the ledger holds no such row. */
  lemma LedgerLookupMeaning(t: Tables, deviceId: string, opId: string)
    ensures var r := FindByDeviceAndOpId(t, deviceId, opId);
      && (r.Some? ==> exists k :: 0 <= k < |t.ledger| && t.ledger[k] == r.value
                       && (forall j :: 0 <= j < k ==> !(t.ledger[j].deviceId == deviceId && t.ledger[j].opId == opId)))
      && (r.Some? ==> r.value.deviceId == deviceId && r.value.opId == opId)
      && (r.None? <==> forall k :: 0 <= k < |t.ledger| ==> !(t.ledger[k].deviceId == deviceId && t.ledger[k].opId == opId))
  {
    var m := FirstMatch(t.ledger, OpKey(deviceId, opId));
    if m.Some? {
      assert t.ledger[m.value] == FindByDeviceAndOpId(t, deviceId, opId).value;
    }
  }

  /** `sync_operations.create`: appends one row holding the given values, a missing client
      id stored as `null`; nothing else changes. */
  function CreateSyncOperation(t: Tables, data: CreateSyncOperationData): (r: Effect<SyncRecord>)
    ensures r.db == t.(ledger := t.ledger + [r.out])
    ensures r.out == SyncRecord(data.userId, data.deviceId, data.opId, data.entityType,
      Coalesce(data.entityClientId, JNull), data.operation, data.payload, data.baseVersion, data.result)
    ensures r.out.result == data.result
  {
    var row := SyncRecord(
      userId := data.userId,
      deviceId := data.deviceId,
      opId := data.opId,
      entityType := data.entityType,
      entityClientId := Coalesce(data.entityClientId, JNull),
      operation := data.operation,
      payload := data.payload,
      baseVersion := data.baseVersion,
      result := data.result);
    Effect(t.(ledger := t.ledger + [row]), row)
  }

  /** A ledger insert keeps every earlier row in place and every other table as it was, and
      the new last row is keyed by the given device and operation id with the given result. */
  lemma LedgerInsertAppendsOneRow(t: Tables, data: CreateSyncOperationData)
    ensures var r := CreateSyncOperation(t, data).db;
      && |r.ledger| == |t.ledger| + 1
      && (forall i :: 0 <= i < |t.ledger| ==> r.ledger[i] == t.ledger[i])
      && r.ledger[|t.ledger|].deviceId == data.deviceId
      && r.ledger[|t.ledger|].opId == data.opId
      && r.ledger[|t.ledger|].userId == data.userId
      && r.ledger[|t.ledger|].result == data.result
      && r.tasks == t.tasks && r.events == t.events && r.versions == t.versions
      && r.workspaces == t.workspaces && r.members == t.members && r.invitations == t.invitations
  {
  }

  /** Once recorded, an operation is found by its (device, operation id) pair; when it was
      not yet in the ledger, the row found is the one just written. */
  lemma {:induction false} RecordedOperationIsFound(t: Tables, data: CreateSyncOperationData)
    ensures FindByDeviceAndOpId(CreateSyncOperation(t, data).db, data.deviceId, data.opId).Some?
    ensures FindByDeviceAndOpId(t, data.deviceId, data.opId).None? ==>
      FindByDeviceAndOpId(CreateSyncOperation(t, data).db, data.deviceId, data.opId) == Some(CreateSyncOperation(t, data).out)
    ensures FindByDeviceAndOpId(t, data.deviceId, data.opId).Some? ==>
      FindByDeviceAndOpId(CreateSyncOperation(t, data).db, data.deviceId, data.opId) == FindByDeviceAndOpId(t, data.deviceId, data.opId)
  {
    var r := CreateSyncOperation(t, data);
    FirstMatchAppend(t.ledger, [r.out], OpKey(data.deviceId, data.opId));
    assert FirstMatch([r.out], OpKey(data.deviceId, data.opId)) == Some(0);
  }

  /** Appending a row never changes what an earlier lookup found. */
  lemma {:induction false} LedgerLookupStable(t: Tables, data: CreateSyncOperationData, deviceId: string, opId: string)
    requires FindByDeviceAndOpId(t, deviceId, opId).Some?
    ensures FindByDeviceAndOpId(CreateSyncOperation(t, data).db, deviceId, opId) == FindByDeviceAndOpId(t, deviceId, opId)
  {
    var r := CreateSyncOperation(t, data);
    FirstMatchAppend(t.ledger, [r.out], OpKey(deviceId, opId));
  }

  /** A lookup that found a row keeps finding it however many rows are appended later. */
  lemma LedgerGrowthKeepsFinds(t: Tables, u: Tables, deviceId: string, opId: string)
    requires |t.ledger| <= |u.ledger| && u.ledger[..|t.ledger|] == t.ledger
    requires FindByDeviceAndOpId(t, deviceId, opId).Some?
    ensures FindByDeviceAndOpId(u, deviceId, opId) == FindByDeviceAndOpId(t, deviceId, opId)
  {
    assert u.ledger == t.ledger + u.ledger[|t.ledger|..];
    FirstMatchAppend(t.ledger, u.ledger[|t.ledger|..], OpKey(deviceId, opId));
  }
}
