/** The free functions of `sync.repository.ts`: the ledger on the root client. */
module SyncRepositoryFunctions {
  import opened Prelude
  import opened Domain
  import opened JsValues
  import opened Store
  import LedgerTables

  method FindSyncOperation(deviceId: string, opId: string, db: Database) returns (r: Option<SyncRecord>)
    ensures r == LedgerTables.FindByDeviceAndOpId(db.State(), deviceId, opId)
    ensures r.Some? ==> r.value in db.ledger && r.value.deviceId == deviceId && r.value.opId == opId
  {
    r := LedgerTables.FindByDeviceAndOpId(db.State(), deviceId, opId);
  }

  method CreateSyncOperation(data: LedgerTables.CreateSyncOperationData, db: Database) returns (row: SyncRecord)
    modifies db
    ensures var e := LedgerTables.CreateSyncOperation(old(db.State()), data); db.State() == e.db && row == e.out
  {
    row := SyncRecord(
      userId := data.userId,
      deviceId := data.deviceId,
      opId := data.opId,
      entityType := data.entityType,
      entityClientId := Coalesce(data.entityClientId, JNull),
      operation := data.operation,
      payload := data.payload,
      baseVersion := data.baseVersion,
      result := data.result);
    db.ledger := db.ledger + [row];
  }
}
