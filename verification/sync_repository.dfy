/** `PrismaSyncRepository`: the idempotency ledger behind one Prisma client. */
module PrismaSyncRepositories {
  import opened Prelude
  import opened Domain
  import opened JsValues
  import opened Store
  import LedgerTables

  class PrismaSyncRepository {
    const db: Database
    /** Whether the client is a transaction client, which has no `$transaction` of its own. */
    const onTransactionClient: bool

    constructor (db: Database, onTransactionClient: bool)
      ensures this.db == db && this.onTransactionClient == onTransactionClient
    {
      this.db := db;
      this.onTransactionClient := onTransactionClient;
    }

    method FindByDeviceAndOpId(deviceId: string, opId: string) returns (r: Option<SyncRecord>)
      ensures r == LedgerTables.FindByDeviceAndOpId(db.State(), deviceId, opId)
      ensures r.Some? ==> r.value in db.ledger && r.value.deviceId == deviceId && r.value.opId == opId
    {
      r := LedgerTables.FindByDeviceAndOpId(db.State(), deviceId, opId);
    }

    method Create(data: LedgerTables.CreateSyncOperationData) returns (row: SyncRecord)
      modifies db
      ensures var e := LedgerTables.CreateSyncOperation(old(db.State()), data); db.State() == e.db && row == e.out
    {
      row := SyncRecord(
        userId := data.userId,
        deviceId := data.deviceId,
        opId := data.opId,
        entityType := data.entityType,
        entityClientId := Coalesce(data.entityClientId, JNull),
        operation := data.operation,
        payload := data.payload,
        baseVersion := data.baseVersion,
        result := data.result);
      db.ledger := db.ledger + [row];
    }

    /** The opening half of `withTransaction`: on the root client the body runs in a new
        transaction, on a transaction client in the current one. The body receives the
        transaction's client, modelled by the same database. */
    method BeginTransaction() returns (scope: TxScope)
      ensures scope == TxScope(db.State(), !onTransactionClient)
    {
      scope := TxScope(db.State(), !onTransactionClient);
    }

    /** The closing half of `withTransaction`: a transaction this call opened is rolled back
        when the body threw and committed otherwise. */
    method EndTransaction(scope: TxScope, failed: bool)
      requires scope.saved.schema == db.schema
      modifies db
      ensures db.State() == CloseScope(scope, old(db.State()), failed)
    {
      if scope.ownsTx && failed {
        db.Restore(scope.saved);
      }
    }
  }
}
