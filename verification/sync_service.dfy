/** `SyncService`: the offline-sync reconciler over an idempotency ledger, each operation
    decided inside its own transaction, with a ledger repository and a task service built on
    that transaction's client. */
module SyncServices {
  import opened Prelude
  import opened Errors
  import opened JsValues
  import opened Domain
  import opened Store
  import opened PrismaTaskRepositories
  import opened PrismaWorkspaceRepositories
  import opened PrismaSyncRepositories
  import opened TaskServices
  import opened SyncSpec
  import TaskServiceSpec

  /** The `try` block of both reconcilers up to the ledger write: the entity check, then one
      `if` per operation kind, each calling the task service. */
  method DispatchOperation(taskService: TaskService, userId: int, deviceId: string, op: SyncOperationInput, now: Timestamp)
    returns (r: Result<()>)
    requires taskService.Valid()
    modifies taskService.taskRepository.db
    ensures var e := Dispatch(old(taskService.taskRepository.db.State()), taskService.Nested(), userId, deviceId, op, now);
      taskService.taskRepository.db.State() == e.db && r == e.out
  {
    ghost var spec := Dispatch(taskService.taskRepository.db.State(), taskService.Nested(), userId, deviceId, op, now);
    if op.entityType != JStr("task") {
      return Err(HttpError(BadRequest));
    }
    if op.operation == JStr("create") {
      var input := CreateInputOf(userId, deviceId, op);
      if input.Err? {
        return Err(input.error);
      }
      var created := taskService.CreateUserTask(input.value, now);
      if created.Err? {
        return Err(created.error);
      }
    }
    if IsUpdate(op) {
      var taskId := TaskIdOf(op);
      if taskId.Err? {
        return Err(taskId.error);
      }
      var updated := taskService.UpdateUserTask(UpdateInputOf(userId, deviceId, op, taskId.value), now);
      if updated.Err? {
        return Err(updated.error);
      }
    }
    if op.operation == JStr("delete") {
      var taskId := TaskIdOf(op);
      if taskId.Err? {
        return Err(taskId.error);
      }
      r := taskService.DeleteUserTask(TaskServiceSpec.DeleteUserTaskInput(userId, taskId.value, Some(deviceId)), now);
      return;
    }
    r := Ok(());
  }

  class SyncService {
    const syncRepository: PrismaSyncRepository

    constructor (syncRepository: PrismaSyncRepository)
      ensures this.syncRepository == syncRepository
    {
      this.syncRepository := syncRepository;
    }

    /** One iteration of `applySyncOperations`: the body run through the ledger
        repository's `withTransaction`, with a ledger repository and a task service on the
        transaction's client; the body catches every error, so the transaction commits. */
    method ApplyOne(userId: int, deviceId: string, op: SyncOperationInput, now: Timestamp) returns (result: SyncResult)
      modifies syncRepository.db
      ensures var e := ReconcileOne(old(syncRepository.db.State()), true, userId, deviceId, op, now);
        syncRepository.db.State() == e.db && result == e.out
    {
      var db := syncRepository.db;
      var scope := syncRepository.BeginTransaction();
      var txSyncRepository := new PrismaSyncRepository(db, true);
      var existing := txSyncRepository.FindByDeviceAndOpId(deviceId, op.opId);
      if existing.Some? {
        result := existing.value.result;
      } else {
        var txTaskRepository := new PrismaTaskRepository(db, true);
        var txWorkspaceRepository := new PrismaWorkspaceRepository(db);
        var taskService := new TaskService(txTaskRepository, txWorkspaceRepository);
        var outcome := DispatchOperation(taskService, userId, deviceId, op, now);
        if outcome.Ok? {
          var row := txSyncRepository.Create(LedgerEntry(userId, deviceId, op, SyncApplied));
          result := SyncApplied;
        } else {
          result := if outcome.error == HttpError(Conflict) then SyncConflict else SyncRejected;
          var row := txSyncRepository.Create(LedgerEntry(userId, deviceId, op, result));
        }
      }
      syncRepository.EndTransaction(scope, false);
    }

    /** `applySyncOperations`: the batch, one transaction per operation, whose task service
        runs inside that transaction, so that a conflict event it writes is kept. */
    method ApplySyncOperations(userId: int, deviceId: string, operations: seq<SyncOperationInput>, now: Timestamp)
      returns (results: seq<OpResult>)
      modifies syncRepository.db
      ensures var e := Reconcile(old(syncRepository.db.State()), true, userId, deviceId, operations, now);
        syncRepository.db.State() == e.db && results == e.out
    {
      results := [];
      var i := 0;
      while i < |operations|
        invariant 0 <= i <= |operations|
        invariant var e := Reconcile(old(syncRepository.db.State()), true, userId, deviceId, operations[..i], now);
          syncRepository.db.State() == e.db && results == e.out
      {
        ReconcileOneMore(old(syncRepository.db.State()), true, userId, deviceId, operations, i, now);
        var result := ApplyOne(userId, deviceId, operations[i], now);
        results := results + [OpResult(operations[i].opId, result)];
        i := i + 1;
      }
      assert operations[..i] == operations;
    }
  }
}
