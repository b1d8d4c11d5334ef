/** `sync.service.ts`: the older, module-level reconciler. It reads and writes the ledger
    with the free functions of `sync.repository.ts`, calls the module's task service on the
    root client, and opens no transaction of its own. */
module LegacySyncService {
  import opened Prelude
  import opened Errors
  import opened Domain
  import opened Store
  import opened PrismaTaskRepositories
  import opened PrismaWorkspaceRepositories
  import opened TaskServices
  import opened SyncRepositoryFunctions
  import opened SyncServices
  import opened SyncSpec

  /** `applySyncOperations`: each task-service call is its own transaction, so a conflict
      rolls its conflict event back and only the ledger row remains. */
  method ApplySyncOperations(userId: int, deviceId: string, operations: seq<SyncOperationInput>, db: Database, now: Timestamp)
    returns (results: seq<OpResult>)
    modifies db
    ensures var e := Reconcile(old(db.State()), false, userId, deviceId, operations, now);
      db.State() == e.db && results == e.out
  {
    // the task service of `tasks.service.ts`, built once on the root client
    var taskRepository := new PrismaTaskRepository(db, false);
    var workspaceRepository := new PrismaWorkspaceRepository(db);
    var taskService := new TaskService(taskRepository, workspaceRepository);
    results := [];
    var i := 0;
    while i < |operations|
      invariant 0 <= i <= |operations|
      invariant taskService.Valid() && taskService.taskRepository.db == db && !taskService.Nested()
      invariant var e := Reconcile(old(db.State()), false, userId, deviceId, operations[..i], now);
        db.State() == e.db && results == e.out
    {
      var op := operations[i];
      ghost var before := db.State();
      ReconcileOneMore(old(db.State()), false, userId, deviceId, operations, i, now);
      var existing := FindSyncOperation(deviceId, op.opId, db);
      if existing.Some? {
        results := results + [OpResult(op.opId, existing.value.result)];
        i := i + 1;
        continue;
      }
      var outcome := DispatchOperation(taskService, userId, deviceId, op, now);
      var result: SyncResult;
      if outcome.Ok? {
        var row := CreateSyncOperation(LedgerEntry(userId, deviceId, op, SyncApplied), db);
        result := SyncApplied;
      } else {
        result := if outcome.error == HttpError(Conflict) then SyncConflict else SyncRejected;
        var row := CreateSyncOperation(LedgerEntry(userId, deviceId, op, result), db);
      }
      assert db.State() == ReconcileOne(before, false, userId, deviceId, op, now).db;
      results := results + [OpResult(op.opId, result)];
      i := i + 1;
    }
    assert operations[..i] == operations;
  }
}
