/** `PrismaTaskRepository`: the task, event and version tables behind one Prisma client,
    which is either the root client or the client of an open transaction. */
module PrismaTaskRepositories {
  import opened Prelude
  import opened Errors
  import opened Domain
  import opened Store
  import TaskTables

  class PrismaTaskRepository {
    const db: Database
    /** Whether the client is a transaction client, which has no `$transaction` of its own. */
    const onTransactionClient: bool

    constructor (db: Database, onTransactionClient: bool)
      ensures this.db == db && this.onTransactionClient == onTransactionClient
    {
      this.db := db;
      this.onTransactionClient := onTransactionClient;
    }

    method ListByWorkspaceIds(workspaceIds: seq<int>) returns (r: seq<Task>)
      ensures r == TaskTables.ListByWorkspaceIds(db.tasks, workspaceIds)
      ensures forall x :: x in r <==> x in db.tasks && x.workspaceId in workspaceIds && !x.isDeleted
      ensures SortedDesc(r, TaskTables.UpdatedAt)
    {
      r := TaskTables.ListByWorkspaceIds(db.tasks, workspaceIds);
    }

    method FindByIdForUser(taskId: int, userId: int) returns (r: Option<Task>)
      ensures r == TaskTables.FindByIdForUser(db.tasks, taskId, userId)
      ensures r.Some? ==> r.value in db.tasks && r.value.id == taskId && r.value.ownerUserId == userId && !r.value.isDeleted
    {
      r := TaskTables.FindByIdForUser(db.tasks, taskId, userId);
    }

    /** Builds the row column by column as the source builds `createData`, then inserts it. */
    method Create(data: TaskTables.CreateTaskData, now: Timestamp) returns (r: Result<Task>)
      modifies db
      ensures var e := TaskTables.Create(old(db.State()), data, now); db.State() == e.db && r == e.out
    {
      var status := ParseStatus(data.status.GetOr("pendiente"));
      if status.None? {
        return Err(RuntimeError(InvalidEnumValue));
      }
      var row := Task(
        id := |db.tasks| + 1,
        clientId := None,
        clientRev := db.schema.defaultClientRev,
        workspaceId := data.workspaceId,
        title := data.title,
        description := data.description,
        status := status.value,
        ownerUserId := data.ownerUserId,
        assignedUserId := None,
        isDeleted := false,
        deletedAt := None,
        deletedBy := None,
        version := db.schema.initialVersion,
        lastModifiedDeviceId := None,
        lastModifiedAt := now,
        createdBy := data.ownerUserId,
        updatedBy := data.ownerUserId,
        createdAt := now,
        updatedAt := now);
      if data.clientId.Some? {
        row := row.(clientId := data.clientId);
      }
      if data.clientRev.Some? {
        row := row.(clientRev := data.clientRev.value);
      }
      if data.deviceId.Some? {
        row := row.(lastModifiedDeviceId := data.deviceId);
      }
      db.tasks := db.tasks + [row];
      r := Ok(row);
    }

    /** Picks each supplied column in turn, then writes them with `updated_by` and `updated_at`. */
    method UpdateById(taskId: int, data: TaskTables.UpdateTaskData, now: Timestamp) returns (r: Result<Task>)
      modifies db
      ensures var e := TaskTables.UpdateById(old(db.State()), taskId, data, now); db.State() == e.db && r == e.out
    {
      if data.status.Some? && ParseStatus(data.status.value).None? {
        return Err(RuntimeError(InvalidEnumValue));
      }
      var k := FirstMatch(db.tasks, TaskTables.HasId(taskId));
      if k.None? {
        return Err(RuntimeError(RecordNotFound));
      }
      var row := db.tasks[k.value];
      var title, description, status, device := row.title, row.description, row.status, row.lastModifiedDeviceId;
      if data.title.Some? {
        title := data.title.value;
      }
      if data.description.SetTo? {
        description := data.description.value;
      }
      if data.status.Some? {
        status := ParseStatus(data.status.value).value;
      }
      if data.deviceId.SetTo? {
        device := data.deviceId.value;
      }
      var version := if data.incrementVersion then row.version + 1 else row.version;
      row := row.(title := title, description := description, status := status, lastModifiedDeviceId := device,
                  version := version, updatedBy := data.updatedBy, updatedAt := now);
      db.tasks := db.tasks[k.value := row];
      r := Ok(row);
    }

    method SoftDeleteById(taskId: int, userId: int, deviceId: TaskTables.Field<Option<string>>, now: Timestamp) returns (r: Result<Task>)
      modifies db
      ensures var e := TaskTables.SoftDeleteById(old(db.State()), taskId, userId, deviceId, now); db.State() == e.db && r == e.out
    {
      var k := FirstMatch(db.tasks, TaskTables.HasId(taskId));
      if k.None? {
        return Err(RuntimeError(RecordNotFound));
      }
      var row := db.tasks[k.value];
      row := row.(isDeleted := true, deletedAt := Some(now), deletedBy := Some(userId),
                  updatedBy := userId, updatedAt := now, version := row.version + 1);
      if deviceId.SetTo? {
        row := row.(lastModifiedDeviceId := deviceId.value);
      }
      db.tasks := db.tasks[k.value := row];
      r := Ok(row);
    }

    method CreateTaskEvent(data: TaskTables.CreateTaskEventData) returns (e: TaskEvent)
      modifies db
      ensures var x := TaskTables.CreateTaskEvent(old(db.State()), data); db.State() == x.db && e == x.out
    {
      e := TaskEvent(
        taskId := data.taskId,
        eventType := data.eventType,
        performedBy := data.performedBy,
        fromStatus := data.fromStatus,
        toStatus := data.toStatus,
        details := data.details,
        baseVersion := data.baseVersion,
        result := data.result.GetOr(EventApplied),
        deviceId := data.deviceId);
      db.events := db.events + [e];
    }

    method CreateTaskVersion(data: TaskVersion)
      modifies db
      ensures db.State() == TaskTables.CreateTaskVersion(old(db.State()), data)
    {
      db.versions := db.versions + [data];
    }

    /** The opening half of `withTransaction`: on the root client a transaction starts and
        the body gets a repository on its client; on a transaction client the body runs in
        the caller's transaction with this repository. */
    method BeginTransaction() returns (scope: TxScope, repo: PrismaTaskRepository)
      ensures scope == TxScope(db.State(), !onTransactionClient)
      ensures repo.db == db && repo.onTransactionClient
      ensures onTransactionClient ==> repo == this
    {
      scope := TxScope(db.State(), !onTransactionClient);
      if onTransactionClient {
        repo := this;
      } else {
        repo := new PrismaTaskRepository(db, true);
      }
    }

    /** The closing half of `withTransaction`: a transaction this call opened is rolled back
        when the body threw and committed otherwise. */
    method EndTransaction(scope: TxScope, failed: bool)
      requires scope.saved.schema == db.schema
      modifies db
      ensures db.State() == CloseScope(scope, old(db.State()), failed)
    {
      if scope.ownsTx && failed {
        db.Restore(scope.saved);
      }
    }
  }
}
