/** The free functions of `task.repository.ts`: the same table operations as the
    `PrismaTaskRepository` class, each taking the client (root or transaction) to run on. */
module TaskRepositoryFunctions {
  import opened Prelude
  import opened Errors
  import opened Domain
  import opened Store
  import TaskTables

  /** `listTasksByUser`: the user's own live tasks, the most recently updated first. */
  method ListTasksByUser(userId: int, db: Database) returns (r: seq<Task>)
    ensures r == TaskTables.ListByOwner(db.tasks, userId)
    ensures forall x :: x in r <==> x in db.tasks && x.ownerUserId == userId && !x.isDeleted
    ensures SortedDesc(r, TaskTables.UpdatedAt)
  {
    r := TaskTables.ListByOwner(db.tasks, userId);
  }

  method ListTasksByWorkspaceIds(workspaceIds: seq<int>, db: Database) returns (r: seq<Task>)
    ensures r == TaskTables.ListByWorkspaceIds(db.tasks, workspaceIds)
    ensures forall x :: x in r <==> x in db.tasks && x.workspaceId in workspaceIds && !x.isDeleted
    ensures SortedDesc(r, TaskTables.UpdatedAt)
  {
    r := TaskTables.ListByWorkspaceIds(db.tasks, workspaceIds);
  }

  method FindTaskByIdForUser(taskId: int, userId: int, db: Database) returns (r: Option<Task>)
    ensures r == TaskTables.FindByIdForUser(db.tasks, taskId, userId)
    ensures r.Some? ==> r.value in db.tasks && r.value.id == taskId && r.value.ownerUserId == userId && !r.value.isDeleted
  {
    r := TaskTables.FindByIdForUser(db.tasks, taskId, userId);
  }

  method CreateTask(data: TaskTables.CreateTaskData, db: Database, now: Timestamp) returns (r: Result<Task>)
    modifies db
    ensures var e := TaskTables.Create(old(db.State()), data, now); db.State() == e.db && r == e.out
  {
    var status := ParseStatus(data.status.GetOr("pendiente"));
    if status.None? {
      return Err(RuntimeError(InvalidEnumValue));
    }
    var row := Task(
      id := |db.tasks| + 1,
      clientId := None,
      clientRev := db.schema.defaultClientRev,
      workspaceId := data.workspaceId,
      title := data.title,
      description := data.description,
      status := status.value,
      ownerUserId := data.ownerUserId,
      assignedUserId := None,
      isDeleted := false,
      deletedAt := None,
      deletedBy := None,
      version := db.schema.initialVersion,
      lastModifiedDeviceId := None,
      lastModifiedAt := now,
      createdBy := data.ownerUserId,
      updatedBy := data.ownerUserId,
      createdAt := now,
      updatedAt := now);
    if data.clientId.Some? {
      row := row.(clientId := data.clientId);
    }
    if data.clientRev.Some? {
      row := row.(clientRev := data.clientRev.value);
    }
    if data.deviceId.Some? {
      row := row.(lastModifiedDeviceId := data.deviceId);
    }
    db.tasks := db.tasks + [row];
    r := Ok(row);
  }

  method UpdateTaskById(taskId: int, data: TaskTables.UpdateTaskData, db: Database, now: Timestamp) returns (r: Result<Task>)
    modifies db
    ensures var e := TaskTables.UpdateById(old(db.State()), taskId, data, now); db.State() == e.db && r == e.out
  {
    if data.status.Some? && ParseStatus(data.status.value).None? {
      return Err(RuntimeError(InvalidEnumValue));
    }
    var k := FirstMatch(db.tasks, TaskTables.HasId(taskId));
    if k.None? {
      return Err(RuntimeError(RecordNotFound));
    }
    var row := db.tasks[k.value];
    var title, description, status, device := row.title, row.description, row.status, row.lastModifiedDeviceId;
    if data.title.Some? {
      title := data.title.value;
    }
    if data.description.SetTo? {
      description := data.description.value;
    }
    if data.status.Some? {
      status := ParseStatus(data.status.value).value;
    }
    if data.deviceId.SetTo? {
      device := data.deviceId.value;
    }
    var version := if data.incrementVersion then row.version + 1 else row.version;
    row := row.(title := title, description := description, status := status, lastModifiedDeviceId := device,
                version := version, updatedBy := data.updatedBy, updatedAt := now);
    db.tasks := db.tasks[k.value := row];
    r := Ok(row);
  }

  method SoftDeleteTaskById(taskId: int, userId: int, deviceId: TaskTables.Field<Option<string>>, db: Database, now: Timestamp)
    returns (r: Result<Task>)
    modifies db
    ensures var e := TaskTables.SoftDeleteById(old(db.State()), taskId, userId, deviceId, now); db.State() == e.db && r == e.out
  {
    var k := FirstMatch(db.tasks, TaskTables.HasId(taskId));
    if k.None? {
      return Err(RuntimeError(RecordNotFound));
    }
    var row := db.tasks[k.value];
    row := row.(isDeleted := true, deletedAt := Some(now), deletedBy := Some(userId),
                updatedBy := userId, updatedAt := now, version := row.version + 1);
    if deviceId.SetTo? {
      row := row.(lastModifiedDeviceId := deviceId.value);
    }
    db.tasks := db.tasks[k.value := row];
    r := Ok(row);
  }
}
