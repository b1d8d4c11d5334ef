/** What one Prisma call on `tasks`, `task_events` or `task_versions` does to the database:
    the specification both task repositories (the `PrismaTaskRepository` class and the
    functions of `task.repository.ts` / `task-history.repository.ts`) are proved against. */
module TaskTables {
  import opened Prelude
  import opened Errors
  import opened Domain

  /** The `data` of `tasks.create` as the repositories receive it. `status` is the string
      the caller passed: Prisma rejects one that is not a value of the enum. */
  datatype CreateTaskData = CreateTaskData(
    workspaceId: int,
    ownerUserId: int,
    title: string,
    description: Option<string>,
    status: Option<string>,
    clientId: Option<string>,
    clientRev: Option<int>,
    deviceId: Option<string>)

  /** A column an update either leaves alone (`undefined`) or sets, possibly to `null`. */
  datatype Field<+T> = Keep | SetTo(value: T)

  /** The `UpdateTaskData` of the repositories. */
  datatype UpdateTaskData = UpdateTaskData(
    title: Option<string>,
    description: Field<Option<string>>,
    status: Option<string>,
    updatedBy: int,
    deviceId: Field<Option<string>>,
    incrementVersion: bool)

  /** The `CreateTaskEventData` of the repositories (`None` for `undefined` or `null`). */
  datatype CreateTaskEventData = CreateTaskEventData(
    taskId: int,
    eventType: EventType,
    performedBy: int,
    fromStatus: Option<Status>,
    toStatus: Option<Status>,
    details: Option<EventDetails>,
    baseVersion: Option<int>,
    result: Option<EventResult>,
    deviceId: Option<string>)

  /** A status string Prisma accepts, or no status at all. */
  predicate AcceptedStatus(s: Option<string>) {
    s.None? || ParseStatus(s.value).Some?
  }

  // ---------------------------------------------------------------- reads

  function HasId(id: int): Task -> bool {
    (x: Task) => x.id == id
  }

  function LiveTaskOf(taskId: int, userId: int): Task -> bool {
    (x: Task) => x.id == taskId && x.ownerUserId == userId && !x.isDeleted
  }

  /** `findFirst({ where: { id, owner_user_id, is_deleted: false } })`. */
  function FindByIdForUser(tasks: seq<Task>, taskId: int, userId: int): (r: Option<Task>)
    ensures r.Some? ==> r.value in tasks && r.value.id == taskId && r.value.ownerUserId == userId && !r.value.isDeleted
    ensures r.None? <==> forall k :: 0 <= k < |tasks| ==> !(tasks[k].id == taskId && tasks[k].ownerUserId == userId && !tasks[k].isDeleted)
  {
    var k := FirstMatch(tasks, LiveTaskOf(taskId, userId));
    if k.Some? then Some(tasks[k.value]) else None
  }

  function UpdatedAt(x: Task): int {
    x.updatedAt
  }

  function InWorkspaces(workspaceIds: seq<int>): Task -> bool {
    (x: Task) => x.workspaceId in workspaceIds && !x.isDeleted
  }

  function OwnedBy(userId: int): Task -> bool {
    (x: Task) => x.ownerUserId == userId && !x.isDeleted
  }

  /** `findMany({ where: { workspace_id: { in }, is_deleted: false }, orderBy: updated_at desc })`:
      every live task of those workspaces, each as often as it is stored, the most recently
      updated first (rows updated at the same instant come in the database's order). */
  function ListByWorkspaceIds(tasks: seq<Task>, workspaceIds: seq<int>): (r: seq<Task>)
    ensures forall x :: x in r <==> x in tasks && x.workspaceId in workspaceIds && !x.isDeleted
    ensures multiset(r) == multiset(Filter(tasks, InWorkspaces(workspaceIds)))
    ensures SortedDesc(r, UpdatedAt)
  {
    SortedFilterMembers(tasks, InWorkspaces(workspaceIds), UpdatedAt);
    SortDesc(Filter(tasks, InWorkspaces(workspaceIds)), UpdatedAt)
  }

  /** `listTasksByUser`: the live tasks the user owns, the most recently updated first. */
  function ListByOwner(tasks: seq<Task>, userId: int): (r: seq<Task>)
    ensures forall x :: x in r <==> x in tasks && x.ownerUserId == userId && !x.isDeleted
    ensures multiset(r) == multiset(Filter(tasks, OwnedBy(userId)))
    ensures SortedDesc(r, UpdatedAt)
  {
    SortedFilterMembers(tasks, OwnedBy(userId), UpdatedAt);
    SortDesc(Filter(tasks, OwnedBy(userId)), UpdatedAt)
  }

  // ---------------------------------------------------------------- writes

  /** The row `tasks.create` inserts: the columns the code sets, and the database defaults
      for the others (`client_rev` unless one is given, `version`, no assignee, not deleted). */
  function NewTaskRow(schema: Schema, id: int, data: CreateTaskData, status: Status, now: Timestamp): Task {
    Task(
      id := id,
      clientId := data.clientId,
      clientRev := data.clientRev.GetOr(schema.defaultClientRev),
      workspaceId := data.workspaceId,
      title := data.title,
      description := data.description,
      status := status,
      ownerUserId := data.ownerUserId,
      assignedUserId := None,
      isDeleted := false,
      deletedAt := None,
      deletedBy := None,
      version := schema.initialVersion,
      lastModifiedDeviceId := data.deviceId,
      lastModifiedAt := now,
      createdBy := data.ownerUserId,
      updatedBy := data.ownerUserId,
      createdAt := now,
      updatedAt := now)
  }

  /** `create`: appends a live row with the next id, owned, created and last updated by the
      owner, at the initial version, with status `pendiente` unless one is given; a status
      that is not a value of the enum fails and writes nothing. */
  function Create(t: Tables, data: CreateTaskData, now: Timestamp): (r: Effect<Result<Task>>)
    ensures r.out.Err? <==> !AcceptedStatus(data.status)
    ensures r.out.Err? ==> r.out.error == RuntimeError(InvalidEnumValue) && r.db == t
    ensures r.out.Ok? ==> r.db == t.(tasks := t.tasks + [r.out.value])
    ensures r.out.Ok? ==>
      var task := r.out.value;
      && task.id == |t.tasks| + 1
      && task.workspaceId == data.workspaceId && task.ownerUserId == data.ownerUserId
      && task.title == data.title && task.description == data.description
      && StatusName(task.status) == data.status.GetOr("pendiente")
      && task.createdBy == data.ownerUserId && task.updatedBy == data.ownerUserId
      && task.version == t.schema.initialVersion
      && task.clientId == data.clientId
      && task.clientRev == data.clientRev.GetOr(t.schema.defaultClientRev)
      && task.lastModifiedDeviceId == data.deviceId
      && !task.isDeleted && task.deletedAt.None? && task.deletedBy.None? && task.assignedUserId.None?
      && task.createdAt == now && task.updatedAt == now
    ensures r.out.Ok? && WellFormed(t) ==> WellFormed(r.db)
  {
    var status := ParseStatus(data.status.GetOr("pendiente"));
    if status.None? then Effect(t, Err(RuntimeError(InvalidEnumValue)))
    else
      var task := NewTaskRow(t.schema, |t.tasks| + 1, data, status.value, now);
      Effect(t.(tasks := t.tasks + [task]), Ok(task))
  }

  /** The columns an update sets. */
  function ApplyUpdate(row: Task, data: UpdateTaskData, now: Timestamp): (r: Task)
    requires AcceptedStatus(data.status)
    ensures data.title.Some? ==> r.title == data.title.value
    ensures data.title.None? ==> r.title == row.title
    ensures data.description.SetTo? ==> r.description == data.description.value
    ensures data.description.Keep? ==> r.description == row.description
    ensures data.status.Some? ==> StatusName(r.status) == data.status.value
    ensures data.status.None? ==> r.status == row.status
    ensures data.deviceId.SetTo? ==> r.lastModifiedDeviceId == data.deviceId.value
    ensures data.deviceId.Keep? ==> r.lastModifiedDeviceId == row.lastModifiedDeviceId
    ensures r.version == if data.incrementVersion then row.version + 1 else row.version
    ensures r.updatedBy == data.updatedBy && r.updatedAt == now
    // every other column keeps its value
    ensures r.(title := row.title, description := row.description, status := row.status,
               lastModifiedDeviceId := row.lastModifiedDeviceId, version := row.version,
               updatedBy := row.updatedBy, updatedAt := row.updatedAt) == row
  {
    row.(
      title := if data.title.Some? then data.title.value else row.title,
      description := if data.description.SetTo? then data.description.value else row.description,
      status := if data.status.Some? then ParseStatus(data.status.value).value else row.status,
      lastModifiedDeviceId := if data.deviceId.SetTo? then data.deviceId.value else row.lastModifiedDeviceId,
      version := if data.incrementVersion then row.version + 1 else row.version,
      updatedBy := data.updatedBy,
      updatedAt := now)
  }

  /** `tasks.update({ where: { id } })`: an invalid status is rejected before the row is
      looked up; a missing row fails; otherwise the first row with that id is replaced. */
  function UpdateById(t: Tables, taskId: int, data: UpdateTaskData, now: Timestamp): (r: Effect<Result<Task>>)
    ensures r.out.Err? ==> r.db == t
    ensures r.out == Err(RuntimeError(InvalidEnumValue)) <==> !AcceptedStatus(data.status)
    ensures r.out == Err(RuntimeError(RecordNotFound)) <==>
      AcceptedStatus(data.status) && forall k :: 0 <= k < |t.tasks| ==> t.tasks[k].id != taskId
    ensures r.out.Ok? ==>
      && AcceptedStatus(data.status)
      && FirstMatch(t.tasks, HasId(taskId)).Some?
      && var k := FirstMatch(t.tasks, HasId(taskId)).value;
      && r.out.value == ApplyUpdate(t.tasks[k], data, now)
      && r.db == t.(tasks := t.tasks[k := r.out.value])
  {
    if !AcceptedStatus(data.status) then Effect(t, Err(RuntimeError(InvalidEnumValue)))
    else
      var k := FirstMatch(t.tasks, HasId(taskId));
      if k.None? then Effect(t, Err(RuntimeError(RecordNotFound)))
      else
        var row := ApplyUpdate(t.tasks[k.value], data, now);
        Effect(t.(tasks := t.tasks[k.value := row]), Ok(row))
  }

  /** The columns a soft delete sets. */
  function MarkDeleted(row: Task, userId: int, deviceId: Field<Option<string>>, now: Timestamp): (r: Task)
    ensures r.isDeleted && r.deletedAt == Some(now) && r.deletedBy == Some(userId)
    ensures r.updatedBy == userId && r.updatedAt == now && r.version == row.version + 1
    ensures deviceId.SetTo? ==> r.lastModifiedDeviceId == deviceId.value
    ensures deviceId.Keep? ==> r.lastModifiedDeviceId == row.lastModifiedDeviceId
    // title, description, status, owner and every other column keep their value
    ensures r.(isDeleted := row.isDeleted, deletedAt := row.deletedAt, deletedBy := row.deletedBy,
               updatedBy := row.updatedBy, updatedAt := row.updatedAt, version := row.version,
               lastModifiedDeviceId := row.lastModifiedDeviceId) == row
  {
    row.(
      isDeleted := true,
      deletedAt := Some(now),
      deletedBy := Some(userId),
      updatedBy := userId,
      updatedAt := now,
      version := row.version + 1,
      lastModifiedDeviceId := if deviceId.SetTo? then deviceId.value else row.lastModifiedDeviceId)
  }

  /** `softDeleteById`: marks the first row with that id deleted; fails on a missing row. */
  function SoftDeleteById(t: Tables, taskId: int, userId: int, deviceId: Field<Option<string>>, now: Timestamp): (r: Effect<Result<Task>>)
    ensures r.out.Err? <==> forall k :: 0 <= k < |t.tasks| ==> t.tasks[k].id != taskId
    ensures r.out.Err? ==> r.out.error == RuntimeError(RecordNotFound) && r.db == t
    ensures r.out.Ok? ==>
      && FirstMatch(t.tasks, HasId(taskId)).Some?
      && var k := FirstMatch(t.tasks, HasId(taskId)).value;
      && r.out.value == MarkDeleted(t.tasks[k], userId, deviceId, now)
      && r.db == t.(tasks := t.tasks[k := r.out.value])
  {
    var k := FirstMatch(t.tasks, HasId(taskId));
    if k.None? then Effect(t, Err(RuntimeError(RecordNotFound)))
    else
      var row := MarkDeleted(t.tasks[k.value], userId, deviceId, now);
      Effect(t.(tasks := t.tasks[k.value := row]), Ok(row))
  }

  /** `createTaskEvent`: appends one event; the result defaults to `applied`. */
  function CreateTaskEvent(t: Tables, data: CreateTaskEventData): (r: Effect<TaskEvent>)
    ensures r.db == t.(events := t.events + [r.out])
    ensures r.out.result == data.result.GetOr(EventApplied)
    ensures r.out == TaskEvent(data.taskId, data.eventType, data.performedBy, data.fromStatus,
                               data.toStatus, data.details, data.baseVersion, r.out.result, data.deviceId)
  {
    var e := TaskEvent(data.taskId, data.eventType, data.performedBy, data.fromStatus, data.toStatus,
                       data.details, data.baseVersion, data.result.GetOr(EventApplied), data.deviceId);
    Effect(t.(events := t.events + [e]), e)
  }

  /** An event insert keeps every earlier event in place and every other table as it was,
      and the new last event carries the given task, type, actor and device. */
  lemma EventInsertAppendsOneRow(t: Tables, data: CreateTaskEventData)
    ensures var r := CreateTaskEvent(t, data).db;
      && |r.events| == |t.events| + 1
      && (forall i :: 0 <= i < |t.events| ==> r.events[i] == t.events[i])
      && r.events[|t.events|].taskId == data.taskId
      && r.events[|t.events|].eventType == data.eventType
      && r.events[|t.events|].performedBy == data.performedBy
      && r.events[|t.events|].deviceId == data.deviceId
      && r.tasks == t.tasks && r.versions == t.versions && r.ledger == t.ledger
      && r.workspaces == t.workspaces && r.members == t.members && r.invitations == t.invitations
  {
  }

  /** `createTaskVersion`: appends one snapshot row. */
  function CreateTaskVersion(t: Tables, data: TaskVersion): (r: Tables)
    ensures r == t.(versions := t.versions + [data])
  {
    t.(versions := t.versions + [data])
  }

  // ---------------------------------------------------------------- properties

  /** In a well-formed table the id names one row, so the update replaces exactly that row. */
  lemma UpdateHitsTheRowWithThatId(t: Tables, taskId: int, data: UpdateTaskData, now: Timestamp)
    requires WellFormed(t)
    requires 1 <= taskId <= |t.tasks| && AcceptedStatus(data.status)
    ensures UpdateById(t, taskId, data, now).out.Ok?
    ensures UpdateById(t, taskId, data, now).db.tasks == t.tasks[taskId - 1 := ApplyUpdate(t.tasks[taskId - 1], data, now)]
  {
    var k := FirstMatch(t.tasks, HasId(taskId));
    assert HasId(taskId)(t.tasks[taskId - 1]);
    assert k.Some?;
    assert k.value == taskId - 1 by {
      assert HasId(taskId)(t.tasks[k.value]);
    }
  }

  /** An update keeps the table well formed. */
  lemma UpdateKeepsWellFormed(t: Tables, taskId: int, data: UpdateTaskData, now: Timestamp)
    requires WellFormed(t)
    ensures WellFormed(UpdateById(t, taskId, data, now).db)
  {
    var r := UpdateById(t, taskId, data, now);
    if r.out.Ok? {
      var k := FirstMatch(t.tasks, HasId(taskId)).value;
      assert r.db.tasks[k].id == t.tasks[k].id;
    }
  }

  /** A soft delete keeps the table well formed, and the task it deletes is no longer found,
      by its owner or by anyone else. */
  lemma SoftDeleteHidesTask(t: Tables, taskId: int, userId: int, deviceId: Field<Option<string>>, now: Timestamp, reader: int)
    requires WellFormed(t)
    ensures WellFormed(SoftDeleteById(t, taskId, userId, deviceId, now).db)
    ensures FindByIdForUser(SoftDeleteById(t, taskId, userId, deviceId, now).db.tasks, taskId, reader).None?
  {
    var r := SoftDeleteById(t, taskId, userId, deviceId, now);
    if r.out.Ok? {
      var k := FirstMatch(t.tasks, HasId(taskId)).value;
      assert r.db.tasks[k].id == t.tasks[k].id;
      forall j | 0 <= j < |r.db.tasks|
        ensures !(r.db.tasks[j].id == taskId && r.db.tasks[j].ownerUserId == reader && !r.db.tasks[j].isDeleted)
      {
        if j != k {
          assert r.db.tasks[j].id == j + 1 != taskId;
        }
      }
    }
  }
}
