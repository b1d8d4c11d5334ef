/** What `TaskService` does to the database, as functions of the tables. `nested` says
    whether its task repository is built on a transaction client: then `withTransaction`
    runs the body in the caller's transaction, and a failure is left to the caller;
    otherwise the body gets its own transaction, rolled back when it throws. */
module TaskServiceSpec {
  import opened Prelude
  import opened Errors
  import opened Domain
  import opened Store
  import opened TaskSnapshots
  import TaskTables
  import WorkspaceTables

  datatype CreateUserTaskInput = CreateUserTaskInput(
    userId: int,
    title: string,
    description: Option<string>,
    status: Option<string>,
    workspaceId: Option<int>,
    clientId: Option<string>,
    clientRev: Option<int>,
    deviceId: Option<string>)

  datatype UpdateUserTaskInput = UpdateUserTaskInput(
    userId: int,
    taskId: int,
    title: Option<string>,
    description: Option<string>,
    status: Option<string>,
    baseVersion: Option<int>,
    deviceId: Option<string>)

  datatype DeleteUserTaskInput = DeleteUserTaskInput(userId: int, taskId: int, deviceId: Option<string>)

  /** The membership flag each mutation needs. */
  datatype Capability = CanCreate | CanEdit | CanDelete

  predicate Allows(m: Member, c: Capability) {
    match c
    case CanCreate => m.canCreate
    case CanEdit => m.canEdit
    case CanDelete => m.canDelete
  }

  /** The permission gate of the three mutations: the workspace must exist; its owner always
      passes; anyone else needs a membership with the flag. */
  function Authorize(workspace: Option<Workspace>, member: Option<Member>, userId: int, c: Capability): (r: Result<()>)
    ensures workspace.None? <==> r == Err(HttpError(NotFound))
    ensures r.Ok? <==> workspace.Some? && (workspace.value.ownerUserId == userId || (member.Some? && Allows(member.value, c)))
    ensures r.Err? && workspace.Some? ==> r == Err(HttpError(Forbidden))
  {
    if workspace.None? then Err(HttpError(NotFound))
    else
      var isOwner := workspace.value.ownerUserId == userId;
      if member.None? && !isOwner then Err(HttpError(Forbidden))
      else if member.Some? && !Allows(member.value, c) && !isOwner then Err(HttpError(Forbidden))
      else Ok(())
  }

  /** The gate as the service runs it, on the workspace and membership rows it reads. */
  function Gate(t: Tables, workspaceId: int, userId: int, c: Capability): Result<()> {
    Authorize(WorkspaceTables.FindById(t, workspaceId), WorkspaceTables.FindMember(t, workspaceId, userId), userId, c)
  }

  // ---------------------------------------------------------------- listUserTasks

  /** `listUserTasks`: the live tasks of every workspace the user is a member of, each as
      often as it is stored, the most recently updated first; no membership, no tasks. */
  function ListUserTasks(t: Tables, userId: int): (r: seq<Task>)
    ensures forall x :: x in r <==> x in t.tasks && !x.isDeleted && WorkspaceTables.HasMembership(t.members, x.workspaceId, userId)
    ensures forall x :: multiset(r)[x] ==
                        (if !x.isDeleted && WorkspaceTables.HasMembership(t.members, x.workspaceId, userId)
                         then multiset(t.tasks)[x] else 0)
    ensures SortedDesc(r, TaskTables.UpdatedAt)
  {
    var ids := WorkspaceTables.ListWorkspaceIdsForUser(t, userId);
    assert forall w :: w in ids <==> WorkspaceTables.HasMembership(t.members, w, userId) by {
      forall w ensures w in ids <==> WorkspaceTables.HasMembership(t.members, w, userId) {
        if WorkspaceTables.HasMembership(t.members, w, userId) {
          var k :| 0 <= k < |t.members| && t.members[k].workspaceId == w && t.members[k].userId == userId;
          assert t.members[k] in t.members;
        }
      }
    }
    if |ids| == 0 then [] else TaskTables.ListByWorkspaceIds(t.tasks, ids)
  }

  // ---------------------------------------------------------------- createUserTask

  /** The workspace a new task goes to: the one given, else the user's first membership,
      else a new "Personal" workspace created for the user (outside any transaction). */
  function ResolveWorkspace(t: Tables, userId: int, workspaceId: Option<int>, now: Timestamp): (r: Effect<int>)
    ensures workspaceId.Some? ==> r == Effect(t, workspaceId.value)
    ensures workspaceId.None? && WorkspaceTables.FirstWorkspaceIdForUser(t, userId).Some? ==>
              r == Effect(t, WorkspaceTables.FirstWorkspaceIdForUser(t, userId).value)
    ensures workspaceId.None? && WorkspaceTables.FirstWorkspaceIdForUser(t, userId).None? ==>
              var d := WorkspaceTables.CreateDefault(t, userId, now); r == Effect(d.db, d.out.id)
  {
    if workspaceId.Some? then Effect(t, workspaceId.value)
    else match WorkspaceTables.FirstWorkspaceIdForUser(t, userId)
      case Some(w) => Effect(t, w)
      case None =>
        var d := WorkspaceTables.CreateDefault(t, userId, now);
        Effect(d.db, d.out.id)
  }

  function CreateData(input: CreateUserTaskInput, workspaceId: int): TaskTables.CreateTaskData {
    TaskTables.CreateTaskData(
      workspaceId := workspaceId,
      ownerUserId := input.userId,
      title := input.title,
      description := input.description,
      status := Some(input.status.GetOr("pendiente")),
      clientId := input.clientId,
      clientRev := input.clientRev,
      deviceId := input.deviceId)
  }

  function CreatedEvent(task: Task, input: CreateUserTaskInput): TaskTables.CreateTaskEventData {
    TaskTables.CreateTaskEventData(task.id, Created, input.userId, None, None, None, None, Some(EventApplied), input.deviceId)
  }

  /** The body `createUserTask` runs in `withTransaction`: insert the task, then its first
      version, then its `created` event. */
  function CreateBody(t: Tables, input: CreateUserTaskInput, workspaceId: int, now: Timestamp): Effect<Result<Task>> {
    var c := TaskTables.Create(t, CreateData(input, workspaceId), now);
    if c.out.Err? then c
    else
      var task := c.out.value;
      var t1 := TaskTables.CreateTaskVersion(c.db, TaskVersion(task.id, task.version, ToTaskSnapshot(task), input.userId));
      var e := TaskTables.CreateTaskEvent(t1, CreatedEvent(task, input));
      Effect(e.db, Ok(task))
  }

  /** `createUserTask`: resolves the workspace, passes the gate, then in one transaction
      inserts the task with its first version and a `created` event. There is no title check
      here. A failure leaves the task, event and version tables as they were, and nothing
      but the workspace resolution and the three task tables is ever written. */
  function CreateUserTask(t: Tables, nested: bool, input: CreateUserTaskInput, now: Timestamp): (r: Effect<Result<Task>>)
    ensures var t1 := ResolveWorkspace(t, input.userId, input.workspaceId, now).db;
      && r.db.(tasks := t1.tasks, events := t1.events, versions := t1.versions) == t1
      && (r.out.Err? ==> r.db == t1)
    ensures var resolved := ResolveWorkspace(t, input.userId, input.workspaceId, now);
      r.out.Ok? <==> Gate(resolved.db, resolved.out, input.userId, CanCreate).Ok?
                     && ParseStatus(input.status.GetOr("pendiente")).Some?
    ensures r.out.Ok? ==>
      var t1 := ResolveWorkspace(t, input.userId, input.workspaceId, now).db;
      var task := r.out.value;
      && r.db.tasks == t1.tasks + [task]
      && r.db.versions == t1.versions + [TaskVersion(task.id, task.version, ToTaskSnapshot(task), input.userId)]
      && r.db.events == t1.events + [TaskEvent(task.id, Created, input.userId, None, None, None, None, EventApplied, input.deviceId)]
      && task.id == |t1.tasks| + 1
      && task.workspaceId == ResolveWorkspace(t, input.userId, input.workspaceId, now).out
      && task.ownerUserId == input.userId && task.createdBy == input.userId && task.updatedBy == input.userId
      && task.title == input.title && task.description == input.description
      && StatusName(task.status) == input.status.GetOr("pendiente")
      && task.version == t.schema.initialVersion && !task.isDeleted
  {
    var resolved := ResolveWorkspace(t, input.userId, input.workspaceId, now);
    var t1 := resolved.db;
    var gate := Gate(t1, resolved.out, input.userId, CanCreate);
    if gate.Err? then Effect(t1, Err(gate.error))
    else
      var body := CreateBody(t1, input, resolved.out, now);
      Effect(CloseScope(TxScope(t1, !nested), body.db, body.out.Err?), body.out)
  }

  // ---------------------------------------------------------------- updateUserTask

  /** The `updateData` the service builds: the supplied strings, the caller as `updated_by`,
      and always a version increment. */
  function UpdateData(input: UpdateUserTaskInput): TaskTables.UpdateTaskData {
    TaskTables.UpdateTaskData(
      title := input.title,
      description := if input.description.Some? then TaskTables.SetTo(input.description) else TaskTables.Keep,
      status := input.status,
      updatedBy := input.userId,
      deviceId := if input.deviceId.Some? then TaskTables.SetTo(input.deviceId) else TaskTables.Keep,
      incrementVersion := true)
  }

  /** `input.status && input.status !== existing.status`. */
  predicate ChangesStatus(input: UpdateUserTaskInput, existing: Task) {
    input.status.Some? && input.status.value != "" && input.status.value != StatusName(existing.status)
  }

  function ConflictEvent(existing: Task, input: UpdateUserTaskInput): TaskTables.CreateTaskEventData {
    TaskTables.CreateTaskEventData(existing.id, Updated, input.userId, None, None,
      Some(ServerVersion(IntToDecimal(existing.version))), input.baseVersion, Some(EventConflict), input.deviceId)
  }

  function UpdatedEvent(existing: Task, updated: Task, input: UpdateUserTaskInput): TaskTables.CreateTaskEventData {
    TaskTables.CreateTaskEventData(updated.id, if ChangesStatus(input, existing) then StatusChanged else Updated,
      input.userId, Some(existing.status), Some(updated.status), None, input.baseVersion, Some(EventApplied), input.deviceId)
  }

  /** The body `updateUserTask` runs in `withTransaction`. */
  function UpdateBody(t: Tables, input: UpdateUserTaskInput, now: Timestamp): Effect<Result<Task>> {
    var existing := TaskTables.FindByIdForUser(t.tasks, input.taskId, input.userId);
    if existing.None? then Effect(t, Err(HttpError(NotFound)))
    else
      var ex := existing.value;
      var gate := Gate(t, ex.workspaceId, input.userId, CanEdit);
      if gate.Err? then Effect(t, Err(gate.error))
      else if input.baseVersion.Some? && ex.version != input.baseVersion.value then
        var e := TaskTables.CreateTaskEvent(t, ConflictEvent(ex, input));
        Effect(e.db, Err(HttpError(Conflict)))
      else
        var u := TaskTables.UpdateById(t, input.taskId, UpdateData(input), now);
        if u.out.Err? then Effect(u.db, Err(u.out.error))
        else
          var updated := u.out.value;
          var e := TaskTables.CreateTaskEvent(u.db, UpdatedEvent(ex, updated, input));
          var t1 := TaskTables.CreateTaskVersion(e.db, TaskVersion(updated.id, updated.version, ToTaskSnapshot(updated), input.userId));
          Effect(t1, Ok(updated))
  }

  /** `updateUserTask`. Only the three task tables are ever written. Without a live task of
      that id owned by the caller it fails NOT_FOUND, and the gate's failures follow, all
      writing nothing. A stale `baseVersion` after a passed gate writes one conflict event
      and fails CONFLICT; that event stays only inside a caller's transaction. On the root
      client no failure leaves a trace. */
  function UpdateUserTask(t: Tables, nested: bool, input: UpdateUserTaskInput, now: Timestamp): (r: Effect<Result<Task>>)
    ensures r.db.(tasks := t.tasks, events := t.events, versions := t.versions) == t
    ensures TaskTables.FindByIdForUser(t.tasks, input.taskId, input.userId).None? ==>
              r == Effect(t, Err(HttpError(NotFound)))
    ensures TaskTables.FindByIdForUser(t.tasks, input.taskId, input.userId).Some? ==>
      var ex := TaskTables.FindByIdForUser(t.tasks, input.taskId, input.userId).value;
      && (Gate(t, ex.workspaceId, input.userId, CanEdit).Err? ==>
            r == Effect(t, Err(Gate(t, ex.workspaceId, input.userId, CanEdit).error)))
      && (Gate(t, ex.workspaceId, input.userId, CanEdit).Ok? && input.baseVersion.Some? && ex.version != input.baseVersion.value ==>
            && r.out == Err(HttpError(Conflict))
            && r.db == if nested then TaskTables.CreateTaskEvent(t, ConflictEvent(ex, input)).db else t)
    ensures r.out == Err(HttpError(Conflict)) <==>
      && TaskTables.FindByIdForUser(t.tasks, input.taskId, input.userId).Some?
      && var ex := TaskTables.FindByIdForUser(t.tasks, input.taskId, input.userId).value;
      && Gate(t, ex.workspaceId, input.userId, CanEdit).Ok?
      && input.baseVersion.Some? && ex.version != input.baseVersion.value
    ensures r.out.Ok? ==> TaskTables.FindByIdForUser(t.tasks, input.taskId, input.userId).Some?
    ensures !nested && r.out.Err? ==> r.db == t
    ensures r.out.Err? && r.db != t ==> nested && r.out == Err(HttpError(Conflict))
  {
    var body := UpdateBody(t, input, now);
    Effect(CloseScope(TxScope(t, !nested), body.db, body.out.Err?), body.out)
  }

  // ---------------------------------------------------------------- deleteUserTask

  /** `softDeleteById(..., input.deviceId)`: an omitted device leaves the column alone. */
  function DeviceField(deviceId: Option<string>): TaskTables.Field<Option<string>> {
    if deviceId.Some? then TaskTables.SetTo(deviceId) else TaskTables.Keep
  }

  function TrashEvent(deleted: Task, input: DeleteUserTaskInput): TaskTables.CreateTaskEventData {
    TaskTables.CreateTaskEventData(deleted.id, MovedToTrash, input.userId, None, None, None, None, Some(EventApplied), input.deviceId)
  }

  /** The body `deleteUserTask` runs in `withTransaction`. */
  function DeleteBody(t: Tables, input: DeleteUserTaskInput, now: Timestamp): Effect<Result<()>> {
    var existing := TaskTables.FindByIdForUser(t.tasks, input.taskId, input.userId);
    if existing.None? then Effect(t, Err(HttpError(NotFound)))
    else
      var ex := existing.value;
      var gate := Gate(t, ex.workspaceId, input.userId, CanDelete);
      if gate.Err? then Effect(t, Err(gate.error))
      else
        // the row just found has that id, so the soft delete finds it too
        var d := TaskTables.SoftDeleteById(t, input.taskId, input.userId, DeviceField(input.deviceId), now);
        assert d.out.Ok? by { assert ex in t.tasks; }
        var deleted := d.out.value;
        var e := TaskTables.CreateTaskEvent(d.db, TrashEvent(deleted, input));
        var t1 := TaskTables.CreateTaskVersion(e.db, TaskVersion(deleted.id, deleted.version, ToTaskSnapshot(deleted), input.userId));
        Effect(t1, Ok(()))
  }

  /** `deleteUserTask`. Only the three task tables are ever written; every failure writes
      nothing: NOT_FOUND without a live task of that id owned by the caller, then the gate. */
  function DeleteUserTask(t: Tables, nested: bool, input: DeleteUserTaskInput, now: Timestamp): (r: Effect<Result<()>>)
    ensures r.db.(tasks := t.tasks, events := t.events, versions := t.versions) == t
    ensures TaskTables.FindByIdForUser(t.tasks, input.taskId, input.userId).None? ==>
              r == Effect(t, Err(HttpError(NotFound)))
    ensures TaskTables.FindByIdForUser(t.tasks, input.taskId, input.userId).Some? ==>
      var ex := TaskTables.FindByIdForUser(t.tasks, input.taskId, input.userId).value;
      Gate(t, ex.workspaceId, input.userId, CanDelete).Err? ==>
        r == Effect(t, Err(Gate(t, ex.workspaceId, input.userId, CanDelete).error))
    ensures r.out.Err? ==> r.db == t
  {
    var body := DeleteBody(t, input, now);
    Effect(CloseScope(TxScope(t, !nested), body.db, body.out.Err?), body.out)
  }
}
