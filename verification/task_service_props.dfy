/** What `TaskService` promises across its operations, on well-formed tables (each table's
    row ids are its positions counted from one). */
module TaskServiceProperties {
  import opened Prelude
  import opened Errors
  import opened Domain
  import opened TaskSnapshots
  import TaskTables
  import WorkspaceTables
  import opened TaskServiceSpec

  /** A user without any membership gets a "Personal" workspace of their own, and as its
      owner passes the gate of `createUserTask` there. */
  lemma DefaultWorkspaceAdmitsCreator(t: Tables, userId: int, now: Timestamp)
    requires WellFormed(t)
    requires WorkspaceTables.FirstWorkspaceIdForUser(t, userId).None?
    ensures var r := ResolveWorkspace(t, userId, None, now);
      && WorkspaceTables.FindById(r.db, r.out).Some?
      && WorkspaceTables.FindById(r.db, r.out).value.name == "Personal"
      && WorkspaceTables.FindById(r.db, r.out).value.ownerUserId == userId
      && Gate(r.db, r.out, userId, CanCreate).Ok?
  {
    var d := WorkspaceTables.CreateDefault(t, userId, now);
    assert WorkspaceTables.FindById(d.db, d.out.id) == Some(d.out);
  }

  /** A permission failure of `createUserTask` (NOT_FOUND or FORBIDDEN) writes nothing: it can
      only happen when the workspace was given or already existed. */
  lemma CreatePermissionFailureWritesNothing(t: Tables, nested: bool, input: CreateUserTaskInput, now: Timestamp)
    requires WellFormed(t)
    ensures var r := CreateUserTask(t, nested, input, now);
      r.out.Err? && r.out.error.HttpError? ==> r.db == t
  {
    if input.workspaceId.None? && WorkspaceTables.FirstWorkspaceIdForUser(t, input.userId).None? {
      DefaultWorkspaceAdmitsCreator(t, input.userId, now);
    }
  }

  /** In a well-formed table a task id names one row: a task that is not a live task of the
      caller is NOT_FOUND for both mutations, which then write nothing. */
  lemma OthersTasksAreNotFound(t: Tables, nested: bool, u: UpdateUserTaskInput, d: DeleteUserTaskInput, now: Timestamp)
    requires WellFormed(t)
    requires d.taskId == u.taskId && d.userId == u.userId
    requires 1 <= u.taskId <= |t.tasks|
    requires t.tasks[u.taskId - 1].ownerUserId != u.userId || t.tasks[u.taskId - 1].isDeleted
    ensures UpdateUserTask(t, nested, u, now) == Effect(t, Err(HttpError(NotFound)))
    ensures DeleteUserTask(t, nested, d, now) == Effect(t, Err(HttpError(NotFound)))
  {
    assert TaskTables.FindByIdForUser(t.tasks, u.taskId, u.userId).None? by {
      forall k | 0 <= k < |t.tasks| && t.tasks[k].id == u.taskId
        ensures !(t.tasks[k].ownerUserId == u.userId && !t.tasks[k].isDeleted)
      {
        assert k == u.taskId - 1;
      }
    }
  }

  /** On well-formed tables a live task of the caller sits at the position its id names,
      and it is the row a lookup by that id alone finds. */
  lemma LiveTaskSitsAtItsId(t: Tables, taskId: int, userId: int)
    requires WellFormed(t)
    requires TaskTables.FindByIdForUser(t.tasks, taskId, userId).Some?
    ensures 1 <= taskId <= |t.tasks|
    ensures TaskTables.FindByIdForUser(t.tasks, taskId, userId).value == t.tasks[taskId - 1]
    ensures FirstMatch(t.tasks, TaskTables.HasId(taskId)) == Some(taskId - 1)
  {
    var ex := TaskTables.FindByIdForUser(t.tasks, taskId, userId).value;
    var k :| 0 <= k < |t.tasks| && t.tasks[k] == ex;
    assert k == taskId - 1;
    var f := FirstMatch(t.tasks, TaskTables.HasId(taskId));
    assert TaskTables.HasId(taskId)(t.tasks[k]);
    assert f.Some? && f.value == k by {
      assert TaskTables.HasId(taskId)(t.tasks[f.value]);
    }
  }

  /** The writes of an update that passes every check: the row at that id is replaced by
      the updated row, one event and one snapshot are appended. */
  lemma UpdateOfLiveTask(t: Tables, nested: bool, input: UpdateUserTaskInput, now: Timestamp)
    requires WellFormed(t)
    requires TaskTables.FindByIdForUser(t.tasks, input.taskId, input.userId).Some?
    requires Gate(t, TaskTables.FindByIdForUser(t.tasks, input.taskId, input.userId).value.workspaceId, input.userId, CanEdit).Ok?
    requires input.baseVersion.Some? ==> TaskTables.FindByIdForUser(t.tasks, input.taskId, input.userId).value.version == input.baseVersion.value
    requires TaskTables.AcceptedStatus(input.status)
    ensures 1 <= input.taskId <= |t.tasks|
    ensures var ex := t.tasks[input.taskId - 1];
      var u := TaskTables.ApplyUpdate(ex, UpdateData(input), now);
      && TaskTables.FindByIdForUser(t.tasks, input.taskId, input.userId) == Some(ex)
      && UpdateUserTask(t, nested, input, now) == Effect(t.(
           tasks := t.tasks[input.taskId - 1 := u],
           events := t.events + [TaskEvent(u.id, if ChangesStatus(input, ex) then StatusChanged else Updated,
             input.userId, Some(ex.status), Some(u.status), None, input.baseVersion, EventApplied, input.deviceId)],
           versions := t.versions + [TaskVersion(u.id, u.version, ToTaskSnapshot(u), input.userId)]), Ok(u))
      && WellFormed(UpdateUserTask(t, nested, input, now).db)
  {
    LiveTaskSitsAtItsId(t, input.taskId, input.userId);
    var data := UpdateData(input);
    TaskTables.UpdateHitsTheRowWithThatId(t, input.taskId, data, now);
    TaskTables.UpdateKeepsWellFormed(t, input.taskId, data, now);
    var upd := TaskTables.UpdateById(t, input.taskId, data, now);
    var ex := t.tasks[input.taskId - 1];
    var u := upd.out.value;
    assert u == TaskTables.ApplyUpdate(ex, data, now) by {
      assert upd.db.tasks[input.taskId - 1] == u;
    }
    assert upd.db == t.(tasks := t.tasks[input.taskId - 1 := u]);
  }

  /** An update whose status is not one of the enum's fails, whatever else holds. */
  lemma UpdateRejectsUnknownStatus(t: Tables, nested: bool, input: UpdateUserTaskInput, now: Timestamp)
    requires !TaskTables.AcceptedStatus(input.status)
    ensures UpdateUserTask(t, nested, input, now).out.Err?
  {
    var body := UpdateBody(t, input, now);
  }

  /** The writes of a delete that passes every check: the row at that id is marked
      deleted, one event and one snapshot are appended. */
  lemma DeleteOfLiveTask(t: Tables, nested: bool, input: DeleteUserTaskInput, now: Timestamp)
    requires WellFormed(t)
    requires TaskTables.FindByIdForUser(t.tasks, input.taskId, input.userId).Some?
    requires Gate(t, TaskTables.FindByIdForUser(t.tasks, input.taskId, input.userId).value.workspaceId, input.userId, CanDelete).Ok?
    ensures 1 <= input.taskId <= |t.tasks|
    ensures var ex := t.tasks[input.taskId - 1];
      var deleted := TaskTables.MarkDeleted(ex, input.userId, DeviceField(input.deviceId), now);
      && TaskTables.FindByIdForUser(t.tasks, input.taskId, input.userId) == Some(ex)
      && DeleteUserTask(t, nested, input, now) == Effect(t.(
           tasks := t.tasks[input.taskId - 1 := deleted],
           events := t.events + [TaskEvent(ex.id, MovedToTrash, input.userId, None, None, None, None, EventApplied, input.deviceId)],
           versions := t.versions + [TaskVersion(ex.id, ex.version + 1, ToTaskSnapshot(deleted), input.userId)]), Ok(()))
      && WellFormed(DeleteUserTask(t, nested, input, now).db)
  {
    LiveTaskSitsAtItsId(t, input.taskId, input.userId);
    TaskTables.SoftDeleteHidesTask(t, input.taskId, input.userId, DeviceField(input.deviceId), now, input.userId);
  }

  /** A successful `updateUserTask` replaces the one row with that id: only the supplied
      columns change, the version goes up by exactly one, one applied event records the
      change (`status_changed` exactly when a different status was supplied), and one
      snapshot of the new row is kept at the new version. It succeeds exactly when the task
      is a live task of the caller, the gate passes, `baseVersion` is absent or current
      and the supplied status is one of the enum's. */
  lemma UpdateSucceeds(t: Tables, nested: bool, input: UpdateUserTaskInput, now: Timestamp)
    requires WellFormed(t)
    ensures var r := UpdateUserTask(t, nested, input, now);
      r.out.Ok? <==>
        && TaskTables.FindByIdForUser(t.tasks, input.taskId, input.userId).Some?
        && var ex := TaskTables.FindByIdForUser(t.tasks, input.taskId, input.userId).value;
        && Gate(t, ex.workspaceId, input.userId, CanEdit).Ok?
        && (input.baseVersion.Some? ==> ex.version == input.baseVersion.value)
        && TaskTables.AcceptedStatus(input.status)
    ensures var r := UpdateUserTask(t, nested, input, now);
      r.out.Ok? ==>
        var ex := TaskTables.FindByIdForUser(t.tasks, input.taskId, input.userId).value;
        var u := r.out.value;
        && 1 <= input.taskId <= |t.tasks| && ex == t.tasks[input.taskId - 1]
        && u.id == ex.id && u.version == ex.version + 1
        && u.title == input.title.GetOr(ex.title)
        && u.description == (if input.description.Some? then input.description else ex.description)
        && (input.status.Some? ==> StatusName(u.status) == input.status.value)
        && (input.status.None? ==> u.status == ex.status)
        && u.lastModifiedDeviceId == (if input.deviceId.Some? then input.deviceId else ex.lastModifiedDeviceId)
        && u.updatedBy == input.userId && u.updatedAt == now
        && u.(title := ex.title, description := ex.description, status := ex.status,
              lastModifiedDeviceId := ex.lastModifiedDeviceId, version := ex.version,
              updatedBy := ex.updatedBy, updatedAt := ex.updatedAt) == ex
        && r.db.tasks == t.tasks[input.taskId - 1 := u]
        && r.db.events == t.events + [TaskEvent(u.id, if ChangesStatus(input, ex) then StatusChanged else Updated,
             input.userId, Some(ex.status), Some(u.status), None, input.baseVersion, EventApplied, input.deviceId)]
        && r.db.versions == t.versions + [TaskVersion(u.id, u.version, ToTaskSnapshot(u), input.userId)]
        && ParseDecimal(ToTaskSnapshot(u).version) == Some(ex.version + 1)
        && WellFormed(r.db)
  {
    var existing := TaskTables.FindByIdForUser(t.tasks, input.taskId, input.userId);
    if !TaskTables.AcceptedStatus(input.status) {
      UpdateRejectsUnknownStatus(t, nested, input, now);
    } else if existing.Some? && Gate(t, existing.value.workspaceId, input.userId, CanEdit).Ok?
              && (input.baseVersion.Some? ==> existing.value.version == input.baseVersion.value) {
      UpdateOfLiveTask(t, nested, input, now);
      DecimalRoundTrip(existing.value.version + 1);
    }
  }

  /** A successful `deleteUserTask` marks the one row with that id deleted, by the caller,
      one version later; records one applied `moved_to_trash` event and a snapshot of the
      deleted row. It succeeds exactly when the task is a live task of the caller and the
      gate passes. */
  lemma DeleteSucceeds(t: Tables, nested: bool, input: DeleteUserTaskInput, now: Timestamp)
    requires WellFormed(t)
    ensures var r := DeleteUserTask(t, nested, input, now);
      r.out.Ok? <==>
        && TaskTables.FindByIdForUser(t.tasks, input.taskId, input.userId).Some?
        && Gate(t, TaskTables.FindByIdForUser(t.tasks, input.taskId, input.userId).value.workspaceId, input.userId, CanDelete).Ok?
    ensures var r := DeleteUserTask(t, nested, input, now);
      r.out.Ok? ==>
        var ex := TaskTables.FindByIdForUser(t.tasks, input.taskId, input.userId).value;
        var deleted := TaskTables.MarkDeleted(ex, input.userId, DeviceField(input.deviceId), now);
        && 1 <= input.taskId <= |t.tasks| && ex == t.tasks[input.taskId - 1]
        && deleted.isDeleted && deleted.version == ex.version + 1 && deleted.deletedBy == Some(input.userId)
        && r.db.tasks == t.tasks[input.taskId - 1 := deleted]
        && r.db.events == t.events + [TaskEvent(ex.id, MovedToTrash, input.userId, None, None, None, None, EventApplied, input.deviceId)]
        && r.db.versions == t.versions + [TaskVersion(ex.id, ex.version + 1, ToTaskSnapshot(deleted), input.userId)]
        && WellFormed(r.db)
  {
    var existing := TaskTables.FindByIdForUser(t.tasks, input.taskId, input.userId);
    if existing.Some? && Gate(t, existing.value.workspaceId, input.userId, CanDelete).Ok? {
      DeleteOfLiveTask(t, nested, input, now);
    }
  }


  /** Once deleted, a task is gone for every caller: a later update or delete of that id is
      NOT_FOUND and writes nothing. */
  lemma DeletedTaskStaysGone(t: Tables, nested: bool, input: DeleteUserTaskInput, now: Timestamp,
                             later: bool, u: UpdateUserTaskInput, d: DeleteUserTaskInput, now2: Timestamp)
    requires WellFormed(t)
    requires DeleteUserTask(t, nested, input, now).out.Ok?
    requires u.taskId == input.taskId && d.taskId == input.taskId
    ensures var t2 := DeleteUserTask(t, nested, input, now).db;
      && UpdateUserTask(t2, later, u, now2) == Effect(t2, Err(HttpError(NotFound)))
      && DeleteUserTask(t2, later, d, now2) == Effect(t2, Err(HttpError(NotFound)))
  {
    DeleteSucceeds(t, nested, input, now);
    var t2 := DeleteUserTask(t, nested, input, now).db;
    var s := TaskTables.SoftDeleteById(t, input.taskId, input.userId, DeviceField(input.deviceId), now);
    TaskTables.SoftDeleteHidesTask(t, input.taskId, input.userId, DeviceField(input.deviceId), now, u.userId);
    TaskTables.SoftDeleteHidesTask(t, input.taskId, input.userId, DeviceField(input.deviceId), now, d.userId);
    assert t2.tasks == s.db.tasks;
  }

  /** A stale `baseVersion` never touches the task or its history: on the root client nothing
      is written, inside a caller's transaction only the conflict event, which carries the
      server's version. */
  lemma ConflictKeepsTask(t: Tables, nested: bool, input: UpdateUserTaskInput, now: Timestamp)
    ensures var r := UpdateUserTask(t, nested, input, now);
      r.out == Err(HttpError(Conflict)) ==>
        var ex := TaskTables.FindByIdForUser(t.tasks, input.taskId, input.userId).value;
        && r.db.tasks == t.tasks && r.db.versions == t.versions
        && r.db.events == (if nested then t.events + [TaskEvent(ex.id, Updated, input.userId, None, None,
             Some(ServerVersion(IntToDecimal(ex.version))), input.baseVersion, EventConflict, input.deviceId)] else t.events)
        && ParseDecimal(IntToDecimal(ex.version)) == Some(ex.version)
  {
    var existing := TaskTables.FindByIdForUser(t.tasks, input.taskId, input.userId);
    if existing.Some? {
      DecimalRoundTrip(existing.value.version);
    }
  }

  /** A created task is listed for its creator whenever the creator holds a membership in
      the workspace it went to. */
  lemma CreatedTaskIsListed(t: Tables, nested: bool, input: CreateUserTaskInput, now: Timestamp)
    ensures var r := CreateUserTask(t, nested, input, now);
      r.out.Ok? && WorkspaceTables.HasMembership(r.db.members, r.out.value.workspaceId, input.userId) ==>
        r.out.value in ListUserTasks(r.db, input.userId)
  {
    var r := CreateUserTask(t, nested, input, now);
    if r.out.Ok? {
      assert r.db.tasks[|r.db.tasks| - 1] == r.out.value;
    }
  }
}
