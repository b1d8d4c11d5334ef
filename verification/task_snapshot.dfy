/** `toTaskSnapshot`: the JSON copy of a task row stored in `task_versions`. */
module TaskSnapshots {
  import opened Prelude
  import opened Domain

  function OptionalDecimal(v: Option<int>): (r: Option<string>)
    ensures r.None? <==> v.None?
    ensures r.Some? ==> ParseDecimal(r.value) == Some(v.value)
  {
    if v.Some? then DecimalRoundTrip(v.value); Some(IntToDecimal(v.value)) else None
  }

  /** Ids and counters become decimal strings that read back to the same numbers; the
      text columns, the status and the flags are copied; a nullable reference is null in
      the snapshot exactly when it is null in the row. */
  function ToTaskSnapshot(task: Task): (s: TaskSnapshot)
    ensures ParseDecimal(s.id) == Some(task.id)
    ensures ParseDecimal(s.workspaceId) == Some(task.workspaceId)
    ensures ParseDecimal(s.ownerUserId) == Some(task.ownerUserId)
    ensures ParseDecimal(s.version) == Some(task.version)
    ensures ParseDecimal(s.clientRev) == Some(task.clientRev)
    ensures s.title == task.title && s.description == task.description && s.status == task.status
    ensures s.isDeleted == task.isDeleted && s.clientId == task.clientId
    ensures s.lastModifiedDeviceId == task.lastModifiedDeviceId
    ensures s.assignedUserId.None? <==> task.assignedUserId.None?
    ensures s.deletedBy.None? <==> task.deletedBy.None?
    ensures s.deletedAt.None? <==> task.deletedAt.None?
  {
    DecimalRoundTrip(task.id);
    DecimalRoundTrip(task.workspaceId);
    DecimalRoundTrip(task.ownerUserId);
    DecimalRoundTrip(task.version);
    DecimalRoundTrip(task.clientRev);
    TaskSnapshot(
      id := IntToDecimal(task.id),
      clientId := task.clientId,
      clientRev := IntToDecimal(task.clientRev),
      workspaceId := IntToDecimal(task.workspaceId),
      title := task.title,
      description := task.description,
      status := task.status,
      ownerUserId := IntToDecimal(task.ownerUserId),
      assignedUserId := OptionalDecimal(task.assignedUserId),
      isDeleted := task.isDeleted,
      deletedAt := task.deletedAt,
      deletedBy := OptionalDecimal(task.deletedBy),
      version := IntToDecimal(task.version),
      lastModifiedDeviceId := task.lastModifiedDeviceId,
      lastModifiedAt := task.lastModifiedAt,
      createdAt := task.createdAt,
      updatedAt := task.updatedAt)
  }

  /** A snapshot determines every column of the task except the audit columns
      `created_by` and `updated_by`: a task's past state can be rebuilt from its versions. */
  lemma SnapshotDeterminesTask(a: Task, b: Task)
    requires ToTaskSnapshot(a) == ToTaskSnapshot(b)
    ensures a.(createdBy := b.createdBy, updatedBy := b.updatedBy) == b
  {
    var sa, sb := ToTaskSnapshot(a), ToTaskSnapshot(b);
    assert ParseDecimal(sa.id) == ParseDecimal(sb.id);
    assert a.assignedUserId.Some? ==> a.assignedUserId == b.assignedUserId by {
      if a.assignedUserId.Some? {
        assert ParseDecimal(sa.assignedUserId.value) == ParseDecimal(sb.assignedUserId.value);
      }
    }
    assert a.deletedBy.Some? ==> a.deletedBy == b.deletedBy by {
      if a.deletedBy.Some? {
        assert ParseDecimal(sa.deletedBy.value) == ParseDecimal(sb.deletedBy.value);
      }
    }
  }
}
