/** `task-history.repository.ts`: the append-only event and version tables, on the
    transaction client when one is given and on the root client otherwise. */
module TaskHistoryRepository {
  import opened Domain
  import opened Store
  import TaskTables

  method CreateTaskEvent(data: TaskTables.CreateTaskEventData, db: Database) returns (e: TaskEvent)
    modifies db
    ensures var x := TaskTables.CreateTaskEvent(old(db.State()), data); db.State() == x.db && e == x.out
  {
    e := TaskEvent(
      taskId := data.taskId,
      eventType := data.eventType,
      performedBy := data.performedBy,
      fromStatus := data.fromStatus,
      toStatus := data.toStatus,
      details := data.details,
      baseVersion := data.baseVersion,
      result := data.result.GetOr(EventApplied),
      deviceId := data.deviceId);
    db.events := db.events + [e];
  }

  method CreateTaskVersion(data: TaskVersion, db: Database)
    modifies db
    ensures db.State() == TaskTables.CreateTaskVersion(old(db.State()), data)
  {
    db.versions := db.versions + [data];
  }
}
