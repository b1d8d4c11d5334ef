/** `TaskService`: the task use cases over a task repository and a workspace repository,
    each mutation's body run through the task repository's `withTransaction`. */
module TaskServices {
  import opened Prelude
  import opened Errors
  import opened Domain
  import opened Store
  import opened TaskSnapshots
  import TaskTables
  import WorkspaceTables
  import opened PrismaTaskRepositories
  import opened PrismaWorkspaceRepositories
  import Spec = TaskServiceSpec

  class TaskService {
    const taskRepository: PrismaTaskRepository
    const workspaceRepository: PrismaWorkspaceRepository

    /** Both repositories sit on the same database. */
    predicate Valid() {
      taskRepository.db == workspaceRepository.db
    }

    constructor (taskRepository: PrismaTaskRepository, workspaceRepository: PrismaWorkspaceRepository)
      requires taskRepository.db == workspaceRepository.db
      ensures this.taskRepository == taskRepository && this.workspaceRepository == workspaceRepository
      ensures Valid()
    {
      this.taskRepository := taskRepository;
      this.workspaceRepository := workspaceRepository;
    }

    /** Whether the mutations run inside a caller's transaction. */
    function Nested(): bool {
      taskRepository.onTransactionClient
    }

    /** The workspace lookup, membership lookup and owner test each mutation makes. */
    method CheckAccess(workspaceId: int, userId: int, c: Spec.Capability) returns (r: Result<()>)
      ensures r == Spec.Gate(workspaceRepository.db.State(), workspaceId, userId, c)
    {
      var workspace := workspaceRepository.FindById(workspaceId);
      if workspace.None? {
        return Err(HttpError(NotFound));
      }
      var member := workspaceRepository.FindMember(workspaceId, userId);
      var isOwner := workspace.value.ownerUserId == userId;
      if member.None? && !isOwner {
        return Err(HttpError(Forbidden));
      }
      if member.Some? && !Spec.Allows(member.value, c) && !isOwner {
        return Err(HttpError(Forbidden));
      }
      r := Ok(());
    }

    method ListUserTasks(userId: int) returns (r: seq<Task>)
      requires Valid()
      ensures r == Spec.ListUserTasks(taskRepository.db.State(), userId)
    {
      var workspaceIds := workspaceRepository.ListWorkspaceIdsForUser(userId);
      if |workspaceIds| == 0 {
        return [];
      }
      r := taskRepository.ListByWorkspaceIds(workspaceIds);
    }

    method CreateUserTask(input: Spec.CreateUserTaskInput, now: Timestamp) returns (r: Result<Task>)
      requires Valid()
      modifies taskRepository.db
      ensures var e := Spec.CreateUserTask(old(taskRepository.db.State()), Nested(), input, now);
        taskRepository.db.State() == e.db && r == e.out
    {
      var workspaceId: int;
      if input.workspaceId.Some? {
        workspaceId := input.workspaceId.value;
      } else {
        var first := workspaceRepository.FindFirstWorkspaceIdForUser(input.userId);
        if first.Some? {
          workspaceId := first.value;
        } else {
          var w := workspaceRepository.CreateDefault(input.userId, now);
          workspaceId := w.id;
        }
      }
      assert Effect(taskRepository.db.State(), workspaceId)
          == Spec.ResolveWorkspace(old(taskRepository.db.State()), input.userId, input.workspaceId, now);

      var access := CheckAccess(workspaceId, input.userId, Spec.CanCreate);
      if access.Err? {
        return Err(access.error);
      }
      var data := Spec.CreateData(input, workspaceId);

      var scope, repo := taskRepository.BeginTransaction();
      var created := repo.Create(data, now);
      if created.Err? {
        taskRepository.EndTransaction(scope, true);
        return created;
      }
      var task := created.value;
      repo.CreateTaskVersion(TaskVersion(task.id, task.version, ToTaskSnapshot(task), input.userId));
      var event := repo.CreateTaskEvent(Spec.CreatedEvent(task, input));
      taskRepository.EndTransaction(scope, false);
      r := Ok(task);
    }

    /** The `updateData` of `updateUserTask`, one supplied field at a time. */
    static method BuildUpdateData(input: Spec.UpdateUserTaskInput) returns (data: TaskTables.UpdateTaskData)
      ensures data == Spec.UpdateData(input)
    {
      data := TaskTables.UpdateTaskData(None, TaskTables.Keep, None, input.userId, TaskTables.Keep, true);
      if input.title.Some? {
        data := data.(title := input.title);
      }
      if input.description.Some? {
        data := data.(description := TaskTables.SetTo(input.description));
      }
      if input.status.Some? {
        data := data.(status := input.status);
      }
      if input.deviceId.Some? {
        data := data.(deviceId := TaskTables.SetTo(input.deviceId));
      }
    }

    method UpdateUserTask(input: Spec.UpdateUserTaskInput, now: Timestamp) returns (r: Result<Task>)
      requires Valid()
      modifies taskRepository.db
      ensures var e := Spec.UpdateUserTask(old(taskRepository.db.State()), Nested(), input, now);
        taskRepository.db.State() == e.db && r == e.out
    {
      var scope, repo := taskRepository.BeginTransaction();
      var existing := repo.FindByIdForUser(input.taskId, input.userId);
      if existing.None? {
        taskRepository.EndTransaction(scope, true);
        return Err(HttpError(NotFound));
      }
      var ex := existing.value;
      var access := CheckAccess(ex.workspaceId, input.userId, Spec.CanEdit);
      if access.Err? {
        taskRepository.EndTransaction(scope, true);
        return Err(access.error);
      }
      if input.baseVersion.Some? && ex.version != input.baseVersion.value {
        var conflict := repo.CreateTaskEvent(Spec.ConflictEvent(ex, input));
        taskRepository.EndTransaction(scope, true);
        return Err(HttpError(Conflict));
      }

      var data := BuildUpdateData(input);
      var updated := repo.UpdateById(input.taskId, data, now);
      if updated.Err? {
        taskRepository.EndTransaction(scope, true);
        return Err(updated.error);
      }
      var task := updated.value;
      var event := repo.CreateTaskEvent(Spec.UpdatedEvent(ex, task, input));
      repo.CreateTaskVersion(TaskVersion(task.id, task.version, ToTaskSnapshot(task), input.userId));
      taskRepository.EndTransaction(scope, false);
      r := Ok(task);
    }

    method DeleteUserTask(input: Spec.DeleteUserTaskInput, now: Timestamp) returns (r: Result<()>)
      requires Valid()
      modifies taskRepository.db
      ensures var e := Spec.DeleteUserTask(old(taskRepository.db.State()), Nested(), input, now);
        taskRepository.db.State() == e.db && r == e.out
    {
      var scope, repo := taskRepository.BeginTransaction();
      var existing := repo.FindByIdForUser(input.taskId, input.userId);
      if existing.None? {
        taskRepository.EndTransaction(scope, true);
        return Err(HttpError(NotFound));
      }
      var ex := existing.value;
      var access := CheckAccess(ex.workspaceId, input.userId, Spec.CanDelete);
      if access.Err? {
        taskRepository.EndTransaction(scope, true);
        return Err(access.error);
      }
      var deleted := repo.SoftDeleteById(input.taskId, input.userId, Spec.DeviceField(input.deviceId), now);
      var task := deleted.value;
      var event := repo.CreateTaskEvent(Spec.TrashEvent(task, input));
      repo.CreateTaskVersion(TaskVersion(task.id, task.version, ToTaskSnapshot(task), input.userId));
      taskRepository.EndTransaction(scope, false);
      r := Ok(());
    }
  }
}
