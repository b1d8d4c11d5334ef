# Task manager with offline sync: a Dafny model of the core

The system is a multi-user task manager. Tasks live in workspaces, and the people in a
workspace hold memberships with four flags (view, create, edit, delete). Every change to a
task bumps its `version`, appends an event to `task_events` and keeps a JSON snapshot in
`task_versions`. Offline clients push batches of operations tagged with
`(deviceId, opId)`. A reconciler answers each operation from the `sync_operations` ledger
when it has seen that pair before. Otherwise it dispatches the operation to the task
service and records the outcome (`applied`, `conflict` or `rejected`) as one ledger row.

This project models that core:

- the task service;
- both reconcilers: the `SyncService` class and the older module-level `applySyncOperations`;
- the Prisma repositories, in class form and as free functions;
- the workspace services and the invitation state machine;
- the task and sync controllers;
- the snapshot mapper.

## How the model is built

- **The database.** `Store.Database` is a class with one sequence field per table. Its
  value at any moment is a `Domain.Tables`.
- **Spec functions.** Every Prisma call and every use case is first a pure function from
  `Tables` to an `Effect` (the new tables and the result). These functions are in
  `TaskTables`, `WorkspaceTables`, `LedgerTables`, `TaskServiceSpec`,
  `WorkspaceServiceSpec` and `SyncSpec`.
- **Classes and methods.** The repository classes, the services and the reconcilers'
  loops are classes and methods that update the database field by field, as the
  TypeScript does. Each method's `ensures` ties the new database and its result to the
  spec function.
- **Properties.** The properties are lemmas about the spec functions.

### Transactions

`withTransaction` is a bracket. `BeginTransaction` remembers the tables, and
`EndTransaction` rolls back only a transaction it opened itself, and only when the body
threw (`Store.CloseScope`).

A repository on a transaction client runs in its caller's transaction. This decides what a
version conflict leaves behind:

- **`SyncService` class.** It builds the task service on the per-operation transaction
  client (`nested = true`), so the conflict event is committed together with the ledger
  row.
- **Older reconciler.** It uses the root client (`nested = false`), so the conflict event
  is rolled back and only the ledger row remains.

### JavaScript values

Request bodies and payloads are `JsValues.Json`. The coercions the code applies are
written out: `??`, truthiness, `typeof` checks, `String(v)` and `BigInt(v)`.
`JsValues.Prop`, `JsValues.Coalesce`, `JsValues.Truthy`, `JsValues.ToJsString`,
`JsValues.AsString`, `JsValues.AsNumber` and `TasksController.ParamValue` are definitions of one JavaScript operator each. Their
contracts spell out that operator and prove nothing beyond it. The properties built on them
are proved in `JsValues.ToBigInt`, `SyncSpec` and the controllers.

### Where the code is looser than its error messages suggest

- A sync `create` has no title check, so an absent title becomes `""`.
- In the model, a `task` operation that is none of `create`, `update`, `status` and
  `delete` is ledgered as `applied` without any mutation. For `restore` and `revert` this
  is what the code does. For the empty operation the controller defaults to, it is not:
  the ledger's enum check is not modelled (see "Left out").
- A status string outside the enum reaches Prisma from the sync path. Prisma refuses it
  (`InvalidEnumValue`), so the operation is `rejected`.

## Model

| member | source | states |
|---|---|---|
| Domain.ParseStatus | src/controllers/tasks.controller.ts:21-22 | a status string is accepted exactly when it is `pendiente`, `en_progreso` or `completada`, and the accepted value renders back to the same string |
| JsValues.Prop | src/controllers/sync.controller.ts:9-11 | definition of a property read: reading a key yields a value exactly when the value is an object holding that key, and then it is that field |
| JsValues.Coalesce | src/controllers/sync.controller.ts:20-27 | definition of `??`: `v ?? fallback` is the fallback exactly when `v` is null or undefined, otherwise `v` |
| JsValues.AsString | src/features/sync/services/SyncService.ts:49-52 | definition of the `typeof v === "string"` guard, which keeps exactly the string values, unchanged |
| JsValues.AsNumber | src/features/sync/services/SyncService.ts:53 | definition of the `typeof v === "number"` guard, which keeps exactly the numbers, unchanged |
| JsValues.Truthy | src/features/sync/services/SyncService.ts:51 | definition of JavaScript truthiness: a value is truthy exactly when it is present and is none of `null`, `false`, `0` and `""` |
| JsValues.ToJsString | src/features/sync/services/SyncService.ts:48 | definition of `String(v)`: a string is itself, `null` is `"null"`, and a number renders as the decimal that parses back to it; it gives the sync-create title and the echoed operation id (src/controllers/sync.controller.ts:21) |
| JsValues.StringToBigInt | src/controllers/tasks.controller.ts:16 | `BigInt` of a string: a blank string is 0, otherwise the trimmed string read as a signed decimal |
| JsValues.ToBigInt | src/features/sync/services/SyncService.ts:66 | `BigInt(v)`: a number is kept; a non-blank decimal string gives its value; a non-blank string that is not an integer gives a syntax error; `null` gives a type error |
| JsValues.BigIntOfRenderedInt | src/controllers/tasks.controller.ts:26 | `BigInt` of the decimal rendering of an integer gives back that integer |
| Prelude.FirstMatch | src/features/tasks/repositories/PrismaTaskRepository.ts:21-25 | a `findFirst` returns the first row matching the `where` clause, and nothing exactly when no row matches |
| Prelude.Filter | src/features/tasks/repositories/PrismaTaskRepository.ts:15-16 | a `findMany` keeps exactly the rows matching the `where` clause, each as often as the table holds it, and no other row |
| Prelude.SortDesc | src/features/tasks/repositories/PrismaTaskRepository.ts:17 | `orderBy desc` returns the same rows, as often as before, with keys non-increasing |
| Prelude.SortedFilterMembers | src/features/tasks/repositories/PrismaTaskRepository.ts:14-19 | a filtered and sorted query returns exactly the rows that pass the filter |
| Prelude.Trim | src/features/workspaces/services/WorkspaceService.ts:14-18 | `trim()` is the infix of the string with no white space at either end; it is empty exactly when the string is all white space |
| Prelude.ParseDecimal | src/controllers/tasks.controller.ts:16 | a string is read as an integer exactly when it is an optional sign followed by one or more decimal digits |
| Prelude.ParseDecimalValue | src/controllers/tasks.controller.ts:16 | the value read is the digits' value, negated after a minus sign, unchanged after a plus sign |
| Prelude.SignedDecimalValue | src/controllers/tasks.controller.ts:16 | a sign followed by digits is read by its sign, never as a digit string |
| Prelude.LeadingZeroValue | src/controllers/tasks.controller.ts:16 | a leading zero does not change the value of a digit string, so "007" is read as 7 |
| Prelude.SignedDigits | src/controllers/tasks.controller.ts:16 | "-0" is read as 0 and "+5" as 5 |
| Prelude.DecimalRoundTrip | src/utils/task-snapshot.ts:16 | reading back the decimal rendering of an integer gives the integer |
| Prelude.DecimalInjective | src/utils/task-snapshot.ts:4-16 | distinct integers have distinct decimal renderings |
| Store.Database.Restore | src/features/tasks/repositories/PrismaTaskRepository.ts:110-111 | a rollback puts every table back as it was when the transaction opened |
| Store.CloseScope | src/features/tasks/repositories/PrismaTaskRepository.ts:108-115 | a transaction the call opened is rolled back exactly when the body threw; inside a caller's transaction the body's writes stay |
| TaskSnapshots.OptionalDecimal | src/utils/task-snapshot.ts:12-15 | a nullable id is null in the snapshot exactly when null in the row, and otherwise reads back to the id |
| TaskSnapshots.ToTaskSnapshot | src/utils/task-snapshot.ts:3-21 | ids, version and client revision become decimal strings that read back to the same numbers; title, description, status, deleted flag, client id and device are copied; nullable references are null exactly when null in the row |
| TaskSnapshots.SnapshotDeterminesTask | src/utils/task-snapshot.ts:3-21 | two tasks with the same snapshot agree on every column except `created_by` and `updated_by` |
| TaskTables.FindByIdForUser | src/features/tasks/repositories/PrismaTaskRepository.ts:21-25 | a row is found only when id, owner and not-deleted all match, and nothing is found exactly when no row matches all three |
| TaskTables.ListByWorkspaceIds | src/features/tasks/repositories/PrismaTaskRepository.ts:14-19 | exactly the live tasks of the given workspaces, each as often as stored, most recently updated first |
| TaskTables.ListByOwner | src/repositories/task.repository.ts:8-13 | exactly the user's own live tasks, each as often as stored, most recently updated first |
| TaskTables.Create | src/features/tasks/repositories/PrismaTaskRepository.ts:27-43 | appends one live row with the next id: status defaults to `pendiente`, creator and last updater are the owner, initial version, client revision only when given; a status outside the enum fails and writes nothing |
| TaskTables.ApplyUpdate | src/features/tasks/repositories/PrismaTaskRepository.ts:46-55 | each supplied column is set and each omitted one kept; `updated_by` is always set; the version goes up by one exactly when `incrementVersion`; every other column is unchanged |
| TaskTables.UpdateById | src/features/tasks/repositories/PrismaTaskRepository.ts:45-61 | an invalid status or a missing id fails and writes nothing; otherwise only the first row with that id is replaced |
| TaskTables.MarkDeleted | src/features/tasks/repositories/PrismaTaskRepository.ts:64-73 | a soft delete sets deleted, deleted-at, `deleted_by`, `updated_by` and version + 1; the device changes only when given; title, description, status and the rest are unchanged |
| TaskTables.SoftDeleteById | src/features/tasks/repositories/PrismaTaskRepository.ts:63-79 | a missing id fails and writes nothing; otherwise only the first row with that id is marked deleted |
| TaskTables.CreateTaskEvent | src/features/tasks/repositories/PrismaTaskRepository.ts:81-95 | appends exactly one event holding the given values, with the result defaulting to `applied` |
| TaskTables.EventInsertAppendsOneRow | src/features/tasks/repositories/PrismaTaskRepository.ts:81-95 | an event insert adds exactly one event with the given task, type, actor and device, keeps every earlier event in place and leaves the other tables alone |
| TaskTables.CreateTaskVersion | src/features/tasks/repositories/PrismaTaskRepository.ts:97-106 | appends exactly the given version row and changes nothing else |
| TaskTables.UpdateHitsTheRowWithThatId | src/features/tasks/repositories/PrismaTaskRepository.ts:57-60 | on well-formed tables an update of an existing id succeeds and replaces exactly the row at that id |
| TaskTables.UpdateKeepsWellFormed | src/features/tasks/repositories/PrismaTaskRepository.ts:45-61 | an update keeps every row id equal to its position |
| TaskTables.SoftDeleteHidesTask | src/features/tasks/repositories/PrismaTaskRepository.ts:63-79 | after a soft delete the tables stay well formed and the task is found by no one |
| PrismaTaskRepositories.PrismaTaskRepository.constructor | src/features/tasks/repositories/PrismaTaskRepository.ts:12 | the repository sits on the given database and client kind |
| PrismaTaskRepositories.PrismaTaskRepository.ListByWorkspaceIds | src/features/tasks/repositories/PrismaTaskRepository.ts:14-19 | returns the live tasks of the workspaces, most recently updated first |
| PrismaTaskRepositories.PrismaTaskRepository.FindByIdForUser | src/features/tasks/repositories/PrismaTaskRepository.ts:21-25 | returns a row only when id, owner and not-deleted all match |
| PrismaTaskRepositories.PrismaTaskRepository.Create | src/features/tasks/repositories/PrismaTaskRepository.ts:27-43 | builds the row by successive conditional assignments and leaves the database as `TaskTables.Create` says |
| PrismaTaskRepositories.PrismaTaskRepository.UpdateById | src/features/tasks/repositories/PrismaTaskRepository.ts:45-61 | sets the supplied columns one `if` at a time and leaves the database as `TaskTables.UpdateById` says |
| PrismaTaskRepositories.PrismaTaskRepository.SoftDeleteById | src/features/tasks/repositories/PrismaTaskRepository.ts:63-79 | leaves the database as `TaskTables.SoftDeleteById` says |
| PrismaTaskRepositories.PrismaTaskRepository.CreateTaskEvent | src/features/tasks/repositories/PrismaTaskRepository.ts:81-95 | appends the event `TaskTables.CreateTaskEvent` describes |
| PrismaTaskRepositories.PrismaTaskRepository.CreateTaskVersion | src/features/tasks/repositories/PrismaTaskRepository.ts:97-106 | appends the version row |
| PrismaTaskRepositories.PrismaTaskRepository.BeginTransaction | src/features/tasks/repositories/PrismaTaskRepository.ts:108-114 | on the root client a transaction is opened and the body gets a transaction-client repository; on a transaction client the body runs with this repository in the caller's transaction |
| PrismaTaskRepositories.PrismaTaskRepository.EndTransaction | src/features/tasks/repositories/PrismaTaskRepository.ts:108-115 | the database ends as `CloseScope` says |
| TaskRepositoryFunctions.ListTasksByUser | src/repositories/task.repository.ts:8-13 | returns exactly the user's own live tasks, most recently updated first |
| TaskRepositoryFunctions.ListTasksByWorkspaceIds | src/repositories/task.repository.ts:15-20 | returns exactly the live tasks of the given workspaces, most recently updated first |
| TaskRepositoryFunctions.FindTaskByIdForUser | src/repositories/task.repository.ts:22-26 | returns a row only when id, owner and not-deleted all match |
| TaskRepositoryFunctions.CreateTask | src/repositories/task.repository.ts:48-64 | same effect as the class's `create` (`TaskTables.Create`) |
| TaskRepositoryFunctions.UpdateTaskById | src/repositories/task.repository.ts:66-82 | same effect as the class's `updateById` (`TaskTables.UpdateById`) |
| TaskRepositoryFunctions.SoftDeleteTaskById | src/repositories/task.repository.ts:84-105 | same effect as the class's `softDeleteById` (`TaskTables.SoftDeleteById`) |
| TaskHistoryRepository.CreateTaskEvent | src/repositories/task-history.repository.ts:6-30 | appends exactly one event with the defaults of `TaskTables.CreateTaskEvent`, changing nothing else |
| TaskHistoryRepository.CreateTaskVersion | src/repositories/task-history.repository.ts:32-45 | appends exactly the given version row, changing nothing else |
| WorkspaceTables.FindById | src/features/workspaces/repositories/PrismaWorkspaceRepository.ts:14-16 | finds a workspace with that id, and nothing exactly when none has it |
| WorkspaceTables.FindMember | src/features/workspaces/repositories/PrismaWorkspaceRepository.ts:93-97 | finds the membership keyed by (workspace, user), and nothing exactly when there is none |
| WorkspaceTables.FirstWorkspaceIdForUser | src/features/workspaces/repositories/PrismaWorkspaceRepository.ts:68-75 | null exactly when the user has no membership; otherwise the workspace of one of their memberships |
| WorkspaceTables.ListWorkspaceIdsForUser | src/features/workspaces/repositories/PrismaWorkspaceRepository.ts:77-84 | the workspace id of every membership of the user, in table order, and no other |
| WorkspaceTables.FirstWorkspaceIsHeadOfList | src/features/workspaces/repositories/PrismaWorkspaceRepository.ts:68-84 | the first workspace id found is the head of the id list, and there is none exactly when the list is empty |
| WorkspaceTables.ListWorkspacesForUser | src/features/workspaces/repositories/PrismaWorkspaceRepository.ts:86-91 | exactly the workspaces the user has a membership in, most recently created first |
| WorkspaceTables.FindInvitationByTokenHash | src/features/workspaces/repositories/PrismaWorkspaceRepository.ts:147-151 | finds an invitation with that token hash, and nothing exactly when none has it |
| WorkspaceTables.AddMember | src/features/workspaces/repositories/PrismaWorkspaceRepository.ts:93-119 | fails with a unique-key error and writes nothing exactly when the (workspace, user) pair already has a membership; otherwise appends one membership: view defaults to true, create/edit/delete to false, the inviter to null |
| WorkspaceTables.AddedMemberIsFound | src/features/workspaces/repositories/PrismaWorkspaceRepository.ts:93-119 | after a successful `addMember`, `findMember` for that pair returns the new row |
| WorkspaceTables.CreateWorkspace | src/features/workspaces/repositories/PrismaWorkspaceRepository.ts:43-66 | appends the named workspace with the next id, created and updated by the owner, and the owner's membership with all four flags, invited by the owner; nothing else changes and the new workspace is then found by its id |
| WorkspaceTables.CreateDefault | src/features/workspaces/repositories/PrismaWorkspaceRepository.ts:18-41 | the same as `createWorkspace` with the name "Personal" |
| WorkspaceTables.CreateInvitation | src/features/workspaces/repositories/PrismaWorkspaceRepository.ts:121-145 | appends one pending invitation with the next id; view defaults to true and the other flags to false |
| WorkspaceTables.AcceptInvitation | src/features/workspaces/repositories/PrismaWorkspaceRepository.ts:153-158 | only the status of the invitation with that id changes, to accepted; a missing id fails and writes nothing |
| PrismaWorkspaceRepositories.PrismaWorkspaceRepository.constructor | src/features/workspaces/repositories/PrismaWorkspaceRepository.ts:12 | the repository sits on the given database |
| PrismaWorkspaceRepositories.PrismaWorkspaceRepository.FindById | src/features/workspaces/repositories/PrismaWorkspaceRepository.ts:14-16 | returns `WorkspaceTables.FindById` of the current tables |
| PrismaWorkspaceRepositories.PrismaWorkspaceRepository.CreateWorkspace | src/features/workspaces/repositories/PrismaWorkspaceRepository.ts:43-66 | inserts the workspace, then the owner membership, as `WorkspaceTables.CreateWorkspace` |
| PrismaWorkspaceRepositories.PrismaWorkspaceRepository.CreateDefault | src/features/workspaces/repositories/PrismaWorkspaceRepository.ts:18-41 | as `WorkspaceTables.CreateDefault` |
| PrismaWorkspaceRepositories.PrismaWorkspaceRepository.FindFirstWorkspaceIdForUser | src/features/workspaces/repositories/PrismaWorkspaceRepository.ts:68-75 | null exactly when the user has no membership |
| PrismaWorkspaceRepositories.PrismaWorkspaceRepository.ListWorkspaceIdsForUser | src/features/workspaces/repositories/PrismaWorkspaceRepository.ts:77-84 | exactly the workspaces of the user's memberships |
| PrismaWorkspaceRepositories.PrismaWorkspaceRepository.ListWorkspacesForUser | src/features/workspaces/repositories/PrismaWorkspaceRepository.ts:86-91 | exactly the workspaces shared with the user, most recently created first |
| PrismaWorkspaceRepositories.PrismaWorkspaceRepository.FindMember | src/features/workspaces/repositories/PrismaWorkspaceRepository.ts:93-97 | a membership is returned only for that (workspace, user) pair |
| PrismaWorkspaceRepositories.PrismaWorkspaceRepository.AddMember | src/features/workspaces/repositories/PrismaWorkspaceRepository.ts:93-119 | as `WorkspaceTables.AddMember` |
| PrismaWorkspaceRepositories.PrismaWorkspaceRepository.CreateInvitation | src/features/workspaces/repositories/PrismaWorkspaceRepository.ts:121-145 | as `WorkspaceTables.CreateInvitation` |
| PrismaWorkspaceRepositories.PrismaWorkspaceRepository.FindInvitationByTokenHash | src/features/workspaces/repositories/PrismaWorkspaceRepository.ts:147-151 | an invitation is returned only when it has that token hash |
| PrismaWorkspaceRepositories.PrismaWorkspaceRepository.AcceptInvitation | src/features/workspaces/repositories/PrismaWorkspaceRepository.ts:153-158 | as `WorkspaceTables.AcceptInvitation` |
| WorkspaceRepositoryFunctions.FindWorkspaceById | src/repositories/workspace.repository.ts:3-5 | as the class's `findById` |
| WorkspaceRepositoryFunctions.CreateDefaultWorkspace | src/repositories/workspace.repository.ts:7-30 | "Personal" plus the owner's all-true membership (`WorkspaceTables.CreateDefault`) |
| WorkspaceRepositoryFunctions.CreateWorkspace | src/repositories/workspace.repository.ts:32-55 | the named workspace plus the owner's all-true membership |
| WorkspaceRepositoryFunctions.FindFirstWorkspaceIdForUser | src/repositories/workspace.repository.ts:57-64 | null exactly when the user has no membership |
| WorkspaceRepositoryFunctions.ListWorkspaceIdsForUser | src/repositories/workspace.repository.ts:66-73 | exactly the workspaces of the user's memberships |
| WorkspaceRepositoryFunctions.ListWorkspacesForUser | src/repositories/workspace.repository.ts:75-80 | exactly the workspaces shared with the user, most recently created first |
| WorkspaceRepositoryFunctions.FindWorkspaceMember | src/repositories/workspace.repository.ts:82-86 | keyed by (workspace, user) |
| WorkspaceRepositoryFunctions.AddWorkspaceMember | src/repositories/workspace.repository.ts:82-108 | as `WorkspaceTables.AddMember`: a duplicate (workspace, user) pair fails and writes nothing; otherwise view defaults to true, the other flags to false |
| WorkspaceRepositoryFunctions.CreateWorkspaceInvitation | src/repositories/workspace.repository.ts:110-134 | a pending invitation with the flag defaults |
| WorkspaceRepositoryFunctions.FindInvitationByTokenHash | src/repositories/workspace.repository.ts:136-140 | keyed by the token hash |
| WorkspaceRepositoryFunctions.AcceptInvitation | src/repositories/workspace.repository.ts:142-147 | only the status changes, to accepted |
| WorkspaceServiceSpec.CheckWorkspaceName | src/features/workspaces/services/WorkspaceService.ts:14-16 | BAD_REQUEST exactly when the name is empty or all white space; otherwise the trimmed name, which neither starts nor ends with white space |
| WorkspaceServiceSpec.CreateUserWorkspace | src/features/workspaces/services/WorkspaceService.ts:13-19 | a rejected name writes nothing; otherwise the workspace is created under the trimmed name, owned by the caller |
| WorkspaceServiceSpec.InvitationExpiry | src/features/workspaces/services/WorkspaceService.ts:44 | the expiry is the given number of hours after now, 72 hours (259,200,000 ms) by default; within the route's 1 to 168 hours it lies after now and at most a week later |
| WorkspaceServiceSpec.InviteAccess | src/features/workspaces/services/WorkspaceService.ts:31-40 | NOT_FOUND exactly for a missing workspace; the owner or any member may invite, whatever their flags; anyone else is FORBIDDEN |
| WorkspaceServiceSpec.CreateInvitation | src/features/workspaces/services/WorkspaceService.ts:21-59 | succeeds exactly when the access check passes; a failure writes nothing; a success stores one pending invitation under the hash of the token with the requested flags, and returns the token and expiry |
| WorkspaceServiceSpec.AcceptInvitationToken | src/features/workspaces/services/WorkspaceService.ts:61-87 | unknown hash gives NOT_FOUND; not pending, or expiry strictly before now, gives BAD_REQUEST; a caller who is already a member of the workspace gets the unique-key error and the invitation stays pending; none of these writes anything; otherwise exactly one membership with the invitation's flags, invited by its creator, is added and only that invitation turns accepted |
| WorkspaceServiceSpec.AcceptedInviteeIsMember | src/features/workspaces/services/WorkspaceService.ts:74-86 | after a successful acceptance, the caller is found as a member of the invitation's workspace with exactly its flags |
| WorkspaceServiceSpec.AcceptTwiceFails | src/features/workspaces/services/WorkspaceService.ts:67-84 | once a token has been accepted, accepting it again, by anyone at any time, is BAD_REQUEST and writes nothing |
| WorkspaceServiceSpec.WorkspaceUseCasesKeepWellFormed | src/features/workspaces/services/WorkspaceService.ts:13-87 | creating a workspace, inviting and accepting keep every row id equal to its position |
| WorkspaceServices.WorkspaceService.constructor | src/features/workspaces/services/WorkspaceService.ts:7 | the service uses the given repository |
| WorkspaceServices.WorkspaceService.ListUserWorkspaces | src/features/workspaces/services/WorkspaceService.ts:9-11 | the user's workspaces, most recently created first |
| WorkspaceServices.WorkspaceService.CreateUserWorkspace | src/features/workspaces/services/WorkspaceService.ts:13-19 | leaves the database and returns as `WorkspaceServiceSpec.CreateUserWorkspace` |
| WorkspaceServices.WorkspaceService.CreateInvitation | src/features/workspaces/services/WorkspaceService.ts:21-59 | as `WorkspaceServiceSpec.CreateInvitation` |
| WorkspaceServices.WorkspaceService.AcceptInvitationToken | src/features/workspaces/services/WorkspaceService.ts:61-87 | as `WorkspaceServiceSpec.AcceptInvitationToken` |
| LegacyWorkspaceServices.ListUserWorkspaces | src/services/workspaces.service.ts:15-17 | the user's workspaces, most recently created first |
| LegacyWorkspaceServices.CreateUserWorkspace | src/services/workspaces.service.ts:19-25 | blank name rejected, trimmed name stored (`WorkspaceServiceSpec.CreateUserWorkspace`) |
| LegacyWorkspaceServices.CreateInvitation | src/services/workspaces.service.ts:27-65 | as `WorkspaceServiceSpec.CreateInvitation` |
| LegacyWorkspaceServices.AcceptInvitationToken | src/services/workspaces.service.ts:67-93 | as `WorkspaceServiceSpec.AcceptInvitationToken` |
| TaskServiceSpec.Authorize | src/features/tasks/services/TaskService.ts:52-64 | NOT_FOUND exactly for a missing workspace; success exactly for the owner or a member holding the needed flag; every other case is FORBIDDEN |
| TaskServiceSpec.ListUserTasks | src/features/tasks/services/TaskService.ts:35-39 | exactly the live tasks of the workspaces the user is a member of, each as often as the table holds it, most recently updated first |
| TaskServiceSpec.ResolveWorkspace | src/features/tasks/services/TaskService.ts:42-45 | the explicit workspace id, else the user's first membership, else a new "Personal" workspace |
| TaskServiceSpec.CreateUserTask | src/features/tasks/services/TaskService.ts:41-97 | succeeds exactly when the gate passes and the status is valid; then exactly one task, one version at its version and one `created`/`applied` event are appended; status defaults to `pendiente`; a failure writes nothing beyond the workspace that resolving may have created |
| TaskServiceSpec.UpdateUserTask | src/features/tasks/services/TaskService.ts:99-178 | only task tables are written; NOT_FOUND without a live own task and the gate's failures write nothing; CONFLICT exactly for a stale base version after the gate, keeping its event only inside a caller's transaction |
| TaskServiceSpec.DeleteUserTask | src/features/tasks/services/TaskService.ts:180-221 | only task tables are written; NOT_FOUND without a live own task, then the gate; every failure writes nothing |
| TaskServices.TaskService.constructor | src/features/tasks/services/TaskService.ts:30-33 | both repositories are kept and sit on one database |
| TaskServices.TaskService.CheckAccess | src/features/tasks/services/TaskService.ts:52-64 | the workspace lookup, membership lookup and owner test give the gate's result |
| TaskServices.TaskService.ListUserTasks | src/features/tasks/services/TaskService.ts:35-39 | returns `TaskServiceSpec.ListUserTasks` of the current tables |
| TaskServices.TaskService.CreateUserTask | src/features/tasks/services/TaskService.ts:41-97 | leaves the database and returns as `TaskServiceSpec.CreateUserTask` with its own client kind |
| TaskServices.TaskService.BuildUpdateData | src/features/tasks/services/TaskService.ts:135-151 | the update data holds the caller as updater, a version increment and exactly the supplied fields |
| TaskServices.TaskService.UpdateUserTask | src/features/tasks/services/TaskService.ts:99-178 | as `TaskServiceSpec.UpdateUserTask` |
| TaskServices.TaskService.DeleteUserTask | src/features/tasks/services/TaskService.ts:180-221 | as `TaskServiceSpec.DeleteUserTask` |
| TaskServiceProperties.DefaultWorkspaceAdmitsCreator | src/features/tasks/services/TaskService.ts:42-64 | a user with no membership gets a "Personal" workspace they own, and pass the create gate there |
| TaskServiceProperties.CreatePermissionFailureWritesNothing | src/features/tasks/services/TaskService.ts:52-64 | an HTTP error from create (NOT_FOUND or FORBIDDEN) writes nothing at all, since a workspace created for the caller always admits them |
| TaskServiceProperties.OthersTasksAreNotFound | src/features/tasks/services/TaskService.ts:101-104 | a task another user owns, or a deleted one, is NOT_FOUND for update and delete, with nothing written |
| TaskServiceProperties.UpdateSucceeds | src/features/tasks/services/TaskService.ts:135-176 | success exactly for a live own task, a passed gate, a current or absent base version and a valid status; then only the supplied columns change, version + 1, one event (`status_changed` exactly when a different status was supplied) and one snapshot at the new version |
| TaskServiceProperties.UpdateOfLiveTask | src/features/tasks/services/TaskService.ts:135-176 | an update passing every check replaces the row at that id with the updated row, appends its event and its snapshot, and keeps the tables well formed |
| TaskServiceProperties.UpdateRejectsUnknownStatus | src/features/tasks/services/TaskService.ts:153 | a status outside the enum makes the update fail, whatever else holds |
| TaskServiceProperties.DeleteOfLiveTask | src/features/tasks/services/TaskService.ts:200-219 | a delete passing every check marks the row at that id deleted, appends the `moved_to_trash` event and the snapshot of the deleted row, and keeps the tables well formed |
| TaskServiceProperties.DeleteSucceeds | src/features/tasks/services/TaskService.ts:200-219 | success exactly for a live own task and a passed gate; the row is marked deleted at version + 1, with one `moved_to_trash`/`applied` event and a snapshot of the deleted row |
| TaskServiceProperties.DeletedTaskStaysGone | src/features/tasks/services/TaskService.ts:182-185 | after a delete, a later update or delete of that id is NOT_FOUND and writes nothing |
| TaskServiceProperties.ConflictKeepsTask | src/features/tasks/services/TaskService.ts:118-133 | a conflict leaves tasks and versions unchanged; the only possible write is the conflict event carrying the server version, kept only in a caller's transaction |
| TaskServiceProperties.CreatedTaskIsListed | src/features/tasks/services/TaskService.ts:77-96 | a created task is in its creator's listing when the creator is a member of its workspace |
| LedgerTables.LedgerLookupMeaning | src/features/sync/repositories/PrismaSyncRepository.ts:8-12 | the lookup returns the earliest row with that device and operation id, whoever wrote it, and nothing exactly when there is none |
| LedgerTables.FindByDeviceAndOpId | src/features/sync/repositories/PrismaSyncRepository.ts:8-12 | definition of the ledger `findFirst`: a row found has that device and operation id; which row, and when none is found, is stated by `LedgerTables.LedgerLookupMeaning` |
| LedgerTables.CreateSyncOperation | src/features/sync/repositories/PrismaSyncRepository.ts:14-28 | appends exactly one row storing the values as given, the client id defaulting to null and the result verbatim |
| LedgerTables.LedgerInsertAppendsOneRow | src/features/sync/repositories/PrismaSyncRepository.ts:14-28 | a ledger insert adds exactly one row, keyed by the given device and operation id with the given user and result, keeps every earlier row in place and leaves the other tables alone |
| LedgerTables.RecordedOperationIsFound | src/features/sync/repositories/PrismaSyncRepository.ts:8-28 | after a create, the (device, operation id) is found; when it was new, the row found is the one written |
| LedgerTables.LedgerLookupStable | src/features/sync/repositories/PrismaSyncRepository.ts:8-28 | appending a row never changes what an earlier lookup found |
| LedgerTables.LedgerGrowthKeepsFinds | src/features/sync/repositories/PrismaSyncRepository.ts:8-12 | a lookup that found a row keeps finding it however many rows are appended |
| PrismaSyncRepositories.PrismaSyncRepository.constructor | src/features/sync/repositories/PrismaSyncRepository.ts:6 | the repository sits on the given database and client kind |
| PrismaSyncRepositories.PrismaSyncRepository.FindByDeviceAndOpId | src/features/sync/repositories/PrismaSyncRepository.ts:8-12 | returns only a row with that device and operation id |
| PrismaSyncRepositories.PrismaSyncRepository.Create | src/features/sync/repositories/PrismaSyncRepository.ts:14-28 | appends the row `LedgerTables.CreateSyncOperation` describes |
| PrismaSyncRepositories.PrismaSyncRepository.BeginTransaction | src/features/sync/repositories/PrismaSyncRepository.ts:30-37 | opens a transaction on the root client only |
| PrismaSyncRepositories.PrismaSyncRepository.EndTransaction | src/features/sync/repositories/PrismaSyncRepository.ts:30-37 | the database ends as `CloseScope` says |
| SyncRepositoryFunctions.FindSyncOperation | src/repositories/sync.repository.ts:4-8 | looks up by (device, operation id) only |
| SyncRepositoryFunctions.CreateSyncOperation | src/repositories/sync.repository.ts:10-34 | appends the row `LedgerTables.CreateSyncOperation` describes |
| SyncSpec.CreateInputOf | src/features/sync/services/SyncService.ts:46-55 | title is `String(title ?? "")`; description, status and client id only when strings; workspace id exactly when truthy, through `BigInt`; client revision only when a number; a null payload throws |
| SyncSpec.TaskIdOf | src/features/sync/services/SyncService.ts:59-62 | BAD_REQUEST when `payload.taskId` is null or missing, otherwise `BigInt` of it |
| SyncSpec.UpdateInputOf | src/features/sync/services/SyncService.ts:64-72 | string fields only when strings; the base version only when the operation carries a number |
| SyncSpec.Dispatch | src/features/sync/services/SyncService.ts:40-102 | the ledger is untouched; a non-`task` entity, or an update or delete without task id, is BAD_REQUEST with nothing written; a `create` runs `createUserTask` on the decoded payload, an `update`/`status` runs `updateUserTask` and a `delete` runs `deleteUserTask` on the decoded task id, a decoding error escaping with nothing written; a `task` operation of no known kind writes nothing and succeeds; CONFLICT comes only from an update or status operation, leaves tasks and versions alone, and keeps its event only in the nested mode |
| SyncSpec.SyncCreate | src/features/sync/services/SyncService.ts:45-56 | the payload decoding error, or `createUserTask`'s effect with its value dropped; never CONFLICT; the ledger is untouched |
| SyncSpec.SyncUpdate | src/features/sync/services/SyncService.ts:58-73 | the task id error, or `updateUserTask`'s effect with its value dropped; a CONFLICT leaves tasks and versions alone; the ledger is untouched |
| SyncSpec.SyncDelete | src/features/sync/services/SyncService.ts:75-86 | the task id error, or `deleteUserTask`'s effect; never CONFLICT; the ledger is untouched |
| SyncSpec.Outcome | src/features/sync/services/SyncService.ts:102-105 | `applied` exactly when no error escaped, `conflict` exactly for an HTTP CONFLICT, `rejected` for every other error |
| SyncSpec.ReconcileOne | src/features/sync/services/SyncService.ts:31-122 | a ledgered operation is answered from the ledger and nothing is written; otherwise the result is `Outcome` of the dispatch, the tables are the dispatch's, and exactly one ledger row holding the client's values and that result is appended; the rejected and applied-without-mutation cases write nothing else |
| SyncSpec.RunBatch | src/features/sync/services/SyncService.ts:29-125 | one result per operation |
| SyncSpec.Reconcile | src/features/sync/services/SyncService.ts:21-128 | one result per operation |
| SyncSpec.ReconcileStepIsLedgered | src/features/sync/services/SyncService.ts:33-121 | each operation's step answers ledgered operations without writing, appends at most one ledger row and leaves its decision findable |
| SyncSpec.ResultsFollowInputOrder | src/features/sync/services/SyncService.ts:27-127 | the i-th result answers the i-th operation |
| SyncSpec.LedgerOnlyGrows | src/features/sync/services/SyncService.ts:88-120 | a batch only appends to the ledger, at most one row per operation |
| SyncSpec.PrefixRunsAlike | src/features/sync/services/SyncService.ts:29-125 | the results for a prefix of a batch are the first results of the whole batch |
| SyncSpec.StepKeepsFinds | src/features/sync/services/SyncService.ts:33-36 | a step never changes what an earlier ledger lookup found |
| SyncSpec.DecisionsAreRecorded | src/features/sync/services/SyncService.ts:88-120 | after a batch, every operation's decision is in the ledger under its (device, operation id) and equals the result returned |
| SyncSpec.RecordedBatchIsPureRead | src/features/sync/services/SyncService.ts:33-36 | a batch of already-ledgered operations writes nothing and returns the recorded results |
| SyncSpec.ReplayIsPureRead | src/features/sync/services/SyncService.ts:33-36 | sending the same batch again from the same device, on either reconciler, for any user and at any time, writes nothing and returns the first answers |
| SyncSpec.RepeatedOpIdGetsEarlierAnswer | src/features/sync/services/SyncService.ts:33-36 | an operation id repeated later in a batch gets the earlier occurrence's result |
| SyncSpec.StaleUpdateIsConflict | src/features/sync/services/SyncService.ts:58-120 | an update or status operation with a numeric base version other than the live task's, from its owner past the edit gate, is ledgered `conflict`, with tasks and versions unchanged |
| SyncSpec.PermittedCreateIsApplied | src/features/sync/services/SyncService.ts:45-102 | a create naming a workspace the sender may create in, with no status or a valid one, is ledgered `applied` and appends exactly one live task with the next id, that workspace, the sender as owner and `String(title ?? "")` as title |
| SyncSpec.ConflictKeepsTaskState | src/features/sync/services/SyncService.ts:103-120 | `conflict` is decided only for a task update or status operation; tasks and versions unchanged; the conflict event stays in the class's transaction and is rolled back by the older reconciler |
| SyncServices.DispatchOperation | src/features/sync/services/SyncService.ts:41-86 | the successive `if`s of the `try` block leave the database and return as `SyncSpec.Dispatch` |
| SyncServices.SyncService.constructor | src/features/sync/services/SyncService.ts:15-19 | the service uses the given ledger repository |
| SyncServices.SyncService.ApplyOne | src/features/sync/services/SyncService.ts:31-122 | one operation in its own transaction, on transaction-client repositories, as `SyncSpec.ReconcileOne` with the task service inside the transaction |
| SyncServices.SyncService.ApplySyncOperations | src/features/sync/services/SyncService.ts:21-128 | the loop leaves the database and results as `SyncSpec.Reconcile` in the nested mode |
| LegacySyncService.ApplySyncOperations | src/services/sync.service.ts:14-112 | the loop with `continue` for ledgered operations leaves the database and results as `SyncSpec.Reconcile` on the root client |
| TasksController.ParseOptionalBigInt | src/controllers/tasks.controller.ts:15-19 | a number is kept; a non-blank string goes through `BigInt` and may throw; everything else, blank strings included, is null |
| TasksController.IsValidStatus | src/controllers/tasks.controller.ts:21-22 | true exactly for the three status names |
| TasksController.ParamValue | src/controllers/tasks.controller.ts:25 | definition of the parameter read: an array parameter contributes its first element |
| TasksController.ParseParamBigInt | src/controllers/tasks.controller.ts:24-28 | null exactly unless the (first) value is a non-blank string; otherwise `BigInt` of it |
| TasksController.StatusField | src/controllers/tasks.controller.ts:60 | a status is forwarded exactly when it is valid, and then unchanged |
| TasksController.CreateRequestInput | src/controllers/tasks.controller.ts:42-63 | a non-string or blank title is BAD_REQUEST; success exactly when the title is good and both ids parse; the title is trimmed; other fields only when correctly typed, an invalid status dropped |
| TasksController.UpdateRequestInput | src/controllers/tasks.controller.ts:74-89 | a missing or blank id is BAD_REQUEST before the body is read; the base version only when it parses to a value; other fields only when correctly typed |
| TasksController.DeleteRequestInput | src/controllers/tasks.controller.ts:100-105 | a missing or blank id is BAD_REQUEST; the device only when a string |
| TasksController.BuildCreateInput | src/controllers/tasks.controller.ts:45-63 | the successive conditional assignments build `CreateRequestInput` |
| TasksController.BuildUpdateInput | src/controllers/tasks.controller.ts:75-89 | the successive conditional assignments build `UpdateRequestInput` |
| TasksController.ListTasks | src/controllers/tasks.controller.ts:30-38 | the service's listing |
| TasksController.CreateTask | src/controllers/tasks.controller.ts:40-70 | a rejected request writes nothing; otherwise the task service's create decides |
| TasksController.UpdateTask | src/controllers/tasks.controller.ts:72-96 | a rejected request writes nothing; otherwise the task service's update decides |
| TasksController.DeleteTask | src/controllers/tasks.controller.ts:98-112 | a rejected request writes nothing; otherwise the task service's delete decides |
| TasksController.ParsedIdsRoundTrip | src/controllers/tasks.controller.ts:15-28 | an id rendered in decimal, or sent as a number, parses back to itself, also as the first element of an array parameter |
| SyncController.CheckSyncRequest | src/controllers/sync.controller.ts:9-18 | a non-string or blank `deviceId` is BAD_REQUEST; a non-array `operations` is BAD_REQUEST; a null body throws |
| SyncController.NormalizeOperation | src/controllers/sync.controller.ts:20-27 | defaults: operation id `""`, entity `task`, operation `""`, client id null, payload `{}`, base version null; present values are kept; a null element throws |
| SyncController.NormalizeOperations | src/controllers/sync.controller.ts:20-27 | one normalised operation per element, in order; fails exactly when an element is null |
| SyncController.SyncRequest | src/controllers/sync.controller.ts:6-35 | a failed guard writes nothing; otherwise the older reconciler's results are returned unchanged |
| SyncController.SyncOperations | src/controllers/sync.controller.ts:6-39 | leaves the database and returns as `SyncRequest` |
| SyncController.ResponseAnswersEachOperation | src/controllers/sync.controller.ts:20-35 | the response has one entry per operation sent, in order, under the operation id coerced to a string |
| SyncController.RetriedRequestIsIdempotent | src/controllers/sync.controller.ts:29-35 | the same request sent twice gets the same answer, and the second writes nothing |

## Left out

- Prisma internals: query building and isolation between concurrent transactions.
- Unique keys and foreign keys: only the membership key (workspace, user) is enforced, in `WorkspaceTables.AddMember`. The ledger key and the token hash are not enforced unique, so a duplicate insert succeeds in the model. Foreign keys are not modelled, so memberships, invitations and tasks may name workspaces that do not exist.
- WorkspaceTables.CreateWorkspace: the owner's membership is appended without checking the (workspace, user) key. The workspace has just been created, so in the database no membership can name it yet; in the model one could, since foreign keys are not modelled.
- Ledger columns: they are stored as the JSON values the client sent. The database's enum check on entity type (`task`) and operation (`create`, `update`, `status`, `delete`, `restore`, `revert`) is not modelled. In the code, an operation whose entity type or operation lies outside those enums cannot be ledgered. The insert fails in the `try` branch and again in the `catch` branch, and that error fails the whole request, while the operations before it stay committed. In the model such an operation gets a ledgered answer instead: `rejected` for an entity type other than `task`, `applied` for an unknown operation such as the empty one. The same holds for the client id. The column is a nullable string, and both reconcilers write `entityClientId ?? null` while the controller passes any JSON value through. So an operation whose `entityClientId` is a number, boolean, array or object fails the insert in both branches and aborts the request. In the older reconciler the task change is then already committed with no ledger row, so a retry applies it again. The model ledgers any JSON client id instead.
- SyncSpec.ReplayIsPureRead, SyncSpec.RecordedBatchIsPureRead, SyncController.RetriedRequestIsIdempotent: they hold for the model's ledger, which records every operation. In the code they hold only for batches whose ledger inserts succeed: the entity type and operation must be enum values and the client id a string or null (see "Ledger columns").
- Database defaults: the initial `version` and the `client_rev` default are schema parameters. Ids are positions, and timestamps are an integer clock argument `now`. Each request uses one clock value, so `updated_at` within a request is a single instant.
- `last_modified_at` is set at insert and never changed by the model, since the code never sets it explicitly.
- Tie order: `TaskTables.ListByWorkspaceIds`, `TaskTables.ListByOwner` and `WorkspaceTables.ListWorkspacesForUser` state sortedness and a permutation. The order among rows with equal timestamps is the database's and is not stated.
- `toISOString` rendering of timestamps in snapshots: timestamps are kept as clock values.
- JavaScript coercions:
  - fractional numbers;
  - integers beyond 2^53, which JavaScript numbers cannot hold exactly: `JNum` carries an exact integer, so `BigInt(n)` of such a number is the written literal in the model but a rounded value in the code;
  - `BigInt` of non-integer numbers;
  - hexadecimal, octal and binary literals;
  - Unicode space separators other than the common white space in `trim`.
- `JSON.parse(JSON.stringify(payload))` is a value copy.
- Token generation (`crypto.randomBytes`) and `hashToken`: the token is an input, and the hash is an uninterpreted function parameter.
- Authentication, the auth services and repositories, the routes, Express plumbing and configuration.
- Response shapes:
  - `res.status(...)` codes;
  - the error middleware;
  - the DTO converters.

  Handlers return the service's results or errors.
- Failures of the database itself: connection loss, timeouts, and other infrastructure exceptions.
- The `SyncService` factories: the ledger and task-service factories are not shown. They are modelled as building repositories and a task service directly on the per-operation transaction client.
- Concurrency between requests and races on `version`: one request runs at a time.
- `SyncSpec.RunBatch`, `SyncSpec.Reconcile`: on their own they state only the result count. What the batch does is stated in the lemmas beside them (`ResultsFollowInputOrder`, `DecisionsAreRecorded`, `ReplayIsPureRead` and the others).
