/** The rows of the database tables the core reads and writes (Prisma models `tasks`,
    `task_events`, `task_versions`, `workspaces`, `workspace_members`,
    `workspace_invitations`, `sync_operations`), and the whole database as one value. */
module Domain {
  import opened Prelude
  import opened JsValues

  type Timestamp = int

  /** The `tasks_status` enum. */
  datatype Status = Pendiente | EnProgreso | Completada

  function StatusName(s: Status): string {
    match s
    case Pendiente => "pendiente"
    case EnProgreso => "en_progreso"
    case Completada => "completada"
  }

  /** The value Prisma stores for a status string, or `None` when the string is not a value
      of the enum (Prisma then throws a validation error). */
  function ParseStatus(s: string): (r: Option<Status>)
    ensures r.Some? <==> s == "pendiente" || s == "en_progreso" || s == "completada"
    ensures r.Some? ==> StatusName(r.value) == s
  {
    if s == "pendiente" then Some(Pendiente)
    else if s == "en_progreso" then Some(EnProgreso)
    else if s == "completada" then Some(Completada)
    else None
  }

  /** `task_events_event_type`. */
  datatype EventType = Created | Updated | StatusChanged | MovedToTrash

  /** `task_events_result`. */
  datatype EventResult = EventApplied | EventConflict

  /** `sync_operations_result`. */
  datatype SyncResult = SyncApplied | SyncConflict | SyncRejected

  /** A row of `tasks`. */
  datatype Task = Task(
    id: int,
    clientId: Option<string>,
    clientRev: int,
    workspaceId: int,
    title: string,
    description: Option<string>,
    status: Status,
    ownerUserId: int,
    assignedUserId: Option<int>,
    isDeleted: bool,
    deletedAt: Option<Timestamp>,
    deletedBy: Option<int>,
    version: int,
    lastModifiedDeviceId: Option<string>,
    lastModifiedAt: Timestamp,
    createdBy: int,
    updatedBy: int,
    createdAt: Timestamp,
    updatedAt: Timestamp)

  /** The JSON object `toTaskSnapshot` builds: ids and counters as decimal strings,
      timestamps kept as clock values. */
  datatype TaskSnapshot = TaskSnapshot(
    id: string,
    clientId: Option<string>,
    clientRev: string,
    workspaceId: string,
    title: string,
    description: Option<string>,
    status: Status,
    ownerUserId: string,
    assignedUserId: Option<string>,
    isDeleted: bool,
    deletedAt: Option<Timestamp>,
    deletedBy: Option<string>,
    version: string,
    lastModifiedDeviceId: Option<string>,
    lastModifiedAt: Timestamp,
    createdAt: Timestamp,
    updatedAt: Timestamp)

  /** The `details` JSON of a conflict event. */
  datatype EventDetails = ServerVersion(serverVersion: string)

  /** A row of `task_events`. */
  datatype TaskEvent = TaskEvent(
    taskId: int,
    eventType: EventType,
    performedBy: int,
    fromStatus: Option<Status>,
    toStatus: Option<Status>,
    details: Option<EventDetails>,
    baseVersion: Option<int>,
    result: EventResult,
    deviceId: Option<string>)

  /** A row of `task_versions`. */
  datatype TaskVersion = TaskVersion(taskId: int, version: int, snapshot: TaskSnapshot, createdBy: int)

  /** A row of `workspaces`. */
  datatype Workspace = Workspace(id: int, name: string, ownerUserId: int, createdBy: int, updatedBy: int, createdAt: Timestamp)

  /** A row of `workspace_members`, keyed by (workspaceId, userId). */
  datatype Member = Member(
    workspaceId: int,
    userId: int,
    canView: bool,
    canCreate: bool,
    canEdit: bool,
    canDelete: bool,
    invitedBy: Option<int>)

  datatype InvitationStatus = Pending | Accepted

  /** A row of `workspace_invitations`. */
  datatype Invitation = Invitation(
    id: int,
    workspaceId: int,
    tokenHash: string,
    email: Option<string>,
    expiresAt: Timestamp,
    createdBy: int,
    canView: bool,
    canCreate: bool,
    canEdit: bool,
    canDelete: bool,
    status: InvitationStatus)

  /** A row of `sync_operations`, the ledger keyed by (deviceId, opId). The columns that
      hold what the client sent are kept as the JSON values it sent. */
  datatype SyncRecord = SyncRecord(
    userId: int,
    deviceId: string,
    opId: string,
    entityType: Json,
    entityClientId: Json,
    operation: Json,
    payload: Json,
    baseVersion: Option<int>,
    result: SyncResult)

  /** Column defaults the database assigns and the code does not show. */
  datatype Schema = Schema(initialVersion: int, defaultClientRev: int)

  /** The whole database. */
  datatype Tables = Tables(
    schema: Schema,
    workspaces: seq<Workspace>,
    members: seq<Member>,
    invitations: seq<Invitation>,
    tasks: seq<Task>,
    events: seq<TaskEvent>,
    versions: seq<TaskVersion>,
    ledger: seq<SyncRecord>)

  /** The database after an operation, and what the operation returned. */
  datatype Effect<+T> = Effect(db: Tables, out: T)

  /** Rows with an auto-increment id carry their position in the table (plus one). */
  predicate WellFormed(t: Tables) {
    && (forall k :: 0 <= k < |t.workspaces| ==> t.workspaces[k].id == k + 1)
    && (forall k :: 0 <= k < |t.invitations| ==> t.invitations[k].id == k + 1)
    && (forall k :: 0 <= k < |t.tasks| ==> t.tasks[k].id == k + 1)
  }

  function EmptyTables(schema: Schema): (t: Tables)
    ensures WellFormed(t)
  {
    Tables(schema, [], [], [], [], [], [], [])
  }
}
