/** What the sync reconcilers do to the database, as functions of the tables: each
    operation is looked up in the ledger by (device, operation id); an undecided one is
    dispatched to the task service, its outcome mapped to `applied`, `conflict` or
    `rejected` and recorded as one ledger row. `nested` is the task service's flag: the
    `SyncService` class runs it inside the per-operation transaction, the older
    module-level reconciler on the root client. */
module SyncSpec {
  import opened Prelude
  import opened Errors
  import opened JsValues
  import opened Domain
  import LedgerTables
  import opened TaskServiceSpec

  /** One operation as the reconcilers receive it; `None` stands for an omitted field. */
  datatype SyncOperationInput = SyncOperationInput(
    opId: string,
    entityType: Json,
    operation: Json,
    entityClientId: Option<Json>,
    payload: Json,
    baseVersion: Option<Json>)

  datatype OpResult = OpResult(opId: string, result: SyncResult)

  /** `payload[key]`, which throws when the payload is `null`. */
  function PayloadProp(payload: Json, key: string): Result<Option<Json>> {
    if payload == JNull then Err(RuntimeError(NullProperty)) else Ok(Prop(payload, key))
  }

  /** The `createUserTask` input a `create` operation builds from its payload: the title
      coerced to a string (`""` when absent), string-typed description, status and client id,
      a truthy workspace id converted with `BigInt`, a numeric client revision. */
  function CreateInputOf(userId: int, deviceId: string, op: SyncOperationInput): (r: Result<CreateUserTaskInput>)
    ensures op.payload == JNull ==> r == Err(RuntimeError(NullProperty))
    ensures r.Ok? ==>
      && r.value.userId == userId && r.value.deviceId == Some(deviceId)
      && r.value.title == ToJsString(Coalesce(Prop(op.payload, "title"), JStr("")))
      && r.value.description == AsString(Prop(op.payload, "description"))
      && r.value.status == AsString(Prop(op.payload, "status"))
      && r.value.clientId == AsString(Prop(op.payload, "clientId"))
      && r.value.clientRev == AsNumber(Prop(op.payload, "clientRev"))
      && (r.value.workspaceId.Some? <==> Truthy(Prop(op.payload, "workspaceId")))
      && (r.value.workspaceId.Some? ==> ToBigInt(Prop(op.payload, "workspaceId").value) == Ok(r.value.workspaceId.value))
  {
    if op.payload == JNull then Err(RuntimeError(NullProperty))
    else
      var p := op.payload;
      var workspaceId: Result<Option<int>> :=
        if Truthy(Prop(p, "workspaceId")) then
          (var w := ToBigInt(Prop(p, "workspaceId").value); if w.Ok? then Ok(Some(w.value)) else Err(w.error))
        else Ok(None);
      if workspaceId.Err? then Err(workspaceId.error)
      else
        Ok(CreateUserTaskInput(
          userId := userId,
          title := ToJsString(Coalesce(Prop(p, "title"), JStr(""))),
          description := AsString(Prop(p, "description")),
          status := AsString(Prop(p, "status")),
          workspaceId := workspaceId.value,
          clientId := AsString(Prop(p, "clientId")),
          clientRev := AsNumber(Prop(p, "clientRev")),
          deviceId := Some(deviceId)))
  }

  /** The required `payload.taskId` of `update`, `status` and `delete`, as a `bigint`:
      BAD_REQUEST when it is missing or `null`. */
  function TaskIdOf(op: SyncOperationInput): (r: Result<int>)
    ensures op.payload == JNull ==> r == Err(RuntimeError(NullProperty))
    ensures op.payload != JNull && IsNullish(Prop(op.payload, "taskId")) ==> r == Err(HttpError(BadRequest))
    ensures op.payload != JNull && !IsNullish(Prop(op.payload, "taskId")) ==> r == ToBigInt(Prop(op.payload, "taskId").value)
  {
    var taskId := PayloadProp(op.payload, "taskId");
    if taskId.Err? then Err(taskId.error)
    else if IsNullish(taskId.value) then Err(HttpError(BadRequest))
    else ToBigInt(taskId.value.value)
  }

  /** The `updateUserTask` input of `update` and `status`: string-typed fields, and the
      base version only when the operation carries a number. */
  function UpdateInputOf(userId: int, deviceId: string, op: SyncOperationInput, taskId: int): (r: UpdateUserTaskInput)
    ensures r.taskId == taskId && r.userId == userId && r.deviceId == Some(deviceId)
    ensures r.baseVersion.Some? <==> op.baseVersion.Some? && op.baseVersion.value.JNum?
    ensures r.baseVersion.Some? ==> op.baseVersion.value == JNum(r.baseVersion.value)
    ensures r.title == AsString(Prop(op.payload, "title")) && r.description == AsString(Prop(op.payload, "description"))
    ensures r.status == AsString(Prop(op.payload, "status"))
  {
    UpdateUserTaskInput(userId, taskId, AsString(Prop(op.payload, "title")), AsString(Prop(op.payload, "description")),
      AsString(Prop(op.payload, "status")), AsNumber(op.baseVersion), Some(deviceId))
  }

  /** `await` of a call whose value is dropped: the same success or exception. */
  function Discard<T>(r: Result<T>): (d: Result<()>)
    ensures d.Ok? <==> r.Ok?
    ensures d.Err? ==> d.error == r.error
  {
    if r.Ok? then Ok(()) else Err(r.error)
  }

  predicate IsUpdate(op: SyncOperationInput) {
    op.operation == JStr("update") || op.operation == JStr("status")
  }

  /** The operations the reconcilers dispatch to the task service. */
  predicate IsKnownOperation(op: SyncOperationInput) {
    op.operation == JStr("create") || IsUpdate(op) || op.operation == JStr("delete")
  }

  /** The `try` block of the reconcilers, up to the ledger write. Only the task service
      writes here, so the ledger is never touched. A non-`task` entity is BAD_REQUEST, an
      update or delete without a task id is BAD_REQUEST, both writing nothing; a `task`
      operation of any other kind writes nothing and succeeds. CONFLICT comes only from an
      update, leaves the task and its versions alone, and leaves its conflict event behind
      exactly when the task service runs in the caller's transaction. */
  function Dispatch(t: Tables, nested: bool, userId: int, deviceId: string, op: SyncOperationInput, now: Timestamp)
    : (r: Effect<Result<()>>)
    ensures r.db.ledger == t.ledger
    ensures op.entityType != JStr("task") ==> r == Effect(t, Err(HttpError(BadRequest)))
    ensures op.entityType == JStr("task") && !IsKnownOperation(op) ==> r == Effect(t, Ok(()))
    ensures (op.entityType == JStr("task") && (IsUpdate(op) || op.operation == JStr("delete"))
             && op.payload != JNull && IsNullish(Prop(op.payload, "taskId")))
            ==> r == Effect(t, Err(HttpError(BadRequest)))
    ensures op.entityType == JStr("task") && op.operation == JStr("create") ==>
      && (CreateInputOf(userId, deviceId, op).Err? ==> r == Effect(t, Err(CreateInputOf(userId, deviceId, op).error)))
      && (CreateInputOf(userId, deviceId, op).Ok? ==>
            var c := CreateUserTask(t, nested, CreateInputOf(userId, deviceId, op).value, now);
            r == Effect(c.db, Discard(c.out)))
    ensures op.entityType == JStr("task") && IsUpdate(op) ==>
      && (TaskIdOf(op).Err? ==> r == Effect(t, Err(TaskIdOf(op).error)))
      && (TaskIdOf(op).Ok? ==>
            var u := UpdateUserTask(t, nested, UpdateInputOf(userId, deviceId, op, TaskIdOf(op).value), now);
            r == Effect(u.db, Discard(u.out)))
    ensures op.entityType == JStr("task") && op.operation == JStr("delete") ==>
      && (TaskIdOf(op).Err? ==> r == Effect(t, Err(TaskIdOf(op).error)))
      && (TaskIdOf(op).Ok? ==>
            r == DeleteUserTask(t, nested, DeleteUserTaskInput(userId, TaskIdOf(op).value, Some(deviceId)), now))
    ensures r.out == Err(HttpError(Conflict)) ==>
      && op.entityType == JStr("task") && IsUpdate(op)
      && r.db.tasks == t.tasks && r.db.versions == t.versions
      && (nested ==> |r.db.events| == |t.events| + 1 && r.db.events[..|t.events|] == t.events
                     && r.db.events[|t.events|].result == EventConflict)
      && (!nested ==> r.db == t)
  {
    if op.entityType != JStr("task") then Effect(t, Err(HttpError(BadRequest)))
    else if op.operation == JStr("create") then SyncCreate(t, nested, userId, deviceId, op, now)
    else if IsUpdate(op) then SyncUpdate(t, nested, userId, deviceId, op, now)
    else if op.operation == JStr("delete") then SyncDelete(t, nested, userId, deviceId, op, now)
    else Effect(t, Ok(()))
  }

  /** The `create` branch: the payload decoded, then `createUserTask`, which never fails
      CONFLICT and never writes the ledger. */
  function SyncCreate(t: Tables, nested: bool, userId: int, deviceId: string, op: SyncOperationInput, now: Timestamp)
    : (r: Effect<Result<()>>)
    ensures r.db.ledger == t.ledger
    ensures r.out != Err(HttpError(Conflict))
    ensures CreateInputOf(userId, deviceId, op).Err? ==> r == Effect(t, Err(CreateInputOf(userId, deviceId, op).error))
    ensures CreateInputOf(userId, deviceId, op).Ok? ==>
      var c := CreateUserTask(t, nested, CreateInputOf(userId, deviceId, op).value, now);
      r == Effect(c.db, Discard(c.out))
  {
    var input := CreateInputOf(userId, deviceId, op);
    if input.Err? then Effect(t, Err(input.error))
    else
      var c := CreateUserTask(t, nested, input.value, now);
      Effect(c.db, Discard(c.out))
  }

  /** The `update`/`status` branch: the task id, then `updateUserTask`, which never writes
      the ledger; its CONFLICT leaves the task and its versions alone. */
  function SyncUpdate(t: Tables, nested: bool, userId: int, deviceId: string, op: SyncOperationInput, now: Timestamp)
    : (r: Effect<Result<()>>)
    ensures r.db.ledger == t.ledger
    ensures TaskIdOf(op).Err? ==> r == Effect(t, Err(TaskIdOf(op).error))
    ensures TaskIdOf(op).Ok? ==>
      var u := UpdateUserTask(t, nested, UpdateInputOf(userId, deviceId, op, TaskIdOf(op).value), now);
      r == Effect(u.db, Discard(u.out))
    ensures r.out == Err(HttpError(Conflict)) ==>
      && r.db.tasks == t.tasks && r.db.versions == t.versions
      && (nested ==> |r.db.events| == |t.events| + 1 && r.db.events[..|t.events|] == t.events
                     && r.db.events[|t.events|].result == EventConflict)
      && (!nested ==> r.db == t)
  {
    var taskId := TaskIdOf(op);
    if taskId.Err? then Effect(t, Err(taskId.error))
    else
      var u := UpdateUserTask(t, nested, UpdateInputOf(userId, deviceId, op, taskId.value), now);
      Effect(u.db, Discard(u.out))
  }

  /** The `delete` branch: the task id, then `deleteUserTask`, which never fails CONFLICT
      and never writes the ledger. */
  function SyncDelete(t: Tables, nested: bool, userId: int, deviceId: string, op: SyncOperationInput, now: Timestamp)
    : (r: Effect<Result<()>>)
    ensures r.db.ledger == t.ledger
    ensures r.out != Err(HttpError(Conflict))
    ensures TaskIdOf(op).Err? ==> r == Effect(t, Err(TaskIdOf(op).error))
    ensures TaskIdOf(op).Ok? ==>
      r == DeleteUserTask(t, nested, DeleteUserTaskInput(userId, TaskIdOf(op).value, Some(deviceId)), now)
  {
    var taskId := TaskIdOf(op);
    if taskId.Err? then Effect(t, Err(taskId.error))
    else DeleteUserTask(t, nested, DeleteUserTaskInput(userId, taskId.value, Some(deviceId)), now)
  }

  /** `conflict` exactly for an `HttpError` with code CONFLICT, `rejected` for any other
      exception, `applied` when none escaped. */
  function Outcome(out: Result<()>): (r: SyncResult)
    ensures r == SyncApplied <==> out.Ok?
    ensures r == SyncConflict <==> out == Err(HttpError(Conflict))
    ensures r == SyncRejected <==> out.Err? && out.error != HttpError(Conflict)
  {
    if out.Ok? then SyncApplied
    else if out.error == HttpError(Conflict) then SyncConflict
    else SyncRejected
  }

  /** The ledger row of a decided operation: the client's values as sent (the payload is a
      value copy), the base version only when it is a number. */
  function LedgerEntry(userId: int, deviceId: string, op: SyncOperationInput, result: SyncResult): LedgerTables.CreateSyncOperationData {
    LedgerTables.CreateSyncOperationData(userId, deviceId, op.opId, op.entityType, op.entityClientId,
      op.operation, op.payload, AsNumber(op.baseVersion), result)
  }

  /** One operation. A ledgered (device, operation id) is answered from the ledger and
      nothing is written. Otherwise exactly one ledger row is appended, holding what the
      client sent and the result returned; a non-`task` entity, or an update or delete
      without a task id, is `rejected` and an unknown `task` operation `applied`, all three
      writing nothing else. Either way the decision can afterwards be found in the ledger. */
  function ReconcileOne(t: Tables, nested: bool, userId: int, deviceId: string, op: SyncOperationInput, now: Timestamp)
    : (r: Effect<SyncResult>)
    ensures LedgerTables.FindByDeviceAndOpId(t, deviceId, op.opId).Some? ==>
              r == Effect(t, LedgerTables.FindByDeviceAndOpId(t, deviceId, op.opId).value.result)
    ensures LedgerTables.FindByDeviceAndOpId(t, deviceId, op.opId).None? ==>
              r.db.ledger == t.ledger + [SyncRecord(userId, deviceId, op.opId, op.entityType,
                Coalesce(op.entityClientId, JNull), op.operation, op.payload, AsNumber(op.baseVersion), r.out)]
    ensures LedgerTables.FindByDeviceAndOpId(t, deviceId, op.opId).None? ==>
              var d := Dispatch(t, nested, userId, deviceId, op, now);
              r.out == Outcome(d.out) && r.db == d.db.(ledger := r.db.ledger)
    ensures LedgerTables.FindByDeviceAndOpId(t, deviceId, op.opId).None? && op.entityType != JStr("task") ==>
              r.out == SyncRejected && r.db == t.(ledger := r.db.ledger)
    ensures (LedgerTables.FindByDeviceAndOpId(t, deviceId, op.opId).None? && op.entityType == JStr("task")
             && !IsKnownOperation(op))
            ==> r.out == SyncApplied && r.db == t.(ledger := r.db.ledger)
    ensures (LedgerTables.FindByDeviceAndOpId(t, deviceId, op.opId).None? && op.entityType == JStr("task")
             && (IsUpdate(op) || op.operation == JStr("delete")) && op.payload != JNull
             && IsNullish(Prop(op.payload, "taskId")))
            ==> r.out == SyncRejected && r.db == t.(ledger := r.db.ledger)
    ensures LedgerTables.FindByDeviceAndOpId(r.db, deviceId, op.opId).Some?
    ensures LedgerTables.FindByDeviceAndOpId(r.db, deviceId, op.opId).value.result == r.out
    ensures r.db.ledger[..|t.ledger|] == t.ledger && |r.db.ledger| <= |t.ledger| + 1
  {
    var existing := LedgerTables.FindByDeviceAndOpId(t, deviceId, op.opId);
    if existing.Some? then Effect(t, existing.value.result)
    else
      var d := Dispatch(t, nested, userId, deviceId, op, now);
      var result := Outcome(d.out);
      var l := LedgerTables.CreateSyncOperation(d.db, LedgerEntry(userId, deviceId, op, result));
      LedgerTables.RecordedOperationIsFound(d.db, LedgerEntry(userId, deviceId, op, result));
      Effect(l.db, result)
  }

  lemma LedgerPrefixTransitive(a: seq<SyncRecord>, b: seq<SyncRecord>, c: seq<SyncRecord>)
    requires |a| <= |b| <= |c| && b[..|a|] == a && c[..|b|] == b
    ensures c[..|a|] == a
  {
    assert c[..|a|] == c[..|b|][..|a|];
  }

  // ---------------------------------------------------------------- batches

  /** What happens to one operation of a batch, given the state the earlier ones left. */
  type Step = (Tables, SyncOperationInput) -> Effect<SyncResult>

  /** The reconcilers' loop: the operations in order, each against the state the previous
      ones left, one result per operation. */
  function RunBatch(t: Tables, step: Step, ops: seq<SyncOperationInput>): (r: Effect<seq<OpResult>>)
    ensures |r.out| == |ops|
    decreases |ops|
  {
    if ops == [] then Effect(t, [])
    else
      var n := |ops| - 1;
      var prev := RunBatch(t, step, ops[..n]);
      var last := step(prev.db, ops[n]);
      Effect(last.db, prev.out + [OpResult(ops[n].opId, last.out)])
  }

  /** A step that answers ledgered operations from the ledger without writing, appends at
      most one ledger row, and leaves its decision findable under (device, operation id). */
  predicate LedgeredAt(step: Step, deviceId: string, s: Tables, op: SyncOperationInput) {
    var r := step(s, op);
    && |s.ledger| <= |r.db.ledger| <= |s.ledger| + 1 && r.db.ledger[..|s.ledger|] == s.ledger
    && LedgerTables.FindByDeviceAndOpId(r.db, deviceId, op.opId).Some?
    && LedgerTables.FindByDeviceAndOpId(r.db, deviceId, op.opId).value.result == r.out
    && (LedgerTables.FindByDeviceAndOpId(s, deviceId, op.opId).Some? ==>
          r == Effect(s, LedgerTables.FindByDeviceAndOpId(s, deviceId, op.opId).value.result))
  }

  ghost predicate Ledgered(step: Step, deviceId: string) {
    forall s, op :: LedgeredAt(step, deviceId, s, op)
  }

  function ReconcileStep(nested: bool, userId: int, deviceId: string, now: Timestamp): Step {
    (s: Tables, op: SyncOperationInput) => ReconcileOne(s, nested, userId, deviceId, op, now)
  }

  /** A batch of one user's device, all operations at the clock value `now`. */
  function Reconcile(t: Tables, nested: bool, userId: int, deviceId: string, ops: seq<SyncOperationInput>, now: Timestamp)
    : (r: Effect<seq<OpResult>>)
    ensures |r.out| == |ops|
  {
    RunBatch(t, ReconcileStep(nested, userId, deviceId, now), ops)
  }

  /** One more iteration of the reconcilers' loop: the batch up to and including
      operation `i` is the batch before it followed by that operation's step. */
  lemma ReconcileOneMore(t: Tables, nested: bool, userId: int, deviceId: string, ops: seq<SyncOperationInput>,
                         i: nat, now: Timestamp)
    requires i < |ops|
    ensures var prev := Reconcile(t, nested, userId, deviceId, ops[..i], now);
      var one := ReconcileOne(prev.db, nested, userId, deviceId, ops[i], now);
      Reconcile(t, nested, userId, deviceId, ops[..i + 1], now) == Effect(one.db, prev.out + [OpResult(ops[i].opId, one.out)])
  {
    assert ops[..i + 1][..i] == ops[..i];
  }

  // ---------------------------------------------------------------- properties

  /** `ReconcileOne` is a ledgered step: replays are pure reads, a decision is recorded once. */
  lemma ReconcileStepIsLedgered(nested: bool, userId: int, deviceId: string, now: Timestamp)
    ensures Ledgered(ReconcileStep(nested, userId, deviceId, now), deviceId)
  {
    var step := ReconcileStep(nested, userId, deviceId, now);
    forall s, op
      ensures LedgeredAt(step, deviceId, s, op)
    {
      var r := ReconcileOne(s, nested, userId, deviceId, op, now);
      assert step(s, op) == r;
    }
  }

  /** The results come back in input order: the i-th result answers the i-th operation. */
  lemma {:induction false} ResultsFollowInputOrder(t: Tables, step: Step, ops: seq<SyncOperationInput>)
    ensures var r := RunBatch(t, step, ops);
      forall i :: 0 <= i < |ops| ==> r.out[i].opId == ops[i].opId
    decreases |ops|
  {
    if ops != [] {
      var n := |ops| - 1;
      ResultsFollowInputOrder(t, step, ops[..n]);
      var prev := RunBatch(t, step, ops[..n]);
      var r := RunBatch(t, step, ops);
      forall i | 0 <= i < |ops|
        ensures r.out[i].opId == ops[i].opId
      {
        if i < n {
          assert r.out[i] == prev.out[i];
          assert ops[..n][i] == ops[i];
        }
      }
    }
  }

  /** Under a ledgered step the ledger only grows, by at most one row per operation. */
  lemma {:induction false} LedgerOnlyGrows(t: Tables, step: Step, deviceId: string, ops: seq<SyncOperationInput>)
    requires Ledgered(step, deviceId)
    ensures var r := RunBatch(t, step, ops);
      |t.ledger| <= |r.db.ledger| <= |t.ledger| + |ops| && r.db.ledger[..|t.ledger|] == t.ledger
    decreases |ops|
  {
    if ops != [] {
      var n := |ops| - 1;
      LedgerOnlyGrows(t, step, deviceId, ops[..n]);
      var prev := RunBatch(t, step, ops[..n]);
      assert LedgeredAt(step, deviceId, prev.db, ops[n]);
      LedgerPrefixTransitive(t.ledger, prev.db.ledger, step(prev.db, ops[n]).db.ledger);
    }
  }

  /** A prefix of a batch is run exactly as the start of the whole batch. */
  lemma {:induction false} PrefixRunsAlike(t: Tables, step: Step, ops: seq<SyncOperationInput>, m: nat)
    requires m <= |ops|
    ensures RunBatch(t, step, ops).out[..m] == RunBatch(t, step, ops[..m]).out
    decreases |ops|
  {
    if m == |ops| {
      assert ops[..m] == ops;
    } else {
      var n := |ops| - 1;
      PrefixRunsAlike(t, step, ops[..n], m);
      assert ops[..n][..m] == ops[..m];
      var prev := RunBatch(t, step, ops[..n]);
      assert RunBatch(t, step, ops).out[..m] == prev.out[..m];
    }
  }

  /** A ledgered step never changes what an earlier lookup found. */
  lemma StepKeepsFinds(step: Step, deviceId: string, s: Tables, op: SyncOperationInput, opId: string)
    requires LedgeredAt(step, deviceId, s, op)
    requires LedgerTables.FindByDeviceAndOpId(s, deviceId, opId).Some?
    ensures LedgerTables.FindByDeviceAndOpId(step(s, op).db, deviceId, opId) == LedgerTables.FindByDeviceAndOpId(s, deviceId, opId)
  {
    LedgerTables.LedgerGrowthKeepsFinds(s, step(s, op).db, deviceId, opId);
  }

  /** Under a ledgered step every operation of a batch has its decision in the ledger
      afterwards, under its device and operation id, and that decision is the result
      returned for it. */
  lemma {:induction false} DecisionsAreRecorded(t: Tables, step: Step, deviceId: string, ops: seq<SyncOperationInput>)
    requires Ledgered(step, deviceId)
    ensures var r := RunBatch(t, step, ops);
      forall i :: 0 <= i < |ops| ==>
        && LedgerTables.FindByDeviceAndOpId(r.db, deviceId, ops[i].opId).Some?
        && LedgerTables.FindByDeviceAndOpId(r.db, deviceId, ops[i].opId).value.result == r.out[i].result
    decreases |ops|
  {
    if ops != [] {
      var n := |ops| - 1;
      var front := ops[..n];
      DecisionsAreRecorded(t, step, deviceId, front);
      var prev := RunBatch(t, step, front);
      assert LedgeredAt(step, deviceId, prev.db, ops[n]);
      var last := step(prev.db, ops[n]);
      var r := RunBatch(t, step, ops);
      assert r.db == last.db && r.out[n].result == last.out;
      forall i | 0 <= i < |ops|
        ensures LedgerTables.FindByDeviceAndOpId(r.db, deviceId, ops[i].opId).Some?
        ensures LedgerTables.FindByDeviceAndOpId(r.db, deviceId, ops[i].opId).value.result == r.out[i].result
      {
        if i < n {
          assert front[i] == ops[i];
          var found := LedgerTables.FindByDeviceAndOpId(prev.db, deviceId, ops[i].opId);
          assert found.Some? && found.value.result == prev.out[i].result;
          StepKeepsFinds(step, deviceId, prev.db, ops[n], ops[i].opId);
          assert LedgerTables.FindByDeviceAndOpId(r.db, deviceId, ops[i].opId) == found;
          assert r.out[i] == prev.out[i];
        }
      }
    }
  }

  /** Under a ledgered step, a batch whose operations are all in the ledger is a pure read:
      nothing is written and each result is the recorded one. */
  lemma {:induction false} RecordedBatchIsPureRead(s: Tables, step: Step, deviceId: string, ops: seq<SyncOperationInput>)
    requires Ledgered(step, deviceId)
    requires forall i :: 0 <= i < |ops| ==> LedgerTables.FindByDeviceAndOpId(s, deviceId, ops[i].opId).Some?
    ensures var r := RunBatch(s, step, ops);
      && r.db == s
      && forall i :: 0 <= i < |ops| ==>
           r.out[i] == OpResult(ops[i].opId, LedgerTables.FindByDeviceAndOpId(s, deviceId, ops[i].opId).value.result)
    decreases |ops|
  {
    if ops != [] {
      var n := |ops| - 1;
      var front := ops[..n];
      assert forall i :: 0 <= i < n ==> front[i] == ops[i];
      RecordedBatchIsPureRead(s, step, deviceId, front);
      var prev := RunBatch(s, step, front);
      assert LedgeredAt(step, deviceId, s, ops[n]);
      var r := RunBatch(s, step, ops);
      forall i | 0 <= i < |ops|
        ensures r.out[i] == OpResult(ops[i].opId, LedgerTables.FindByDeviceAndOpId(s, deviceId, ops[i].opId).value.result)
      {
        if i < n {
          assert r.out[i] == prev.out[i];
          assert prev.out[i] == OpResult(front[i].opId, LedgerTables.FindByDeviceAndOpId(s, deviceId, front[i].opId).value.result);
        }
      }
    }
  }

  /** Idempotency: sending the same batch again from the same device replays the first
      answers and writes nothing, on either reconciler, for any user and at any later time. */
  lemma ReplayIsPureRead(t: Tables, nested: bool, userId: int, deviceId: string, ops: seq<SyncOperationInput>,
                         now: Timestamp, nested2: bool, userId2: int, later: Timestamp)
    ensures var first := Reconcile(t, nested, userId, deviceId, ops, now);
      Reconcile(first.db, nested2, userId2, deviceId, ops, later) == first
  {
    var step := ReconcileStep(nested, userId, deviceId, now);
    var step2 := ReconcileStep(nested2, userId2, deviceId, later);
    ReconcileStepIsLedgered(nested, userId, deviceId, now);
    ReconcileStepIsLedgered(nested2, userId2, deviceId, later);
    var first := RunBatch(t, step, ops);
    DecisionsAreRecorded(t, step, deviceId, ops);
    ResultsFollowInputOrder(t, step, ops);
    RecordedBatchIsPureRead(first.db, step2, deviceId, ops);
    var again := RunBatch(first.db, step2, ops);
    assert again.out == first.out;
  }

  /** An operation id repeated later in the same batch is not applied twice: it gets the
      answer the earlier occurrence got. */
  lemma RepeatedOpIdGetsEarlierAnswer(t: Tables, nested: bool, userId: int, deviceId: string,
                                      ops: seq<SyncOperationInput>, now: Timestamp, i: nat, j: nat)
    requires i < j < |ops| && ops[i].opId == ops[j].opId
    ensures var r := Reconcile(t, nested, userId, deviceId, ops, now);
      r.out[j].result == r.out[i].result
  {
    var step := ReconcileStep(nested, userId, deviceId, now);
    ReconcileStepIsLedgered(nested, userId, deviceId, now);
    var pre := RunBatch(t, step, ops[..j]);
    DecisionsAreRecorded(t, step, deviceId, ops[..j]);
    assert ops[..j][i] == ops[i];
    assert ops[..j + 1][..j] == ops[..j];
    assert ops[..j + 1][j] == ops[j];
    assert LedgeredAt(step, deviceId, pre.db, ops[j]);
    PrefixRunsAlike(t, step, ops, j + 1);
    PrefixRunsAlike(t, step, ops, j);
    var r := RunBatch(t, step, ops);
    assert r.out[..j + 1][j] == r.out[j];
    assert r.out[..j][i] == r.out[i];
  }

  /** A `conflict` is decided only for an update whose base version was stale: the task and
      its versions stay as they were; the conflict event is kept under the transaction of
      the `SyncService` class and rolled back by the older reconciler, whose only write is
      then the ledger row. */
  lemma ConflictKeepsTaskState(t: Tables, nested: bool, userId: int, deviceId: string, op: SyncOperationInput, now: Timestamp)
    requires LedgerTables.FindByDeviceAndOpId(t, deviceId, op.opId).None?
    requires ReconcileOne(t, nested, userId, deviceId, op, now).out == SyncConflict
    ensures var r := ReconcileOne(t, nested, userId, deviceId, op, now);
      && op.entityType == JStr("task") && IsUpdate(op)
      && r.db.tasks == t.tasks && r.db.versions == t.versions
      && (nested ==> |r.db.events| == |t.events| + 1 && r.db.events[..|t.events|] == t.events
                     && r.db.events[|t.events|].result == EventConflict)
      && (!nested ==> r.db == t.(ledger := r.db.ledger))
  {
    var d := Dispatch(t, nested, userId, deviceId, op, now);
    assert d.out == Err(HttpError(Conflict));
  }

  /** An `update` or `status` operation whose numeric base version differs from the live
      task's, sent by the task's owner who passes the edit gate, is ledgered `conflict`, and
      the task and its versions are left as they were. */
  lemma StaleUpdateIsConflict(t: Tables, nested: bool, userId: int, deviceId: string, op: SyncOperationInput,
                              now: Timestamp, taskId: int, baseVersion: int)
    requires LedgerTables.FindByDeviceAndOpId(t, deviceId, op.opId).None?
    requires op.entityType == JStr("task") && IsUpdate(op)
    requires Prop(op.payload, "taskId") == Some(JNum(taskId))
    requires op.baseVersion == Some(JNum(baseVersion))
    requires TaskTables.FindByIdForUser(t.tasks, taskId, userId).Some?
    requires var ex := TaskTables.FindByIdForUser(t.tasks, taskId, userId).value;
      Gate(t, ex.workspaceId, userId, CanEdit).Ok? && ex.version != baseVersion
    ensures var r := ReconcileOne(t, nested, userId, deviceId, op, now);
      && r.out == SyncConflict
      && r.db.tasks == t.tasks && r.db.versions == t.versions
      && LedgerTables.FindByDeviceAndOpId(r.db, deviceId, op.opId).value.result == SyncConflict
  {
    assert TaskIdOf(op) == Ok(taskId);
    var input := UpdateInputOf(userId, deviceId, op, taskId);
    var u := UpdateUserTask(t, nested, input, now);
    assert u.out == Err(HttpError(Conflict));
  }

  /** A `create` operation naming a workspace in which the sender may create tasks, with no
      status or a valid one, is ledgered `applied`, and exactly one task is appended: the
      next id, in that workspace, owned by the sender, titled `String(title ?? "")`. */
  lemma PermittedCreateIsApplied(t: Tables, nested: bool, userId: int, deviceId: string, op: SyncOperationInput,
                                 now: Timestamp, workspaceId: int)
    requires LedgerTables.FindByDeviceAndOpId(t, deviceId, op.opId).None?
    requires op.entityType == JStr("task") && op.operation == JStr("create")
    requires Prop(op.payload, "workspaceId") == Some(JNum(workspaceId)) && workspaceId != 0
    requires Gate(t, workspaceId, userId, CanCreate).Ok?
    requires ParseStatus(AsString(Prop(op.payload, "status")).GetOr("pendiente")).Some?
    ensures var r := ReconcileOne(t, nested, userId, deviceId, op, now);
      && r.out == SyncApplied
      && |r.db.tasks| == |t.tasks| + 1 && r.db.tasks[..|t.tasks|] == t.tasks
      && r.db.tasks[|t.tasks|].id == |t.tasks| + 1
      && r.db.tasks[|t.tasks|].workspaceId == workspaceId
      && r.db.tasks[|t.tasks|].ownerUserId == userId
      && r.db.tasks[|t.tasks|].title == ToJsString(Coalesce(Prop(op.payload, "title"), JStr("")))
      && !r.db.tasks[|t.tasks|].isDeleted
      && LedgerTables.FindByDeviceAndOpId(r.db, deviceId, op.opId).value.result == SyncApplied
  {
    var input := CreateInputOf(userId, deviceId, op);
    assert input.Ok? && input.value.workspaceId == Some(workspaceId);
    var c := CreateUserTask(t, nested, input.value, now);
    assert ResolveWorkspace(t, userId, Some(workspaceId), now) == Effect(t, workspaceId);
    assert c.out.Ok?;
    assert c.db.tasks == t.tasks + [c.out.value];
  }
}
