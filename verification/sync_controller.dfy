/** The sync route's request handling: the request guards, the normalisation of each
    operation with its defaults, and the call to the module-level reconciler. */
module SyncController {
  import opened Prelude
  import opened Errors
  import opened JsValues
  import opened Domain
  import opened Store
  import opened SyncSpec
  import LegacySyncService

  /** The two guards: `deviceId` must be a string that is not blank, `operations` an array.
      Reading a field of a `null` body throws. */
  function CheckSyncRequest(body: Json): (r: Result<(string, seq<Json>)>)
    ensures body == JNull ==> r == Err(RuntimeError(NullProperty))
    ensures body != JNull && (AsString(Prop(body, "deviceId")).None? || IsBlank(AsString(Prop(body, "deviceId")).value)) ==>
              r == Err(HttpError(BadRequest))
    ensures body != JNull && !(Prop(body, "operations").Some? && Prop(body, "operations").value.JArr?) ==>
              r.Err? && r.error == HttpError(BadRequest)
    ensures r.Ok? ==>
      && Prop(body, "deviceId") == Some(JStr(r.value.0)) && !IsBlank(r.value.0)
      && Prop(body, "operations") == Some(JArr(r.value.1))
  {
    if body == JNull then Err(RuntimeError(NullProperty))
    else
      var deviceId := Prop(body, "deviceId");
      var operations := Prop(body, "operations");
      if !(deviceId.Some? && deviceId.value.JStr?) || IsBlank(deviceId.value.s) then Err(HttpError(BadRequest))
      else if !(operations.Some? && operations.value.JArr?) then Err(HttpError(BadRequest))
      else Ok((deviceId.value.s, operations.value.items))
  }

  /** One element of `operations.map(...)`: a missing or `null` field takes its default (an
      empty operation id, entity `task`, an empty operation, a `null` client id, an empty
      payload, a `null` base version); the operation id is coerced with `String`. A `null`
      element throws. */
  function NormalizeOperation(op: Json): (r: Result<SyncOperationInput>)
    ensures op == JNull <==> r.Err?
    ensures r.Err? ==> r.error == RuntimeError(NullProperty)
    ensures r.Ok? ==>
      && r.value.opId == ToJsString(Coalesce(Prop(op, "opId"), JStr("")))
      && (IsNullish(Prop(op, "opId")) ==> r.value.opId == "")
      && (IsNullish(Prop(op, "entityType")) ==> r.value.entityType == JStr("task"))
      && (IsNullish(Prop(op, "operation")) ==> r.value.operation == JStr(""))
      && (IsNullish(Prop(op, "entityClientId")) ==> r.value.entityClientId == Some(JNull))
      && (IsNullish(Prop(op, "payload")) ==> r.value.payload == JObj(map[]))
      && (IsNullish(Prop(op, "baseVersion")) ==> r.value.baseVersion == Some(JNull))
      && r.value.payload != JNull && r.value.entityClientId.Some? && r.value.baseVersion.Some?
      && (!IsNullish(Prop(op, "entityType")) ==> Prop(op, "entityType") == Some(r.value.entityType))
      && (!IsNullish(Prop(op, "operation")) ==> Prop(op, "operation") == Some(r.value.operation))
      && (!IsNullish(Prop(op, "payload")) ==> Prop(op, "payload") == Some(r.value.payload))
      && (!IsNullish(Prop(op, "baseVersion")) ==> Prop(op, "baseVersion") == r.value.baseVersion)
  {
    if op == JNull then Err(RuntimeError(NullProperty))
    else
      Ok(SyncOperationInput(
        opId := ToJsString(Coalesce(Prop(op, "opId"), JStr(""))),
        entityType := Coalesce(Prop(op, "entityType"), JStr("task")),
        operation := Coalesce(Prop(op, "operation"), JStr("")),
        entityClientId := Some(Coalesce(Prop(op, "entityClientId"), JNull)),
        payload := Coalesce(Prop(op, "payload"), JObj(map[])),
        baseVersion := Some(Coalesce(Prop(op, "baseVersion"), JNull))))
  }

  /** `operations.map(...)`: exactly one normalised operation per element, in order; the
      first `null` element throws. */
  function NormalizeOperations(ops: seq<Json>): (r: Result<seq<SyncOperationInput>>)
    ensures r.Ok? <==> forall i :: 0 <= i < |ops| ==> ops[i] != JNull
    ensures r.Err? ==> r.error == RuntimeError(NullProperty)
    ensures r.Ok? ==> |r.value| == |ops| && forall i :: 0 <= i < |ops| ==> Ok(r.value[i]) == NormalizeOperation(ops[i])
  {
    if ops == [] then Ok([])
    else if ops[0] == JNull then Err(RuntimeError(NullProperty))
    else
      var rest := NormalizeOperations(ops[1..]);
      assert forall i :: 1 <= i < |ops| ==> ops[1..][i - 1] == ops[i];
      if rest.Err? then Err(rest.error)
      else
        var r := [NormalizeOperation(ops[0]).value] + rest.value;
        assert forall i :: 1 <= i < |ops| ==> r[i] == rest.value[i - 1];
        Ok(r)
  }

  /** What `syncOperations` answers and writes: a failed guard or normalisation writes
      nothing; otherwise the older reconciler's batch, whose results are returned as they
      are. */
  function SyncRequest(t: Tables, userId: int, body: Json, now: Timestamp): (r: Effect<Result<seq<OpResult>>>)
    ensures CheckSyncRequest(body).Err? ==> r == Effect(t, Err(CheckSyncRequest(body).error))
    ensures CheckSyncRequest(body).Ok? && NormalizeOperations(CheckSyncRequest(body).value.1).Err? ==>
              r == Effect(t, Err(RuntimeError(NullProperty)))
    ensures r.out.Ok? ==>
      var deviceId := CheckSyncRequest(body).value.0;
      var operations := NormalizeOperations(CheckSyncRequest(body).value.1).value;
      r == Effect(Reconcile(t, false, userId, deviceId, operations, now).db, Ok(Reconcile(t, false, userId, deviceId, operations, now).out))
  {
    var checked := CheckSyncRequest(body);
    if checked.Err? then Effect(t, Err(checked.error))
    else
      var operations := NormalizeOperations(checked.value.1);
      if operations.Err? then Effect(t, Err(operations.error))
      else
        var e := Reconcile(t, false, userId, checked.value.0, operations.value, now);
        Effect(e.db, Ok(e.out))
  }

  /** `syncOperations`. */
  method SyncOperations(userId: int, body: Json, db: Database, now: Timestamp) returns (r: Result<seq<OpResult>>)
    modifies db
    ensures var e := SyncRequest(old(db.State()), userId, body, now); db.State() == e.db && r == e.out
  {
    var checked := CheckSyncRequest(body);
    if checked.Err? {
      return Err(checked.error);
    }
    var deviceId := checked.value.0;
    var normalized := NormalizeOperations(checked.value.1);
    if normalized.Err? {
      return Err(normalized.error);
    }
    var results := LegacySyncService.ApplySyncOperations(userId, deviceId, normalized.value, db, now);
    r := Ok(results);
  }

  // ---------------------------------------------------------------- properties

  /** The response answers every operation sent, in the order sent, each under its
      operation id as a string. */
  lemma ResponseAnswersEachOperation(t: Tables, userId: int, body: Json, now: Timestamp)
    requires SyncRequest(t, userId, body, now).out.Ok?
    ensures var ops := Prop(body, "operations").value.items;
      var results := SyncRequest(t, userId, body, now).out.value;
      && |results| == |ops|
      && forall i :: 0 <= i < |ops| ==> results[i].opId == ToJsString(Coalesce(Prop(ops[i], "opId"), JStr("")))
  {
    var checked := CheckSyncRequest(body).value;
    var operations := NormalizeOperations(checked.1).value;
    ResultsFollowInputOrder(t, ReconcileStep(false, userId, checked.0, now), operations);
    var results := SyncRequest(t, userId, body, now).out.value;
    forall i | 0 <= i < |checked.1|
      ensures results[i].opId == ToJsString(Coalesce(Prop(checked.1[i], "opId"), JStr("")))
    {
      assert Ok(operations[i]) == NormalizeOperation(checked.1[i]);
    }
  }

  /** The same request sent twice gets the same answer, and the second one writes nothing. */
  lemma RetriedRequestIsIdempotent(t: Tables, userId: int, body: Json, now: Timestamp, later: Timestamp)
    requires SyncRequest(t, userId, body, now).out.Ok?
    ensures var first := SyncRequest(t, userId, body, now);
      SyncRequest(first.db, userId, body, later) == first
  {
    var checked := CheckSyncRequest(body).value;
    var operations := NormalizeOperations(checked.1).value;
    ReplayIsPureRead(t, false, userId, checked.0, operations, now, false, userId, later);
  }
}
