/** The task routes' request handling: the parameter parsers of `tasks.controller.ts` and
    the input each handler builds, one type-checked field at a time, before it calls the
    task service. */
module TasksController {
  import opened Prelude
  import opened Errors
  import opened JsValues
  import opened Domain
  import opened Store
  import opened TaskServices
  import Spec = TaskServiceSpec

  /** `parseOptionalBigInt`: a string that is not blank goes through `BigInt` (which may
      throw), a number is taken as it is, anything else is `null`. */
  function ParseOptionalBigInt(value: Option<Json>): (r: Result<Option<int>>)
    ensures value.Some? && value.value.JNum? ==> r == Ok(Some(value.value.n))
    ensures value.Some? && value.value.JStr? && !IsBlank(value.value.s) ==>
      && (ParseDecimal(Trim(value.value.s)).Some? ==> r == Ok(Some(ParseDecimal(Trim(value.value.s)).value)))
      && (ParseDecimal(Trim(value.value.s)).None? ==> r == Err(RuntimeError(BigIntSyntax)))
    ensures r == Ok(None) <==>
      || value.None?
      || !(value.value.JNum? || value.value.JStr?)
      || (value.value.JStr? && IsBlank(value.value.s))
  {
    if value.Some? && value.value.JStr? && !IsBlank(value.value.s) then
      var n := ToBigInt(value.value);
      if n.Ok? then Ok(Some(n.value)) else Err(n.error)
    else if value.Some? && value.value.JNum? then Ok(Some(value.value.n))
    else Ok(None)
  }

  /** `isValidStatus`: exactly the three status names. */
  function IsValidStatus(value: Option<Json>): (r: bool)
    ensures r <==> value.Some? && value.value.JStr? && ParseStatus(value.value.s).Some?
  {
    value == Some(JStr("pendiente")) || value == Some(JStr("en_progreso")) || value == Some(JStr("completada"))
  }

  /** The value `parseParamBigInt` looks at: the first element of an array parameter. */
  function ParamValue(value: Json): (r: Option<Json>)
    ensures value.JArr? && value.items != [] ==> r == Some(value.items[0])
    ensures value.JArr? && value.items == [] ==> r.None?
    ensures !value.JArr? ==> r == Some(value)
  {
    if value.JArr? then (if |value.items| > 0 then Some(value.items[0]) else None) else Some(value)
  }

  /** `parseParamBigInt`: a route parameter that is a string, not blank, goes through
      `BigInt`; anything else is `null`. */
  function ParseParamBigInt(value: Json): (r: Result<Option<int>>)
    ensures var v := ParamValue(value);
      && (r == Ok(None) <==> !(v.Some? && v.value.JStr? && !IsBlank(v.value.s)))
      && (r.Ok? && r.value.Some? ==> ParseDecimal(Trim(v.value.s)) == Some(r.value.value))
      && (r.Err? ==> r == Err(RuntimeError(BigIntSyntax)) && ParseDecimal(Trim(v.value.s)).None?)
  {
    var v := ParamValue(value);
    if v.Some? && v.value.JStr? && !IsBlank(v.value.s) then
      var n := ToBigInt(v.value);
      if n.Ok? then Ok(Some(n.value)) else Err(n.error)
    else Ok(None)
  }

  /** The status field as a handler forwards it: a valid name, otherwise nothing. */
  function StatusField(value: Option<Json>): (r: Option<string>)
    ensures r.Some? <==> IsValidStatus(value)
    ensures r.Some? ==> value == Some(JStr(r.value)) && ParseStatus(r.value).Some?
  {
    if IsValidStatus(value) then Some(value.value.s) else None
  }

  /** The input `createTask` builds. A title that is not a string, or is blank, is
      BAD_REQUEST; the title is forwarded trimmed; the workspace id and client revision are
      parsed (and may throw); the other fields are forwarded only when they have the right
      type, an unknown status being dropped rather than rejected. */
  function CreateRequestInput(userId: int, body: Json): (r: Result<Spec.CreateUserTaskInput>)
    ensures AsString(Prop(body, "title")).None? || IsBlank(AsString(Prop(body, "title")).value) ==>
              r == Err(HttpError(BadRequest))
    ensures r.Ok? <==>
      && AsString(Prop(body, "title")).Some? && !IsBlank(AsString(Prop(body, "title")).value)
      && ParseOptionalBigInt(Prop(body, "workspaceId")).Ok? && ParseOptionalBigInt(Prop(body, "clientRev")).Ok?
    ensures r.Ok? ==>
      && r.value.userId == userId
      && r.value.title == Trim(AsString(Prop(body, "title")).value) && r.value.title != []
      && Ok(r.value.workspaceId) == ParseOptionalBigInt(Prop(body, "workspaceId"))
      && Ok(r.value.clientRev) == ParseOptionalBigInt(Prop(body, "clientRev"))
      && r.value.description == AsString(Prop(body, "description"))
      && r.value.status == StatusField(Prop(body, "status"))
      && r.value.clientId == AsString(Prop(body, "clientId"))
      && r.value.deviceId == AsString(Prop(body, "deviceId"))
  {
    var title := AsString(Prop(body, "title"));
    if title.None? || IsBlank(title.value) then Err(HttpError(BadRequest))
    else
      var workspaceId := ParseOptionalBigInt(Prop(body, "workspaceId"));
      var clientRev := ParseOptionalBigInt(Prop(body, "clientRev"));
      if workspaceId.Err? then Err(workspaceId.error)
      else if clientRev.Err? then Err(clientRev.error)
      else
        Ok(Spec.CreateUserTaskInput(userId, Trim(title.value), AsString(Prop(body, "description")),
          StatusField(Prop(body, "status")), workspaceId.value, AsString(Prop(body, "clientId")),
          clientRev.value, AsString(Prop(body, "deviceId"))))
  }

  /** The input `updateTask` builds. A missing or blank task id is BAD_REQUEST before the
      body is looked at; the base version is forwarded only when it parses to a number; the
      other fields only when they have the right type. */
  function UpdateRequestInput(userId: int, idParam: Json, body: Json): (r: Result<Spec.UpdateUserTaskInput>)
    ensures ParseParamBigInt(idParam) == Ok(None) ==> r == Err(HttpError(BadRequest))
    ensures ParseParamBigInt(idParam).Err? ==> r == Err(ParseParamBigInt(idParam).error)
    ensures r.Ok? <==>
      && ParseParamBigInt(idParam).Ok? && ParseParamBigInt(idParam).value.Some?
      && ParseOptionalBigInt(Prop(body, "baseVersion")).Ok?
    ensures r.Ok? ==>
      && r.value.userId == userId
      && ParseParamBigInt(idParam) == Ok(Some(r.value.taskId))
      && Ok(r.value.baseVersion) == ParseOptionalBigInt(Prop(body, "baseVersion"))
      && r.value.title == AsString(Prop(body, "title"))
      && r.value.description == AsString(Prop(body, "description"))
      && r.value.status == StatusField(Prop(body, "status"))
      && r.value.deviceId == AsString(Prop(body, "deviceId"))
  {
    var taskId := ParseParamBigInt(idParam);
    if taskId.Err? then Err(taskId.error)
    else if taskId.value.None? then Err(HttpError(BadRequest))
    else
      var baseVersion := ParseOptionalBigInt(Prop(body, "baseVersion"));
      if baseVersion.Err? then Err(baseVersion.error)
      else
        Ok(Spec.UpdateUserTaskInput(userId, taskId.value.value, AsString(Prop(body, "title")),
          AsString(Prop(body, "description")), StatusField(Prop(body, "status")), baseVersion.value,
          AsString(Prop(body, "deviceId"))))
  }

  /** The input `deleteTask` builds: the task id as for an update, the device id when it is
      a string. */
  function DeleteRequestInput(userId: int, idParam: Json, body: Json): (r: Result<Spec.DeleteUserTaskInput>)
    ensures ParseParamBigInt(idParam) == Ok(None) ==> r == Err(HttpError(BadRequest))
    ensures ParseParamBigInt(idParam).Err? ==> r == Err(ParseParamBigInt(idParam).error)
    ensures r.Ok? <==> ParseParamBigInt(idParam).Ok? && ParseParamBigInt(idParam).value.Some?
    ensures r.Ok? ==>
      r.value == Spec.DeleteUserTaskInput(userId, ParseParamBigInt(idParam).value.value, AsString(Prop(body, "deviceId")))
  {
    var taskId := ParseParamBigInt(idParam);
    if taskId.Err? then Err(taskId.error)
    else if taskId.value.None? then Err(HttpError(BadRequest))
    else Ok(Spec.DeleteUserTaskInput(userId, taskId.value.value, AsString(Prop(body, "deviceId"))))
  }

  // ---------------------------------------------------------------- handlers

  /** The body of `createTask` up to the service call: the title check, then one `if` per
      optional field. */
  method BuildCreateInput(userId: int, body: Json) returns (r: Result<Spec.CreateUserTaskInput>)
    ensures r == CreateRequestInput(userId, body)
  {
    var title := Prop(body, "title");
    if !(title.Some? && title.value.JStr?) || IsBlank(title.value.s) {
      return Err(HttpError(BadRequest));
    }
    var workspaceId := ParseOptionalBigInt(Prop(body, "workspaceId"));
    if workspaceId.Err? {
      return Err(workspaceId.error);
    }
    var clientRev := ParseOptionalBigInt(Prop(body, "clientRev"));
    if clientRev.Err? {
      return Err(clientRev.error);
    }
    var input := Spec.CreateUserTaskInput(userId, Trim(title.value.s), None, None, workspaceId.value, None, None, None);
    var description := Prop(body, "description");
    if description.Some? && description.value.JStr? {
      input := input.(description := Some(description.value.s));
    }
    if IsValidStatus(Prop(body, "status")) {
      input := input.(status := Some(Prop(body, "status").value.s));
    }
    var clientId := Prop(body, "clientId");
    if clientId.Some? && clientId.value.JStr? {
      input := input.(clientId := Some(clientId.value.s));
    }
    if clientRev.value.Some? {
      input := input.(clientRev := clientRev.value);
    }
    var deviceId := Prop(body, "deviceId");
    if deviceId.Some? && deviceId.value.JStr? {
      input := input.(deviceId := Some(deviceId.value.s));
    }
    r := Ok(input);
  }

  /** The body of `updateTask` up to the service call. */
  method BuildUpdateInput(userId: int, idParam: Json, body: Json) returns (r: Result<Spec.UpdateUserTaskInput>)
    ensures r == UpdateRequestInput(userId, idParam, body)
  {
    var taskId := ParseParamBigInt(idParam);
    if taskId.Err? {
      return Err(taskId.error);
    }
    if taskId.value.None? {
      return Err(HttpError(BadRequest));
    }
    var input := Spec.UpdateUserTaskInput(userId, taskId.value.value, None, None, None, None, None);
    var title := Prop(body, "title");
    if title.Some? && title.value.JStr? {
      input := input.(title := Some(title.value.s));
    }
    var description := Prop(body, "description");
    if description.Some? && description.value.JStr? {
      input := input.(description := Some(description.value.s));
    }
    if IsValidStatus(Prop(body, "status")) {
      input := input.(status := Some(Prop(body, "status").value.s));
    }
    var baseVersion := ParseOptionalBigInt(Prop(body, "baseVersion"));
    if baseVersion.Err? {
      return Err(baseVersion.error);
    }
    if baseVersion.value.Some? {
      input := input.(baseVersion := baseVersion.value);
    }
    var deviceId := Prop(body, "deviceId");
    if deviceId.Some? && deviceId.value.JStr? {
      input := input.(deviceId := Some(deviceId.value.s));
    }
    r := Ok(input);
  }

  /** `listTasks`: the service's listing (the mapping to response objects is not modelled). */
  method ListTasks(taskService: TaskService, userId: int) returns (r: seq<Task>)
    requires taskService.Valid()
    ensures r == Spec.ListUserTasks(taskService.taskRepository.db.State(), userId)
  {
    r := taskService.ListUserTasks(userId);
  }

  /** `createTask`: a rejected request writes nothing; otherwise the service decides. */
  method CreateTask(taskService: TaskService, userId: int, body: Json, now: Timestamp) returns (r: Result<Task>)
    requires taskService.Valid()
    modifies taskService.taskRepository.db
    ensures CreateRequestInput(userId, body).Err? ==>
      r == Err(CreateRequestInput(userId, body).error) && taskService.taskRepository.db.State() == old(taskService.taskRepository.db.State())
    ensures CreateRequestInput(userId, body).Ok? ==>
      var e := Spec.CreateUserTask(old(taskService.taskRepository.db.State()), taskService.Nested(), CreateRequestInput(userId, body).value, now);
      taskService.taskRepository.db.State() == e.db && r == e.out
  {
    var input := BuildCreateInput(userId, body);
    if input.Err? {
      return Err(input.error);
    }
    r := taskService.CreateUserTask(input.value, now);
  }

  /** `updateTask`: a rejected request, a missing task id included, writes nothing;
      otherwise the service decides. */
  method UpdateTask(taskService: TaskService, userId: int, idParam: Json, body: Json, now: Timestamp) returns (r: Result<Task>)
    requires taskService.Valid()
    modifies taskService.taskRepository.db
    ensures UpdateRequestInput(userId, idParam, body).Err? ==>
      r == Err(UpdateRequestInput(userId, idParam, body).error)
      && taskService.taskRepository.db.State() == old(taskService.taskRepository.db.State())
    ensures UpdateRequestInput(userId, idParam, body).Ok? ==>
      var e := Spec.UpdateUserTask(old(taskService.taskRepository.db.State()), taskService.Nested(),
                                   UpdateRequestInput(userId, idParam, body).value, now);
      taskService.taskRepository.db.State() == e.db && r == e.out
  {
    var input := BuildUpdateInput(userId, idParam, body);
    if input.Err? {
      return Err(input.error);
    }
    r := taskService.UpdateUserTask(input.value, now);
  }

  /** `deleteTask`: a missing task id writes nothing; otherwise the service decides. */
  method DeleteTask(taskService: TaskService, userId: int, idParam: Json, body: Json, now: Timestamp) returns (r: Result<()>)
    requires taskService.Valid()
    modifies taskService.taskRepository.db
    ensures DeleteRequestInput(userId, idParam, body).Err? ==>
      r == Err(DeleteRequestInput(userId, idParam, body).error)
      && taskService.taskRepository.db.State() == old(taskService.taskRepository.db.State())
    ensures DeleteRequestInput(userId, idParam, body).Ok? ==>
      var e := Spec.DeleteUserTask(old(taskService.taskRepository.db.State()), taskService.Nested(),
                                   DeleteRequestInput(userId, idParam, body).value, now);
      taskService.taskRepository.db.State() == e.db && r == e.out
  {
    var taskId := ParseParamBigInt(idParam);
    if taskId.Err? {
      return Err(taskId.error);
    }
    if taskId.value.None? {
      return Err(HttpError(BadRequest));
    }
    var deviceId := AsString(Prop(body, "deviceId"));
    r := taskService.DeleteUserTask(Spec.DeleteUserTaskInput(userId, taskId.value.value, deviceId), now);
  }

  // ---------------------------------------------------------------- properties

  /** Ids and versions travel as decimal strings or numbers: either form parses back to
      the integer it renders. */
  lemma ParsedIdsRoundTrip(n: int)
    ensures ParseOptionalBigInt(Some(JStr(IntToDecimal(n)))) == Ok(Some(n))
    ensures ParseOptionalBigInt(Some(JNum(n))) == Ok(Some(n))
    ensures ParseParamBigInt(JStr(IntToDecimal(n))) == Ok(Some(n))
    ensures ParseParamBigInt(JArr([JStr(IntToDecimal(n))])) == Ok(Some(n))
  {
    BigIntOfRenderedInt(n);
    var s := IntToDecimal(n);
    assert !IsJsWhitespace(s[0]);
    assert !IsBlank(s);
    assert ToBigInt(JStr(s)) == Ok(n);
    assert ParamValue(JArr([JStr(s)])) == Some(JStr(s));
  }
}
