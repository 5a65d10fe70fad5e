/** How far the payload of an operation depends on the environment it is first read in. */
module PayloadEnvironments {
  import opened Basics
  import opened Json
  import opened MemoryOperations

  /** The arguments name a user of their own. */
  predicate NamesUser(arguments: Value) {
    GetStr(arguments, "user_id").Some? && Trim(GetStr(arguments, "user_id").value) != []
  }

  /** Before it is bound, a payload depends on the environment it is read in exactly when it is a task
      step in the old form that names no user: binding is what makes resubmissions agree. */
  lemma EnvironmentMatters(kind: Method, arguments: Value, project: string, other: string)
    requires project != other
    ensures NormalizePayload(kind, arguments, project) != NormalizePayload(kind, arguments, other)
       <==> && kind == AddTaskStep && NormalizePayload(kind, arguments, project).Ok?
            && !NormalForm(kind, arguments) && !NamesUser(arguments)
  {
    var a, b := NormalizePayload(kind, arguments, project), NormalizePayload(kind, arguments, other);
    if kind == AddTaskStep && a.Ok? && !NormalForm(kind, arguments) {
      UserField(a.value, b.value, project, other, arguments);
    }
  }

  lemma UserField(a: Value, b: Value, project: string, other: string, arguments: Value)
    requires a.Obj? && b.Obj? && |a.fields| == |b.fields| == 7 && a.fields[..6] == b.fields[..6]
    requires a.fields[6] == Field("user_id", ScopeKey(arguments, "user_id", project))
    requires b.fields[6] == Field("user_id", ScopeKey(arguments, "user_id", other))
    ensures a == b <==> ScopeKey(arguments, "user_id", project) == ScopeKey(arguments, "user_id", other)
  {
    assert a.fields == a.fields[..6] + [a.fields[6]] && b.fields == b.fields[..6] + [b.fields[6]];
  }

  /** `key` of the arguments where it is a text that is not blank, trimmed, else `fallback`. */
  predicate OwnOr(payload: Value, arguments: Value, key: string, fallback: string) {
    match GetStr(arguments, key)
    case Some(text) => GetStr(payload, key) == Some(if Trim(text) != [] then Trim(text) else fallback)
    case None => GetStr(payload, key) == Some(fallback)
  }

  /** A task step in the old form becomes the new one: the stream by its name, as its first step, named,
      described and made idempotent by the description. It needs both texts. */
  lemma OldStepBecomes(arguments: Value, project: string)
    requires Get(arguments, "stream_name").None?
    ensures match NormalizePayload(AddTaskStep, arguments, project)
            case Ok(payload) =>
              && GetStr(arguments, "stream").Some? && GetStr(arguments, "description").Some?
              && payload.Obj? && |payload.fields| == 7
              && GetStr(payload, "stream_name") == GetStr(arguments, "stream")
              && Get(payload, "ordinal") == Some(Number("1"))
              && GetStr(payload, "name") == GetStr(arguments, "description")
              && GetStr(payload, "description") == GetStr(arguments, "description")
              && GetStr(payload, "idempotency_key") == GetStr(arguments, "description")
            case Err(e) =>
              e == MalformedArguments
              && (GetStr(arguments, "stream").None? || GetStr(arguments, "description").None?)
  {
    var payload := NormalizePayload(AddTaskStep, arguments, project);
    if payload.Ok? {
      var f := payload.value.fields;
      Skip(f, 0, "stream_name");
      Skip(f, 1, "ordinal");
      Skip(f, 2, "name");
      Skip(f, 3, "description");
      Skip(f, 4, "idempotency_key");
    }
  }

  /** It belongs to the agent and the user it names, or else to the project's agent and the project. */
  lemma OldStepOwners(arguments: Value, project: string)
    requires Get(arguments, "stream_name").None? && NormalizePayload(AddTaskStep, arguments, project).Ok?
    ensures var payload := NormalizePayload(AddTaskStep, arguments, project).value;
            OwnOr(payload, arguments, "agent_id", "@project") && OwnOr(payload, arguments, "user_id", project)
  {
    var fields := NormalizePayload(AddTaskStep, arguments, project).value.fields;
    Skip(fields, 5, "agent_id");
    Skip(fields, 6, "user_id");
  }

  lemma {:induction false} Skip(fields: seq<Field>, i: nat, key: string)
    requires i < |fields| && fields[i].name == key && forall j | 0 <= j < i :: fields[j].name != key
    ensures Json.Find(fields, key) == Some(fields[i].value)
  {
    if i > 0 {
      Skip(fields[1..], i - 1, key);
    }
  }

  /** A completion in the old form becomes the new one: the step as the key, and a fixed result. */
  lemma OldCompletionBecomes(arguments: Value, project: string)
    requires Get(arguments, "idempotency_key").None?
    ensures match NormalizePayload(CompleteStep, arguments, project)
            case Ok(payload) =>
              && GetStr(arguments, "step").Some? && payload.Obj? && |payload.fields| == 2
              && GetStr(payload, "idempotency_key") == GetStr(arguments, "step")
              && GetStr(payload, "result") == Some("completed via memory bridge")
            case Err(e) => e == MalformedArguments && GetStr(arguments, "step").None?
  {
    var payload := NormalizePayload(CompleteStep, arguments, project);
    if payload.Ok? {
      Skip(payload.value.fields, 0, "idempotency_key");
      Skip(payload.value.fields, 1, "result");
    }
  }

  /** Everything else is kept as it is, and a method the ledger does not have is refused. */
  lemma OthersStay(kind: Method, arguments: Value, project: string)
    ensures kind == AddMemory || kind == CreateTaskStream ==>
              NormalizePayload(kind, arguments, project) == Ok(arguments)
    ensures kind == AddTaskStep && Get(arguments, "stream_name").Some? ==>
              NormalizePayload(kind, arguments, project) == Ok(arguments)
    ensures kind == CompleteStep && Get(arguments, "idempotency_key").Some? ==>
              NormalizePayload(kind, arguments, project) == Ok(arguments)
    ensures kind.UnsupportedMethod? ==> NormalizePayload(kind, arguments, project) == Err(UnsupportedOperation)
  {
  }
}
