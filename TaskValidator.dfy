/** `validateTaskStructure` (lab1/src/tasksRepository.js): the structural and
    type check of one task record, with the first failing check deciding
    the error. The JavaScript throws; here the error is returned. */
module TaskValidator {
  import opened Wrappers
  import opened Text
  import opened Json

  /** The fields the validator looks at, by their JSON key. */
  datatype Field = Id | Title | Completed | CreatedAt | Description | UpdatedAt
  {
    function Name(): string
    {
      match this
      case Id => "id"
      case Title => "title"
      case Completed => "completed"
      case CreatedAt => "createdAt"
      case Description => "description"
      case UpdatedAt => "updatedAt"
    }
  }

  /** The fields every task must have, in the order the missing-field
      message lists them. */
  const RequiredFields: seq<Field> := [Id, Title, Completed, CreatedAt]

  /** Fields that are type-checked only when present. */
  const OptionalFields: seq<Field> := [Description, UpdatedAt]

  /** The order in which field types are checked. */
  const CheckedFields: seq<Field> := RequiredFields + OptionalFields

  function Names(fields: seq<Field>): (r: seq<string>)
    ensures |r| == |fields| && forall i :: 0 <= i < |r| ==> r[i] == fields[i].Name()
  {
    if fields == [] then [] else [fields[0].Name()] + Names(fields[1..])
  }

  /** The three ways a record can fail, each remembering the record's
      position in the collection (used only for the message). */
  datatype SchemaError =
    | NotAnObject(index: nat)
    | MissingFields(index: nat, fields: seq<Field>)
    | InvalidType(index: nat, field: Field)
  {
    /** The text of the Error the validator throws. Every message starts
        with "Task at index ", which is how `parseTasks` recognises it. */
    function Message(): (m: string)
      ensures "Task at index " <= m
    {
      var prefix := "Task at index " + NatToString(index);
      match this
      case NotAnObject(_) => prefix + " must be an object"
      case MissingFields(_, missing) => prefix + " is missing required fields: " + Join(Names(missing), ", ")
      case InvalidType(_, field) => prefix + " has invalid " + field.Name() + " type"
    }
  }

  /** `typeof`-based check of one field of an object, as the validator
      states it: `id` a number or a string, `title` and `createdAt`
      strings, `completed` a boolean, and `description`/`updatedAt`
      strings when present. */
  predicate FieldTypeOk(fields: map<string, Json>, f: Field)
  {
    var key := f.Name();
    match f
    case Id => key in fields && (fields[key].JNumber? || fields[key].JString?)
    case Title | CreatedAt => key in fields && fields[key].JString?
    case Completed => key in fields && fields[key].JBool?
    case Description | UpdatedAt => key !in fields || fields[key].JString?
  }

  /** The task schema, stated declaratively: an object (not null, not an
      array) each of whose fields has its type. */
  predicate IsValidTask(task: Json)
  {
    && task.JObject?
    && FieldTypeOk(task.fields, Id)
    && FieldTypeOk(task.fields, Title)
    && FieldTypeOk(task.fields, Completed)
    && FieldTypeOk(task.fields, CreatedAt)
    && FieldTypeOk(task.fields, Description)
    && FieldTypeOk(task.fields, UpdatedAt)
  }

  /** Position k holds the first field, in check order, whose type is wrong. */
  predicate FirstTypeFailure(fields: map<string, Json>, k: int)
  {
    && 0 <= k < |CheckedFields|
    && !FieldTypeOk(fields, CheckedFields[k])
    && forall i :: 0 <= i < k ==> FieldTypeOk(fields, CheckedFields[i])
  }

  /** `a` is `b` with some elements left out, the rest kept in order. */
  predicate IsSubsequence(a: seq<Field>, b: seq<Field>)
  {
    || a == []
    || (b != [] && ((a[0] == b[0] && IsSubsequence(a[1..], b[1..])) || IsSubsequence(a, b[1..])))
  }

  /** `requiredFields.filter((field) => !(field in task))`: exactly the
      required fields the object lacks, in the order they are required. */
  function Missing(required: seq<Field>, fields: map<string, Json>): (r: seq<Field>)
    ensures forall f :: f in r <==> f in required && f.Name() !in fields
    ensures IsSubsequence(r, required)
  {
    if required == [] then []
    else
      var rest := Missing(required[1..], fields);
      if required[0].Name() in fields then rest else [required[0]] + rest
  }

  /** A required field that is absent fails its own check, so the record
      is not a valid task. */
  lemma MissingMeansInvalid(task: Json)
    requires task.JObject? && Missing(RequiredFields, task.fields) != []
    ensures !IsValidTask(task)
  {
    var f := Missing(RequiredFields, task.fields)[0];
    assert f in RequiredFields && f.Name() !in task.fields;
    assert !FieldTypeOk(task.fields, f);
  }

  /** `validateTaskStructure(task, index)`: accepts exactly the valid
      tasks, and rejects anything that is not an object before any field
      is examined. The order of the remaining checks is stated by
      `ValidationOrder` below. */
  function ValidateTaskStructure(task: Json, index: nat): (r: Outcome<SchemaError>)
    ensures r.Fail? ==> r.error.index == index
    ensures r.Pass? <==> IsValidTask(task)
    ensures !task.JObject? ==> r == Fail(NotAnObject(index))
  {
    if !task.JObject? then Fail(NotAnObject(index))
    else
      var fields := task.fields;
      var missing := Missing(RequiredFields, fields);
      if |missing| > 0 then
        MissingMeansInvalid(task);
        Fail(MissingFields(index, missing))
      else
        assert Id !in missing && Title !in missing && Completed !in missing && CreatedAt !in missing;
        if !(fields["id"].JNumber? || fields["id"].JString?) then
        assert !FieldTypeOk(fields, CheckedFields[0]);
        Fail(InvalidType(index, Id))
      else if !fields["title"].JString? then
        assert !FieldTypeOk(fields, CheckedFields[1]);
        Fail(InvalidType(index, Title))
      else if !fields["completed"].JBool? then
        assert !FieldTypeOk(fields, CheckedFields[2]);
        Fail(InvalidType(index, Completed))
      else if !fields["createdAt"].JString? then
        assert !FieldTypeOk(fields, CheckedFields[3]);
        Fail(InvalidType(index, CreatedAt))
      else if "description" in fields && !fields["description"].JString? then
        assert !FieldTypeOk(fields, CheckedFields[4]);
        Fail(InvalidType(index, Description))
      else if "updatedAt" in fields && !fields["updatedAt"].JString? then
        assert !FieldTypeOk(fields, CheckedFields[5]);
        Fail(InvalidType(index, UpdatedAt))
      else Pass
  }

  /** The order of the checks on an object: presence first, with the error
      listing exactly the missing fields; then the types, where the first
      failing field in check order decides the error. */
  lemma ValidationOrder(task: Json, index: nat)
    requires task.JObject?
    ensures var r := ValidateTaskStructure(task, index);
            && (r.Fail? && r.error.MissingFields? <==> Missing(RequiredFields, task.fields) != [])
            && (r.Fail? && r.error.MissingFields? ==> r.error.fields == Missing(RequiredFields, task.fields))
    ensures var r := ValidateTaskStructure(task, index);
            r.Fail? && r.error.InvalidType? ==>
              && Missing(RequiredFields, task.fields) == []
              && exists k :: FirstTypeFailure(task.fields, k) && r.error.field == CheckedFields[k]
    ensures Missing(RequiredFields, task.fields) == [] ==>
              forall k :: FirstTypeFailure(task.fields, k) ==>
                ValidateTaskStructure(task, index) == Fail(InvalidType(index, CheckedFields[k]))
  {
    var fields := task.fields;
    if Missing(RequiredFields, fields) == [] {
      assert forall f :: f in RequiredFields ==> f.Name() in fields;
      var k :=
        if !FieldTypeOk(fields, Id) then 0
        else if !FieldTypeOk(fields, Title) then 1
        else if !FieldTypeOk(fields, Completed) then 2
        else if !FieldTypeOk(fields, CreatedAt) then 3
        else if !FieldTypeOk(fields, Description) then 4
        else 5;
      if ValidateTaskStructure(task, index).Fail? {
        assert FirstTypeFailure(fields, k);
      }
      forall j | FirstTypeFailure(fields, j)
        ensures ValidateTaskStructure(task, index) == Fail(InvalidType(index, CheckedFields[j]))
      {
        assert FirstTypeFailure(fields, k);
      }
    }
  }

  /** `tasks.forEach((task, index) => validateTaskStructure(task, index))`
      from position `from` on. It passes exactly when every record is
      valid, and otherwise fails with the error of the FIRST invalid
      record. */
  function ValidateAll(tasks: seq<Json>, from: nat): (r: Outcome<SchemaError>)
    requires from <= |tasks|
    decreases |tasks| - from
    ensures r.Pass? <==> forall k :: from <= k < |tasks| ==> IsValidTask(tasks[k])
    ensures r.Fail? ==>
              && from <= r.error.index < |tasks|
              && ValidateTaskStructure(tasks[r.error.index], r.error.index) == r
              && forall k :: from <= k < r.error.index ==> IsValidTask(tasks[k])
  {
    if from == |tasks| then Pass
    else
      var check := ValidateTaskStructure(tasks[from], from);
      if check.Fail? then check else ValidateAll(tasks, from + 1)
  }
}
