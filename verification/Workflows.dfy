/** Declared identifier handoffs between operations, checked against the exported schemas. */
module Workflows {
  import opened Wrappers
  import opened JsonValues
  import opened TextTools
  import SchemaField
  import SchemaPaths

  datatype Operation = Operation(inputSchema: Json, outputSchema: Json)

  datatype Workflow = Workflow(
    name: string, source: string, outputPath: seq<string>, consumer: string, inputPath: seq<string>, scope: string)

  datatype Handoff = Handoff(
    name: string, source: string, output: seq<string>, consumer: string, input: seq<string>, scope: string)

  datatype Fault =
    | NotClosed | DuplicateName | BadIdentifier | UnknownOperation | BadPath
    | Unresolved(fault: SchemaField.Fault) | NotIdentifierFields | NotText

  const KEYS := {"name", "source", "outputPath", "consumer", "inputPath", "scope"}

  predicate Closed(v: Json) {
    v.Obj? && v.fields.Keys == {"name", "source", "outputPath", "consumer", "inputPath", "scope"}
  }

  function TextOf(v: Json): Option<string> {
    if v.Str? then Some(v.text) else None
  }

  /** A nonempty list of strings. */
  predicate IsPath(v: Json) {
    v.Arr? && v.items != [] && forall k :: 0 <= k < |v.items| ==> v.items[k].Str?
  }

  function PathOf(v: Json): (path: seq<string>)
    requires IsPath(v)
    ensures |path| == |v.items| && forall k :: 0 <= k < |path| ==> v.items[k] == Str(path[k])
  {
    seq(|v.items|, k requires 0 <= k < |v.items| => v.items[k].text)
  }

  predicate IsIdentifier(s: string) {
    s != "" && forall c :: c in s ==> IsAlphanumeric(c) || c in "_.-"
  }

  predicate IsTextSchema(node: Json) {
    node.Obj? && "type" in node.fields && node.fields["type"] == Str("string")
  }

  /** The path leads to a schema object whose type is "string". */
  ghost predicate SelectsText(schema: Json, path: seq<string>) {
    exists leaf: Json ::
      && SchemaPaths.Leads(schema, schema, path, leaf)
      && leaf.Obj? && "type" in leaf.fields && leaf.fields["type"] == Str("string")
  }

  lemma {:induction false} SelectsTextIff(schema: Json, path: seq<string>)
    ensures
      var field := SchemaField.Field(schema, schema, path);
      SelectsText(schema, path) <==> field.Success? && IsTextSchema(field.value)
  {
    var field := SchemaField.Field(schema, schema, path);
    if field.Success? {
      SchemaPaths.FieldIff(schema, schema, path, field.value);
    }
    forall leaf: Json | SchemaPaths.Leads(schema, schema, path, leaf)
      ensures field == Success(leaf)
    {
      SchemaPaths.FieldIff(schema, schema, path, leaf);
    }
  }

  /** Not empty, and nothing but ASCII letters and digits, underscores, dots and hyphens. */
  predicate Identifying(s: string) {
    && 0 < |s|
    && forall c :: c in s ==>
         'a' <= c <= 'z' || 'A' <= c <= 'Z' || '0' <= c <= '9' || c == '_' || c == '.' || c == '-'
  }

  /** The raw entry has exactly the six keys, each of its own kind. */
  predicate WellFormed(v: Json) {
    && Closed(v)
    && v.fields["name"].Str? && v.fields["scope"].Str? && v.fields["source"].Str? && v.fields["consumer"].Str?
    && IsPath(v.fields["outputPath"]) && IsPath(v.fields["inputPath"])
  }

  function Read(v: Json): Workflow
    requires WellFormed(v)
  {
    Workflow(v.fields["name"].text, v.fields["source"].text, PathOf(v.fields["outputPath"]),
             v.fields["consumer"].text, PathOf(v.fields["inputPath"]), v.fields["scope"].text)
  }

  /** A well-formed entry that joins two existing text fields of known operations. */
  ghost predicate Sound(operations: map<string, Operation>, v: Json) {
    WellFormed(v) && Joins(operations, Read(v))
  }

  ghost predicate Joins(operations: map<string, Operation>, w: Workflow) {
    && Identifying(w.source) && Identifying(w.consumer)
    && w.source in operations && w.consumer in operations
    && SelectsText(operations[w.source].outputSchema, w.outputPath)
    && SelectsText(operations[w.consumer].inputSchema, w.inputPath)
  }

  function ToHandoff(w: Workflow): Handoff {
    Handoff(w.name, w.source, w.outputPath, w.consumer, w.inputPath, w.scope)
  }

  /** The two selected fields, both of them text. */
  method CheckFields(outputSchema: Json, outputPath: seq<string>, inputSchema: Json, inputPath: seq<string>)
    returns (r: Result<(), Fault>)
    ensures r.Success? <==> SelectsText(outputSchema, outputPath) && SelectsText(inputSchema, inputPath)
  {
    SelectsTextIff(outputSchema, outputPath);
    SelectsTextIff(inputSchema, inputPath);
    var output := SchemaField.SchemaFieldOf(outputSchema, outputPath);
    if output.Failure? {
      return Failure(Unresolved(output.error));
    }
    var argument := SchemaField.SchemaFieldOf(inputSchema, inputPath);
    if argument.Failure? {
      return Failure(Unresolved(argument.error));
    }
    if !IsTextSchema(output.value) || !IsTextSchema(argument.value) {
      return Failure(NotIdentifierFields);
    }
    return Success(());
  }

  /** One entry whose keys are the six, in the order of the checks; the texts of name and scope are
      needed last, when the row is written. */
  method CheckWorkflow(operations: map<string, Operation>, v: Json) returns (r: Result<Handoff, Fault>)
    requires Closed(v)
    ensures r.Success? <==> Sound(operations, v)
    ensures r.Success? ==> r.value == ToHandoff(Read(v))
  {
    var source, consumer := TextOf(v.fields["source"]), TextOf(v.fields["consumer"]);
    if source.None? || !IsIdentifier(source.value) || consumer.None? || !IsIdentifier(consumer.value) {
      return Failure(BadIdentifier);
    }
    if source.value !in operations || consumer.value !in operations {
      return Failure(UnknownOperation);
    }
    if !IsPath(v.fields["outputPath"]) || !IsPath(v.fields["inputPath"]) {
      return Failure(BadPath);
    }
    var outputPath, inputPath := PathOf(v.fields["outputPath"]), PathOf(v.fields["inputPath"]);
    var joined := CheckFields(operations[source.value].outputSchema, outputPath,
                              operations[consumer.value].inputSchema, inputPath);
    if joined.Failure? {
      return Failure(joined.error);
    }
    var name, scope := TextOf(v.fields["name"]), TextOf(v.fields["scope"]);
    if name.None? || scope.None? {
      return Failure(NotText);
    }
    return Success(Handoff(name.value, source.value, outputPath, consumer.value, inputPath, scope.value));
  }

  function NameOf(v: Json): Option<string> {
    if Closed(v) then TextOf(v.fields["name"]) else None
  }

  function Names(workflows: seq<Json>): (names: seq<Option<string>>)
    ensures |names| == |workflows| && forall k :: 0 <= k < |names| ==> names[k] == NameOf(workflows[k])
  {
    seq(|workflows|, k requires 0 <= k < |workflows| => NameOf(workflows[k]))
  }

  /** No name is used twice among the first `k`. */
  ghost predicate DistinctNames(names: seq<Option<string>>, k: nat)
    requires k <= |names|
  {
    forall i, j :: 0 <= i < j < k && names[i].Some? ==> names[i] != names[j]
  }

  ghost predicate Seen(names: seq<Option<string>>, k: nat, seen: set<string>)
    requires k <= |names|
  {
    forall name :: name in seen <==> exists j :: 0 <= j < k && names[j] == Some(name)
  }

  ghost predicate RowsOf(operations: map<string, Operation>, workflows: seq<Json>, k: nat, rows: seq<Handoff>)
    requires k <= |workflows|
  {
    && |rows| == k
    && forall j :: 0 <= j < k ==> Sound(operations, workflows[j]) && rows[j] == ToHandoff(Read(workflows[j]))
  }

  /** What the loop has written of the first `k` entries, and the names it has seen. */
  ghost predicate Written(operations: map<string, Operation>, workflows: seq<Json>, k: nat,
                          rows: seq<Handoff>, seen: set<string>)
    requires k <= |workflows|
  {
    RowsOf(operations, workflows, k, rows) && Seen(Names(workflows), k, seen) && DistinctNames(Names(workflows), k)
  }

  ghost predicate Acceptable(operations: map<string, Operation>, workflows: seq<Json>) {
    DistinctNames(Names(workflows), |workflows|) && forall k :: 0 <= k < |workflows| ==> Sound(operations, workflows[k])
  }

  lemma {:induction false} SeeOneMore(names: seq<Option<string>>, k: nat, seen: set<string>)
    requires k < |names| && Seen(names, k, seen) && names[k].Some?
    ensures Seen(names, k + 1, seen + {names[k].value})
    ensures names[k].value !in seen && DistinctNames(names, k) ==> DistinctNames(names, k + 1)
    ensures names[k].value in seen ==> !DistinctNames(names, |names|)
  {
    forall other
      ensures other in seen + {names[k].value} <==> exists j :: 0 <= j < k + 1 && names[j] == Some(other)
    {
      if other == names[k].value {
        assert names[k] == Some(other);
      }
    }
  }

  lemma {:induction false} RowOneMore(operations: map<string, Operation>, workflows: seq<Json>, k: nat,
                                      rows: seq<Handoff>)
    requires k < |workflows| && RowsOf(operations, workflows, k, rows) && Sound(operations, workflows[k])
    ensures RowsOf(operations, workflows, k + 1, rows + [ToHandoff(Read(workflows[k]))])
  {
    var more := rows + [ToHandoff(Read(workflows[k]))];
    forall j | 0 <= j < k + 1
      ensures Sound(operations, workflows[j]) && more[j] == ToHandoff(Read(workflows[j]))
    {
    }
  }

  /** A list of raw entries is accepted exactly when each one is a closed object that joins two
      existing text fields of known operations, and no name is used twice; it then gives one row each,
      in order. */
  method WorkflowRows(operations: map<string, Operation>, workflows: seq<Json>) returns (r: Result<seq<Handoff>, Fault>)
    ensures r.Success? <==> Acceptable(operations, workflows)
    ensures r.Success? ==>
              && |r.value| == |workflows|
              && forall k :: 0 <= k < |workflows| ==> r.value[k] == ToHandoff(Read(workflows[k]))
  {
    var rows: seq<Handoff> := [];
    var seen: set<string> := {};
    for k := 0 to |workflows|
      invariant Written(operations, workflows, k, rows, seen)
    {
      var v := workflows[k];
      if !v.Obj? || v.fields.Keys != KEYS {
        return Failure(NotClosed);
      }
      var name := TextOf(v.fields["name"]);
      assert name == Names(workflows)[k];
      if name.Some? {
        SeeOneMore(Names(workflows), k, seen);
      }
      if name.Some? && name.value in seen {
        return Failure(DuplicateName);
      }
      var row := CheckWorkflow(operations, v);
      if row.Failure? {
        return Failure(row.error);
      }
      RowOneMore(operations, workflows, k, rows);
      seen := seen + {name.value};
      rows := rows + [row.value];
    }
    return Success(rows);
  }
}
