/** The generated program: one declaration per definition and document, no name twice, no name
    mentioned that is not declared, and sound types for every operation. */
module TypeGeneration {
  import opened Wrappers
  import opened JsonValues
  import opened SchemaModel
  import opened TypeCompiler
  import opened TypeSoundness

  datatype Operation = Operation(name: string, input: Document, output: Document)

  datatype Policy = Policy(operations: seq<Operation>, errors: Document, files: Document)

  datatype Declaration = Declaration(name: TypeName, ty: Ts)

  /** The member tables of the two operation interfaces, in the order of the operations. */
  datatype Program = Program(
    declarations: seq<Declaration>,
    inputs: seq<(string, TypeName)>,
    outputs: seq<(string, TypeName)>)

  function Keys(defs: seq<Definition>): (keys: seq<string>)
    ensures |keys| == |defs| && forall k :: 0 <= k < |defs| ==> keys[k] == defs[k].key
  {
    if defs == [] then [] else [defs[0].key] + Keys(defs[1..])
  }

  function NamesFor(prefix: Prefix, doc: Document): Names {
    Names(prefix, Keys(doc.defs))
  }

  predicate DistinctKeys(doc: Document) {
    forall j, k :: 0 <= j < k < |doc.defs| ==> doc.defs[j].key != doc.defs[k].key
  }

  // ---------- the declarations of one document ----------

  function DefDecls(prefix: Prefix, doc: Document, k: nat): (r: Result<seq<Declaration>, Fault>)
    requires k <= |doc.defs|
    ensures r.Success? ==> |r.value| == k
  {
    if k == 0 then Success([])
    else
      match DefDecls(prefix, doc, k - 1)
      case Failure(fault) => Failure(fault)
      case Success(before) =>
        match Render(NamesFor(prefix, doc), doc.defs[k - 1].schema)
        case Failure(fault) => Failure(fault)
        case Success(ty) => Success(before + [Declaration(DefOf(prefix, k - 1), ty)])
  }

  function DocumentDecls(prefix: Prefix, doc: Document): Result<seq<Declaration>, Fault> {
    match DefDecls(prefix, doc, |doc.defs|)
    case Failure(fault) => Failure(fault)
    case Success(before) =>
      match Render(NamesFor(prefix, doc), doc.body)
      case Failure(fault) => Failure(fault)
      case Success(ty) => Success(before + [Declaration(Whole(prefix), ty)])
  }

  method EmitDocument(prefix: Prefix, doc: Document) returns (r: Result<seq<Declaration>, Fault>)
    ensures r == DocumentDecls(prefix, doc)
  {
    var names := NamesFor(prefix, doc);
    var declarations := [];
    for k := 0 to |doc.defs|
      invariant DefDecls(prefix, doc, k) == Success(declarations)
      invariant forall fault ::
                  DefDecls(prefix, doc, k) == Failure(fault) ==> DocumentDecls(prefix, doc) == Failure(fault)
    {
      var ty := Render(names, doc.defs[k].schema);
      if ty.Failure? {
        DefFailureStays(prefix, doc, k + 1, |doc.defs|);
        return Failure(ty.error);
      }
      declarations := declarations + [Declaration(DefOf(prefix, k), ty.value)];
    }
    var ty := Render(names, doc.body);
    if ty.Failure? {
      return Failure(ty.error);
    }
    return Success(declarations + [Declaration(Whole(prefix), ty.value)]);
  }

  lemma {:induction false} DefFailureStays(prefix: Prefix, doc: Document, j: nat, k: nat)
    requires j <= k <= |doc.defs| && DefDecls(prefix, doc, j).Failure?
    ensures DefDecls(prefix, doc, k) == DefDecls(prefix, doc, j)
    decreases k - j
  {
    if j < k {
      DefFailureStays(prefix, doc, j, k - 1);
    }
  }

  lemma {:induction false} DefDeclAt(prefix: Prefix, doc: Document, k: nat, j: nat)
    requires j < k <= |doc.defs| && DefDecls(prefix, doc, k).Success?
    ensures Render(NamesFor(prefix, doc), doc.defs[j].schema).Success?
    ensures DefDecls(prefix, doc, k).value[j] ==
            Declaration(DefOf(prefix, j), Render(NamesFor(prefix, doc), doc.defs[j].schema).value)
  {
    if j < k - 1 {
      DefDeclAt(prefix, doc, k - 1, j);
    }
  }

  ghost predicate OwnNames(decls: seq<Declaration>, prefix: Prefix) {
    forall k :: 0 <= k < |decls| ==> decls[k].name == if k < |decls| - 1 then DefOf(prefix, k) else Whole(prefix)
  }

  lemma {:induction false} DocumentNames(prefix: Prefix, doc: Document)
    requires DocumentDecls(prefix, doc).Success?
    ensures |DocumentDecls(prefix, doc).value| == |doc.defs| + 1
    ensures OwnNames(DocumentDecls(prefix, doc).value, prefix)
  {
    forall k | 0 <= k < |doc.defs|
      ensures DocumentDecls(prefix, doc).value[k].name == DefOf(prefix, k)
    {
      DefDeclAt(prefix, doc, |doc.defs|, k);
    }
  }

  // ---------- the whole program ----------

  function And(a: Result<seq<Declaration>, Fault>, b: Result<seq<Declaration>, Fault>)
    : Result<seq<Declaration>, Fault>
  {
    if a.Failure? then a else if b.Failure? then b else Success(a.value + b.value)
  }

  predicate NameTaken(ops: seq<Operation>, k: nat)
    requires k < |ops|
  {
    exists j :: 0 <= j < k && ops[j].name == ops[k].name
  }

  /** What one operation contributes: whether its name is taken, and its two documents. */
  datatype Part = Part(taken: bool, input: Result<seq<Declaration>, Fault>, output: Result<seq<Declaration>, Fault>)

  function Parts(ops: seq<Operation>): (parts: seq<Part>)
    ensures |parts| == |ops|
    ensures forall k :: 0 <= k < |ops| ==>
              parts[k] == Part(NameTaken(ops, k),
                               DocumentDecls(Input(k), ops[k].input), DocumentDecls(Output(k), ops[k].output))
  {
    seq(|ops|, k requires 0 <= k < |ops| =>
      Part(NameTaken(ops, k), DocumentDecls(Input(k), ops[k].input), DocumentDecls(Output(k), ops[k].output)))
  }

  function Step(before: Result<seq<Declaration>, Fault>, part: Part): Result<seq<Declaration>, Fault> {
    if before.Failure? then before
    else if part.taken then Failure(DuplicateOperation)
    else And(And(before, part.input), part.output)
  }

  function Chain(parts: seq<Part>, k: nat): Result<seq<Declaration>, Fault>
    requires k <= |parts|
  {
    if k == 0 then Success([]) else Step(Chain(parts, k - 1), parts[k - 1])
  }

  function Together(parts: seq<Part>, errors: Result<seq<Declaration>, Fault>, files: Result<seq<Declaration>, Fault>):
    Result<seq<Declaration>, Fault>
  {
    And(And(Chain(parts, |parts|), errors), files)
  }

  function AllDecls(policy: Policy): Result<seq<Declaration>, Fault> {
    Together(Parts(policy.operations),
             DocumentDecls(ExecutionError, policy.errors), DocumentDecls(FileResult, policy.files))
  }

  function Table(ops: seq<Operation>, input: bool, k: nat): (table: seq<(string, TypeName)>)
    requires k <= |ops|
    ensures |table| == k
    ensures forall j :: 0 <= j < k ==> table[j] == (ops[j].name, Whole(if input then Input(j) else Output(j)))
  {
    if k == 0 then []
    else Table(ops, input, k - 1) + [(ops[k - 1].name, Whole(if input then Input(k - 1) else Output(k - 1)))]
  }

  lemma {:induction false} FailureStays(parts: seq<Part>, j: nat, k: nat)
    requires j <= k <= |parts| && Chain(parts, j).Failure?
    ensures Chain(parts, k) == Chain(parts, j)
    decreases k - j
  {
    if j < k {
      FailureStays(parts, j, k - 1);
    }
  }

  ghost predicate Seen(ops: seq<Operation>, k: nat, seen: set<string>)
    requires k <= |ops|
  {
    forall name :: name in seen <==> exists j :: 0 <= j < k && ops[j].name == name
  }

  lemma {:induction false} SeenOneMore(ops: seq<Operation>, k: nat, seen: set<string>)
    requires k < |ops| && Seen(ops, k, seen)
    ensures NameTaken(ops, k) <==> ops[k].name in seen
    ensures Seen(ops, k + 1, seen + {ops[k].name})
  {
    forall name
      ensures name in seen + {ops[k].name} <==> exists j :: 0 <= j < k + 1 && ops[j].name == name
    {
      if name == ops[k].name {
        assert ops[k].name == name;
      }
    }
  }

  /** How the chain goes on past part `k`. */
  lemma {:induction false} ChainGoesOn(parts: seq<Part>, k: nat, declarations: seq<Declaration>)
    requires k < |parts| && Chain(parts, k) == Success(declarations)
    ensures match Step(Success([]), parts[k])
            case Failure(fault) => Chain(parts, |parts|) == Failure(fault)
            case Success(more) => Chain(parts, k + 1) == Success(declarations + more)
  {
    if Chain(parts, k + 1).Failure? {
      FailureStays(parts, k + 1, |parts|);
    } else {
      var input, output := parts[k].input.value, parts[k].output.value;
      assert declarations + (([] + input) + output) == (declarations + input) + output;
    }
  }

  /** The two documents of one operation. */
  method EmitOperation(ops: seq<Operation>, k: nat, taken: bool) returns (r: Result<seq<Declaration>, Fault>)
    requires k < |ops| && taken == NameTaken(ops, k)
    ensures r == Step(Success([]), Parts(ops)[k])
  {
    if taken {
      return Failure(DuplicateOperation);
    }
    var input := EmitDocument(Input(k), ops[k].input);
    if input.Failure? {
      return input;
    }
    var output := EmitDocument(Output(k), ops[k].output);
    if output.Failure? {
      return output;
    }
    assert [] + input.value == input.value;
    return Success(input.value + output.value);
  }

  /** What the loop over the operations has built of the first `k`, and the names it has seen. */
  ghost predicate Emitted(ops: seq<Operation>, k: nat, program: Program, seen: set<string>)
    requires k <= |ops|
  {
    && Chain(Parts(ops), k) == Success(program.declarations)
    && program.inputs == Table(ops, true, k) && program.outputs == Table(ops, false, k)
    && Seen(ops, k, seen)
  }

  function Extended(program: Program, name: string, k: nat, more: seq<Declaration>): Program {
    Program(program.declarations + more,
            program.inputs + [(name, Whole(Input(k)))], program.outputs + [(name, Whole(Output(k)))])
  }

  lemma {:induction false} EmitOneMore(ops: seq<Operation>, k: nat, program: Program, seen: set<string>)
    requires k < |ops| && Emitted(ops, k, program, seen)
    ensures NameTaken(ops, k) <==> ops[k].name in seen
    ensures match Step(Success([]), Parts(ops)[k])
            case Failure(fault) => Chain(Parts(ops), |ops|) == Failure(fault)
            case Success(more) =>
              Emitted(ops, k + 1, Extended(program, ops[k].name, k, more), seen + {ops[k].name})
  {
    ChainGoesOn(Parts(ops), k, program.declarations);
    SeenOneMore(ops, k, seen);
  }

  /** The loop over the operations, with the names it has seen. */
  method EmitOperations(ops: seq<Operation>) returns (r: Result<Program, Fault>)
    ensures match Chain(Parts(ops), |ops|)
            case Failure(fault) => r == Failure(fault)
            case Success(declarations) =>
              r == Success(Program(declarations, Table(ops, true, |ops|), Table(ops, false, |ops|)))
  {
    var declarations, inputs, outputs := [], [], [];
    var seen := {};
    for k := 0 to |ops|
      invariant Emitted(ops, k, Program(declarations, inputs, outputs), seen)
    {
      var name := ops[k].name;
      EmitOneMore(ops, k, Program(declarations, inputs, outputs), seen);
      var more := EmitOperation(ops, k, name in seen);
      if more.Failure? {
        return Failure(more.error);
      }
      seen := seen + {name};
      declarations := declarations + more.value;
      inputs := inputs + [(name, Whole(Input(k)))];
      outputs := outputs + [(name, Whole(Output(k)))];
    }
    return Success(Program(declarations, inputs, outputs));
  }

  method Generate(policy: Policy) returns (r: Result<Program, Fault>)
    ensures match AllDecls(policy)
            case Failure(fault) => r == Failure(fault)
            case Success(declarations) =>
              r == Success(Program(declarations,
                                   Table(policy.operations, true, |policy.operations|),
                                   Table(policy.operations, false, |policy.operations|)))
  {
    var program := EmitOperations(policy.operations);
    if program.Failure? {
      return program;
    }
    var errors := EmitDocument(ExecutionError, policy.errors);
    if errors.Failure? {
      return Failure(errors.error);
    }
    var files := EmitDocument(FileResult, policy.files);
    if files.Failure? {
      return Failure(files.error);
    }
    return Success(program.value.(declarations := program.value.declarations + errors.value + files.value));
  }

  // ---------- no identifier is declared twice ----------

  ghost predicate DistinctNames(decls: seq<Declaration>) {
    forall j, k :: 0 <= j < k < |decls| ==> decls[j].name != decls[k].name
  }

  /** The document belongs to one of the first `k` operations. */
  predicate OfEarlier(prefix: Prefix, k: nat) {
    (prefix.Input? || prefix.Output?) && prefix.operation < k
  }

  lemma {:induction false} AppendNames(decls: seq<Declaration>, prefix: Prefix, more: seq<Declaration>)
    requires DistinctNames(decls) && OwnNames(more, prefix)
    requires forall n :: 0 <= n < |decls| ==> decls[n].name.prefix != prefix
    ensures DistinctNames(decls + more)
  {
  }

  ghost predicate NamesOfEarlier(decls: seq<Declaration>, k: nat) {
    DistinctNames(decls) && forall n :: 0 <= n < |decls| ==> OfEarlier(decls[n].name.prefix, k)
  }

  lemma {:induction false} NamesOneMore(decls: seq<Declaration>, input: seq<Declaration>,
                                        output: seq<Declaration>, k: nat)
    requires NamesOfEarlier(decls, k) && OwnNames(input, Input(k)) && OwnNames(output, Output(k))
    ensures NamesOfEarlier(decls + input + output, k + 1)
  {
    AppendNames(decls, Input(k), input);
    AppendNames(decls + input, Output(k), output);
  }

  ghost predicate OwnParts(parts: seq<Part>) {
    forall k :: 0 <= k < |parts| ==>
      && (parts[k].input.Success? ==> OwnNames(parts[k].input.value, Input(k)))
      && (parts[k].output.Success? ==> OwnNames(parts[k].output.value, Output(k)))
  }

  lemma {:induction false} PartsAreOwn(ops: seq<Operation>)
    ensures OwnParts(Parts(ops))
  {
    var parts := Parts(ops);
    forall k | 0 <= k < |parts|
      ensures parts[k].input.Success? ==> OwnNames(parts[k].input.value, Input(k))
      ensures parts[k].output.Success? ==> OwnNames(parts[k].output.value, Output(k))
    {
      if parts[k].input.Success? { DocumentNames(Input(k), ops[k].input); }
      if parts[k].output.Success? { DocumentNames(Output(k), ops[k].output); }
    }
  }

  lemma {:induction false} ChainNames(parts: seq<Part>, k: nat)
    requires k <= |parts| && OwnParts(parts) && Chain(parts, k).Success?
    ensures NamesOfEarlier(Chain(parts, k).value, k)
  {
    if k > 0 {
      ChainNames(parts, k - 1);
      NamesOneMore(Chain(parts, k - 1).value, parts[k - 1].input.value, parts[k - 1].output.value, k - 1);
    }
  }

  lemma {:induction false} TogetherNames(parts: seq<Part>, errors: seq<Declaration>, files: seq<Declaration>)
    requires OwnParts(parts) && OwnNames(errors, ExecutionError) && OwnNames(files, FileResult)
    requires Chain(parts, |parts|).Success?
    ensures DistinctNames(Chain(parts, |parts|).value + errors + files)
  {
    var before := Chain(parts, |parts|).value;
    ChainNames(parts, |parts|);
    AppendNames(before, ExecutionError, errors);
    AppendNames(before + errors, FileResult, files);
  }

  lemma {:induction false} NoNameIsTaken(ops: seq<Operation>)
    requires Chain(Parts(ops), |ops|).Success?
    ensures forall j, k :: 0 <= j < k < |ops| ==> ops[j].name != ops[k].name
  {
    forall k | 0 <= k < |ops|
      ensures !NameTaken(ops, k)
    {
      ChainIncludes(Parts(ops), |ops|, k);
    }
  }

  /** A generated program declares every name once, and names every operation once in each table. */
  lemma {:induction false} GeneratedNamesAreUnique(policy: Policy)
    requires AllDecls(policy).Success?
    ensures DistinctNames(AllDecls(policy).value)
    ensures forall j, k :: 0 <= j < k < |policy.operations| ==> policy.operations[j].name != policy.operations[k].name
  {
    PartsAreOwn(policy.operations);
    DocumentNames(ExecutionError, policy.errors);
    DocumentNames(FileResult, policy.files);
    TogetherNames(Parts(policy.operations), DocumentDecls(ExecutionError, policy.errors).value,
                  DocumentDecls(FileResult, policy.files).value);
    NoNameIsTaken(policy.operations);
  }

  ghost predicate Includes(decls: seq<Declaration>, part: seq<Declaration>) {
    forall d :: d in part ==> d in decls
  }

  lemma {:induction false} ChainIncludes(parts: seq<Part>, k: nat, j: nat)
    requires j < k <= |parts| && Chain(parts, k).Success?
    ensures !parts[j].taken && parts[j].input.Success? && parts[j].output.Success?
    ensures Includes(Chain(parts, k).value, parts[j].input.value)
    ensures Includes(Chain(parts, k).value, parts[j].output.value)
  {
    if j < k - 1 {
      ChainIncludes(parts, k - 1, j);
    }
  }

  // ---------- when generation succeeds ----------

  predicate PartOk(part: Part) {
    !part.taken && part.input.Success? && part.output.Success?
  }

  lemma {:induction false} ChainSucceedsIff(parts: seq<Part>, k: nat)
    requires k <= |parts|
    ensures Chain(parts, k).Success? <==> forall j :: 0 <= j < k ==> PartOk(parts[j])
  {
    if k > 0 {
      ChainSucceedsIff(parts, k - 1);
    }
  }

  ghost predicate NamesDiffer(ops: seq<Operation>) {
    forall j, k :: 0 <= j < k < |ops| ==> ops[j].name != ops[k].name
  }

  lemma {:induction false} NoneTakenIff(ops: seq<Operation>)
    ensures NamesDiffer(ops) <==> forall k: nat :: k < |ops| ==> !NameTaken(ops, k)
  {
    if !NamesDiffer(ops) {
      var j, k :| 0 <= j < k < |ops| && ops[j].name == ops[k].name;
      assert NameTaken(ops, k);
    }
  }

  ghost predicate OperationRenders(ops: seq<Operation>, k: nat)
    requires k < |ops|
  {
    DocumentDecls(Input(k), ops[k].input).Success? && DocumentDecls(Output(k), ops[k].output).Success?
  }

  /** A policy has a program exactly when its operations have different names and each of its
      documents can be rendered; nothing else makes generation fail. */
  lemma {:induction false} GenerationSucceedsIff(policy: Policy)
    ensures AllDecls(policy).Success? <==>
            && NamesDiffer(policy.operations)
            && (forall k: nat :: k < |policy.operations| ==> OperationRenders(policy.operations, k))
            && DocumentDecls(ExecutionError, policy.errors).Success?
            && DocumentDecls(FileResult, policy.files).Success?
  {
    var ops := policy.operations;
    ChainSucceedsIff(Parts(ops), |ops|);
    NoneTakenIff(ops);
    forall k: nat | k < |ops|
      ensures PartOk(Parts(ops)[k]) <==> !NameTaken(ops, k) && OperationRenders(ops, k)
    {
    }
  }

  /** The first operation whose name is taken or whose document cannot be rendered fails the whole
      program with its own fault. */
  lemma {:induction false} FirstFaultIsReported(policy: Policy, k: nat)
    requires k < |policy.operations| && !PartOk(Parts(policy.operations)[k])
    requires forall j :: 0 <= j < k ==> PartOk(Parts(policy.operations)[j])
    ensures
      var part := Parts(policy.operations)[k];
      AllDecls(policy) ==
      if part.taken then Failure(DuplicateOperation) else if part.input.Failure? then part.input else part.output
  {
    ChainSucceedsIff(Parts(policy.operations), k);
    ChainGoesOn(Parts(policy.operations), k, Chain(Parts(policy.operations), k).value);
  }

  // ---------- every name mentioned is declared ----------

  ghost predicate MentionsOnly(t: Ts, names: Names) {
    match t
    case UnionOfTypes(members) => forall k :: 0 <= k < |members| ==> MentionsOnly(members[k], names)
    case Intersection(members) => forall k :: 0 <= k < |members| ==> MentionsOnly(members[k], names)
    case Named(name) => name.DefOf? && name.prefix == names.prefix && name.index < |names.keys|
    case Object(fields, index) =>
      && (forall k :: 0 <= k < |fields| ==> MentionsOnly(fields[k].ty, names))
      && (index.Some? ==> MentionsOnly(index.value, names))
    case ArrayOf(element) => MentionsOnly(element, names)
    case _ => true
  }

  lemma {:induction false} UnionMentions(names: Names, s: Schema)
    requires s.Node? && FirstUnion(s).Some? && Render(names, s).Success?
    ensures MentionsOnly(Render(names, s).value, names)
    decreases Size(s), 0
  {
    var kind := FirstUnion(s).value;
    var members := RenderBranches(names, s, kind, 0).value;
    forall k | 0 <= k < |members|
      ensures MentionsOnly(members[k], names)
    {
      BranchAt(names, s, kind, 0, k);
      MergedIsSmaller(s, kind, k);
      RenderMentions(names, Merge(Siblings(s, kind), UnionOf(s, kind).list[k]));
    }
    assert Render(names, s).value == Combine(kind, members);
  }

  lemma {:induction false} WordsMention(names: Names, s: Schema)
    requires s.Node? && s.kind.Some? && s.kind.value.Words? && RenderWords(names, s, s.kind.value.words).Success?
    ensures MentionsOnly(UnionOfTypes(RenderWords(names, s, s.kind.value.words).value), names)
    decreases Size(s), 0
  {
    var members := RenderWords(names, s, s.kind.value.words).value;
    forall k | 0 <= k < |members|
      ensures MentionsOnly(members[k], names)
    {
      WordAt(names, s, s.kind.value.words, k);
      WordSmaller(s.kind.value.words, k);
      RenderMentions(names, s.(kind := Some(s.kind.value.words[k])));
    }
  }

  lemma {:induction false} ObjectMentions(names: Names, s: Schema)
    requires s.Node? && IsObjectNode(s) && RenderObject(names, s).Success?
    ensures MentionsOnly(RenderObject(names, s).value, names)
    decreases Size(s), 0
  {
    var fields := RenderFields(names, s.required, PropertyList(s)).value;
    forall k | 0 <= k < |fields|
      ensures MentionsOnly(fields[k].ty, names)
    {
      FieldAt(names, s.required, PropertyList(s), k);
      PropertySmaller(PropertyList(s), k);
      RenderMentions(names, PropertyList(s)[k].schema);
    }
    if s.additional.Some? && s.additional.value != Truth(false) {
      assert OptionSize(s.additional) == 1 + Size(s.additional.value);
      RenderMentions(names, s.additional.value);
    }
  }

  /** Rendering names nothing but definitions of the document itself. */
  lemma {:induction false} RenderMentions(names: Names, s: Schema)
    requires Render(names, s).Success?
    ensures MentionsOnly(Render(names, s).value, names)
    decreases Size(s), 1
  {
    if s.Node? {
      if FirstUnion(s).Some? {
        UnionMentions(names, s);
      } else if s.reference.Some? || s.constant.Some? || s.choices.Some? {
      } else if s.kind.Some? && s.kind.value.Words? {
        WordsMention(names, s);
      } else if IsObjectNode(s) {
        ObjectMentions(names, s);
      } else if s.kind == Some(Word("array")) && s.items.Some? {
        assert OptionSize(s.items) == 1 + Size(s.items.value);
        RenderMentions(names, s.items.value);
      }
    }
  }

  ghost predicate Declared(decls: seq<Declaration>, name: TypeName) {
    exists k :: 0 <= k < |decls| && decls[k].name == name
  }

  /** Whatever a document's types mention is declared with that document. */
  lemma {:induction false} MentionedNamesAreDeclared(prefix: Prefix, doc: Document, j: nat, index: nat)
    requires DocumentDecls(prefix, doc).Success? && j < |DocumentDecls(prefix, doc).value|
    ensures MentionsOnly(DocumentDecls(prefix, doc).value[j].ty, NamesFor(prefix, doc))
    ensures index < |NamesFor(prefix, doc).keys| ==> Declared(DocumentDecls(prefix, doc).value, DefOf(prefix, index))
  {
    if j < |doc.defs| {
      DefDeclAt(prefix, doc, |doc.defs|, j);
      RenderMentions(NamesFor(prefix, doc), doc.defs[j].schema);
    } else {
      RenderMentions(NamesFor(prefix, doc), doc.body);
    }
    if index < |doc.defs| {
      DefDeclAt(prefix, doc, |doc.defs|, index);
      assert DocumentDecls(prefix, doc).value[index].name == DefOf(prefix, index);
    }
  }

  // ---------- the generated types are sound ----------

  function Environment(decls: seq<Declaration>): map<TypeName, Ts> {
    if decls == [] then map[]
    else Environment(decls[..|decls| - 1])[decls[|decls| - 1].name := decls[|decls| - 1].ty]
  }

  lemma {:induction false} EnvironmentAt(decls: seq<Declaration>, k: nat)
    requires DistinctNames(decls) && k < |decls|
    ensures decls[k].name in Environment(decls) && Environment(decls)[decls[k].name] == decls[k].ty
  {
    if k < |decls| - 1 {
      EnvironmentAt(decls[..|decls| - 1], k);
    }
  }

  ghost predicate TameDocument(doc: Document) {
    DistinctKeys(doc) && Tame(doc.body) && forall k :: 0 <= k < |doc.defs| ==> Tame(doc.defs[k].schema)
  }

  lemma {:induction false} DocumentIsSound(decls: seq<Declaration>, prefix: Prefix, doc: Document, judge: Judge,
                                           fuel: nat, v: Json)
    requires DistinctNames(decls) && DocumentDecls(prefix, doc).Success? && TameDocument(doc)
    requires Includes(decls, DocumentDecls(prefix, doc).value)
    requires Valid(fuel, doc, judge, doc.body, v)
    ensures Inhabits(fuel + 1, Environment(decls), Named(Whole(prefix)), v)
  {
    var env, names := Environment(decls), NamesFor(prefix, doc);
    forall d | d in DocumentDecls(prefix, doc).value
      ensures d.name in env && env[d.name] == d.ty
    {
      var k :| 0 <= k < |decls| && decls[k] == d;
      EnvironmentAt(decls, k);
    }
    forall k | 0 <= k < |doc.defs|
      ensures DefOf(prefix, k) in env && Render(names, doc.defs[k].schema) == Success(env[DefOf(prefix, k)])
    {
      DefDeclAt(prefix, doc, |doc.defs|, k);
      assert DocumentDecls(prefix, doc).value[k] in DocumentDecls(prefix, doc).value;
    }
    assert DocumentDecls(prefix, doc).value[|doc.defs|] in DocumentDecls(prefix, doc).value;
    Sound(Context(env, names, doc, judge), fuel, doc.body, v);
  }

  /** The documents of a program, each with the prefix of its names. */
  ghost predicate Generates(policy: Policy, prefix: Prefix, doc: Document) {
    match prefix
    case Input(j) => j < |policy.operations| && doc == policy.operations[j].input
    case Output(j) => j < |policy.operations| && doc == policy.operations[j].output
    case ExecutionError => doc == policy.errors
    case FileResult => doc == policy.files
  }

  lemma {:induction false} GeneratedDocumentIsIncluded(policy: Policy, prefix: Prefix, doc: Document)
    requires AllDecls(policy).Success? && Generates(policy, prefix, doc)
    ensures DocumentDecls(prefix, doc).Success? && Includes(AllDecls(policy).value, DocumentDecls(prefix, doc).value)
  {
    var ops := policy.operations;
    match prefix
    case Input(j) => ChainIncludes(Parts(ops), |ops|, j);
    case Output(j) => ChainIncludes(Parts(ops), |ops|, j);
    case _ =>
  }

  /** In a generated program every value that is valid for an operation's input or output schema
      inhabits the type its table gives that operation, and likewise for the two shared documents. */
  lemma {:induction false} GeneratedTypesAreSound(policy: Policy, prefix: Prefix, doc: Document,
                                                  judge: Judge, fuel: nat, v: Json)
    requires AllDecls(policy).Success? && Generates(policy, prefix, doc) && TameDocument(doc)
    requires Valid(fuel, doc, judge, doc.body, v)
    ensures Inhabits(fuel + 1, Environment(AllDecls(policy).value), Named(Whole(prefix)), v)
    ensures prefix.Input? ==>
              Table(policy.operations, true, |policy.operations|)[prefix.operation] ==
              (policy.operations[prefix.operation].name, Whole(prefix))
    ensures prefix.Output? ==>
              Table(policy.operations, false, |policy.operations|)[prefix.operation] ==
              (policy.operations[prefix.operation].name, Whole(prefix))
  {
    GeneratedNamesAreUnique(policy);
    GeneratedDocumentIsIncluded(policy, prefix, doc);
    DocumentIsSound(AllDecls(policy).value, prefix, doc, judge, fuel, v);
  }
}
