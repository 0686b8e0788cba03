/** Types, what they admit, and the rendering of one schema node as a type. */
module TypeCompiler {
  import opened Wrappers
  import opened JsonValues
  import opened SchemaModel
  import opened Fragments
  import JsonPointer

  /** Which document a generated name belongs to. */
  datatype Prefix = Input(operation: nat) | Output(operation: nat) | ExecutionError | FileResult

  datatype TypeName = Whole(prefix: Prefix) | DefOf(prefix: Prefix, index: nat)

  datatype Field = Field(key: string, optional: bool, ty: Ts)

  datatype Ts =
    | Unknown
    | Never
    | UnionOfTypes(members: seq<Ts>)
    | Intersection(members: seq<Ts>)
    | Named(name: TypeName)
    | Literal(value: Json)
    | Object(fields: seq<Field>, index: Option<Ts>)
    | ArrayOf(element: Ts)
    | NumberType
    | StringType
    | BooleanType
    | NullType

  datatype Fault =
    | UnsupportedConstruct | AmbiguousSiblings | EmptyUnion | ReferenceSiblings | NonLocalReference
    | UnknownDefinition | NonScalarConstant | NonScalarEnum | RequiredWithoutSchema
    | UnsupportedType | UntypedConstraints | DuplicateOperation

  // ---------- the types' own meaning; an index signature covers undeclared keys only ----------

  predicate HasField(fields: seq<Field>, key: string) {
    exists k :: 0 <= k < |fields| && fields[k].key == key
  }

  ghost predicate Inhabits(fuel: nat, env: map<TypeName, Ts>, t: Ts, v: Json)
    decreases fuel, t
  {
    match t
    case Unknown => true
    case Never => false
    case UnionOfTypes(members) => exists k :: 0 <= k < |members| && Inhabits(fuel, env, members[k], v)
    case Intersection(members) => forall k :: 0 <= k < |members| ==> Inhabits(fuel, env, members[k], v)
    case Named(name) => name in env && 0 < fuel && Inhabits(fuel - 1, env, env[name], v)
    case Literal(value) => v == value
    case Object(fields, index) =>
      && v.Obj?
      && (forall k :: 0 <= k < |fields| ==>
            if fields[k].key in v.fields
            then Inhabits(fuel, env, fields[k].ty, v.fields[fields[k].key])
            else fields[k].optional)
      && (index.Some? ==>
            forall key :: key in v.fields && !HasField(fields, key) ==> Inhabits(fuel, env, index.value, v.fields[key]))
    case ArrayOf(element) => v.Arr? && forall k :: 0 <= k < |v.items| ==> Inhabits(fuel, env, element, v.items[k])
    case NumberType => v.Num?
    case StringType => v.Str?
    case BooleanType => v.Bool?
    case NullType => v.Null?
  }

  // ---------- rendering ----------

  predicate OnlyReference(s: Schema)
    requires s.Node?
  {
    s.kind.None? && s.properties.NoProperties? && s.required.None? && s.additional.None? && s.items.None?
    && s.constant.None? && s.choices.None?
  }

  predicate RequiredDeclared(s: Schema)
    requires s.Node?
  {
    s.required.Some? ==> forall key :: key in s.required.value ==> DeclaredKey(s.properties, key)
  }

  function PropertyList(s: Schema): seq<Property>
    requires s.Node?
  {
    if s.properties.Properties? then s.properties.list else []
  }

  predicate IsObjectNode(s: Schema)
    requires s.Node?
  {
    s.kind == Some(Word("object")) || s.properties.Properties?
  }

  /** A word that is rendered by itself, once objects are out of the way. */
  function RenderWord(names: Names, s: Schema): Result<Ts, Fault>
    requires s.Node? && !IsObjectNode(s)
    decreases Size(s), 0
  {
    match s.kind
    case Some(Word("array")) =>
      (match s.items
       case None => Success(ArrayOf(Unknown))
       case Some(items) =>
         assert OptionSize(s.items) == 1 + Size(items);
         match Render(names, items)
         case Success(element) => Success(ArrayOf(element))
         case Failure(fault) => Failure(fault))
    case Some(Word(word)) =>
      if word == "integer" || word == "number" then Success(NumberType)
      else if word == "string" then Success(StringType)
      else if word == "boolean" then Success(BooleanType)
      else if word == "null" then Success(NullType)
      else Failure(UnsupportedType)
    case Some(OtherWord) => Failure(UnsupportedType)
    case Some(NullWord) => Failure(UntypedConstraints)
    case _ =>
      if s.required.Some? || s.additional.Some? || s.items.Some? then Failure(UntypedConstraints)
      else Success(Unknown)
  }

  /** The names a document's definitions get, by position. */
  datatype Names = Names(prefix: Prefix, keys: seq<string>)

  function NameOf(names: Names, key: string): Option<TypeName> {
    if key in names.keys then
      var k := FirstIndex(names.keys, key);
      Some(DefOf(names.prefix, k))
    else None
  }

  function FirstIndex(keys: seq<string>, key: string): (k: nat)
    requires key in keys
    ensures k < |keys| && keys[k] == key
  {
    if keys[0] == key then 0 else FirstIndex(keys[1..], key) + 1
  }

  /** What follows `#/$defs/`, unescaped as if it were one token. */
  function LocalKey(reference: Reference): Option<string> {
    if reference.Text? && LOCAL <= reference.text
    then Some(JsonPointer.Decode(reference.text[|LOCAL|..])) else None
  }

  function RenderReference(names: Names, reference: Reference): Result<Ts, Fault> {
    match LocalKey(reference)
    case None => Failure(NonLocalReference)
    case Some(key) =>
      match NameOf(names, key)
      case None => Failure(UnknownDefinition)
      case Some(name) => Success(Named(name))
  }

  function RenderFields(names: Names, required: Option<seq<string>>, list: seq<Property>)
    : (r: Result<seq<Field>, Fault>)
    ensures r.Success? ==> |r.value| == |list|
    decreases PropertiesSize(list), 0
  {
    if list == [] then Success([])
    else
      match Render(names, list[0].schema)
      case Failure(fault) => Failure(fault)
      case Success(ty) =>
        match RenderFields(names, required, list[1..])
        case Failure(fault) => Failure(fault)
        case Success(rest) =>
          Success([Field(list[0].key, !(required.Some? && list[0].key in required.value), ty)] + rest)
  }

  function RenderObject(names: Names, s: Schema): Result<Ts, Fault>
    requires s.Node? && IsObjectNode(s)
    decreases Size(s), 0
  {
    if !RequiredDeclared(s) then Failure(RequiredWithoutSchema)
    else
      match RenderFields(names, s.required, PropertyList(s))
      case Failure(fault) => Failure(fault)
      case Success(fields) =>
        match s.additional
        case None => Success(Object(fields, Some(Unknown)))
        case Some(extra) =>
          if extra == Truth(false) then Success(Object(fields, None))
          else
            assert OptionSize(s.additional) == 1 + Size(extra);
            match Render(names, extra)
            case Failure(fault) => Failure(fault)
            case Success(index) => Success(Object(fields, Some(index)))
  }

  function RenderBranches(names: Names, s: Schema, kind: UnionKind, k: nat): (r: Result<seq<Ts>, Fault>)
    requires s.Node? && UnionOf(s, kind).Branches? && k <= |UnionOf(s, kind).list|
    ensures r.Success? ==> |r.value| == |UnionOf(s, kind).list| - k
    decreases Size(s), 0, |UnionOf(s, kind).list| - k
  {
    var list := UnionOf(s, kind).list;
    if k == |list| then Success([])
    else if !list[k].Node? || !Compatible(Siblings(s, kind), list[k]) then Failure(AmbiguousSiblings)
    else
      MergedIsSmaller(s, kind, k);
      match Render(names, Merge(Siblings(s, kind), list[k]))
      case Failure(fault) => Failure(fault)
      case Success(ty) =>
        match RenderBranches(names, s, kind, k + 1)
        case Failure(fault) => Failure(fault)
        case Success(rest) => Success([ty] + rest)
  }

  function RenderWords(names: Names, s: Schema, words: seq<TypeWord>): (r: Result<seq<Ts>, Fault>)
    requires s.Node? && s.kind.Some? && s.kind.value.Words? && WordsSize(words) <= WordsSize(s.kind.value.words)
    ensures r.Success? ==> |r.value| == |words|
    decreases Size(s), 0, |words|
  {
    if words == [] then Success([])
    else
      match Render(names, s.(kind := Some(words[0])))
      case Failure(fault) => Failure(fault)
      case Success(ty) =>
        match RenderWords(names, s, words[1..])
        case Failure(fault) => Failure(fault)
        case Success(rest) => Success([ty] + rest)
  }

  function AllScalar(values: seq<Json>): bool {
    forall v :: v in values ==> v.Scalar()
  }

  function Literals(values: seq<Json>): (types: seq<Ts>)
    ensures |types| == |values| && forall k :: 0 <= k < |values| ==> types[k] == Literal(values[k])
  {
    if values == [] then [] else [Literal(values[0])] + Literals(values[1..])
  }

  function Combine(kind: UnionKind, members: seq<Ts>): Ts {
    if kind.AllOf? then Intersection(members) else UnionOfTypes(members)
  }

  function Render(names: Names, s: Schema): Result<Ts, Fault>
    decreases Size(s), 1
  {
    match s
    case Truth(value) => Success(if value then Unknown else Never)
    case NotSchema => Failure(UnsupportedConstruct)
    case Node(_, _, _, _, _, reference, _, _, _, constant, choices, _, unknown) =>
      if unknown != {} then Failure(UnsupportedConstruct)
      else if FirstUnion(s).Some? then
        var kind := FirstUnion(s).value;
        match RenderBranches(names, s, kind, 0)
        case Failure(fault) => Failure(fault)
        case Success(members) => if members == [] then Failure(EmptyUnion) else Success(Combine(kind, members))
      else if reference.Some? then
        if !OnlyReference(s) then Failure(ReferenceSiblings) else RenderReference(names, reference.value)
      else if constant.Some? then
        if !constant.value.Scalar() then Failure(NonScalarConstant) else Success(Literal(constant.value))
      else if choices.Some? then
        if !AllScalar(choices.value) then Failure(NonScalarEnum) else Success(UnionOfTypes(Literals(choices.value)))
      else if s.kind.Some? && s.kind.value.Words? then
        match RenderWords(names, s, s.kind.value.words)
        case Failure(fault) => Failure(fault)
        case Success(members) => Success(UnionOfTypes(members))
      else if IsObjectNode(s) then RenderObject(names, s)
      else RenderWord(names, s)
  }
}
