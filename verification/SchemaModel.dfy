/** JSON Schema nodes as the exporter writes them, and which values they admit
    (JSON Schema Core 2020-12 sections 8.2.3.1, 10.2.1 and 10.3.2; Validation sections 6.1 and 6.5.3). */
module SchemaModel {
  import opened Wrappers
  import opened JsonValues
  import opened TextTools
  import Fragments

  /** The value of `type`: a word, a list, the JSON null, or something else. */
  datatype TypeWord = Word(word: string) | Words(words: seq<TypeWord>) | NullWord | OtherWord

  datatype Reference = Text(text: string) | NotText

  datatype Property = Property(key: string, schema: Schema)

  datatype Properties = NoProperties | Properties(list: seq<Property>)

  datatype Union = NoUnion | Branches(list: seq<Schema>)

  /** `notes` holds the annotation keywords, bounds and formats included; `unknown` any others. */
  datatype Schema =
    | Truth(value: bool)
    | NotSchema
    | Node(
        kind: Option<TypeWord>,
        properties: Properties,
        required: Option<seq<string>>,
        additional: Option<Schema>,
        items: Option<Schema>,
        reference: Option<Reference>,
        anyOf: Union,
        oneOf: Union,
        allOf: Union,
        constant: Option<Json>,
        choices: Option<seq<Json>>,
        notes: map<string, Json>,
        unknown: set<string>)

  const EMPTY := Node(None, NoProperties, None, None, None, None, NoUnion, NoUnion, NoUnion, None, None, map[], {})

  datatype Definition = Definition(key: string, schema: Schema)

  /** An exported schema with its definitions, whose keys are distinct. */
  datatype Document = Document(defs: seq<Definition>, body: Schema)

  /** How annotation keywords judge a value; each keyword on its own. */
  type Judge = (string, Json, Json) -> bool

  function Find(defs: seq<Definition>, key: string): (found: Option<nat>)
    ensures found.Some? ==> found.value < |defs| && defs[found.value].key == key
    ensures found.None? ==> forall k :: 0 <= k < |defs| ==> defs[k].key != key
  {
    if defs == [] then None
    else if defs[|defs| - 1].key == key then Some(|defs| - 1)
    else Find(defs[..|defs| - 1], key)
  }

  // ---------- what a reference refers to (RFC 6901, sections 4 and 6) ----------

  /** The position a token names in a list: digits without a leading zero. */
  function Position(token: string): Option<nat> {
    if token == "" || (token[0] == '0' && 1 < |token|) then None else Digits(token)
  }

  function Digits(token: string): Option<nat> {
    if token == "" then Some(0)
    else
      var last := token[|token| - 1];
      match Digits(token[..|token| - 1])
      case None => None
      case Some(n) => if IsDigit(last) then Some(n * 10 + (last as int - '0' as int)) else None
  }

  function PropertyNamed(properties: Properties, key: string): Option<Schema> {
    if properties.Properties? && exists k :: 0 <= k < |properties.list| && properties.list[k].key == key
    then Some(FirstNamed(properties.list, key)) else None
  }

  function FirstNamed(list: seq<Property>, key: string): Schema
    requires exists k :: 0 <= k < |list| && list[k].key == key
  {
    if list[0].key == key then list[0].schema
    else
      assert exists k :: 0 <= k < |list[1..]| && list[1..][k].key == key by {
        var k :| 0 <= k < |list| && list[k].key == key;
        assert list[1..][k - 1] == list[k];
      }
      FirstNamed(list[1..], key)
  }

  function BranchNamed(union: Union, token: string): Option<Schema> {
    match Position(token)
    case None => None
    case Some(k) => if union.Branches? && k < |union.list| then Some(union.list[k]) else None
  }

  function OneStep(s: Schema, keyword: string): Option<Schema>
    requires s.Node?
  {
    if keyword == "items" then s.items else if keyword == "additionalProperties" then s.additional else None
  }

  function TwoSteps(s: Schema, keyword: string, token: string): Option<Schema>
    requires s.Node?
  {
    if keyword == "properties" then PropertyNamed(s.properties, token)
    else if keyword == "anyOf" then BranchNamed(s.anyOf, token)
    else if keyword == "oneOf" then BranchNamed(s.oneOf, token)
    else if keyword == "allOf" then BranchNamed(s.allOf, token)
    else None
  }

  /** The schema that the keys select inside a schema, if they lead to one. */
  function Inside(s: Schema, path: seq<string>): Option<Schema>
    decreases |path|
  {
    if path == [] then Some(s)
    else if !s.Node? then None
    else
      match OneStep(s, path[0])
      case Some(child) => Inside(child, path[1..])
      case None =>
        if |path| < 2 then None
        else
          match TwoSteps(s, path[0], path[1])
          case Some(child) => Inside(child, path[2..])
          case None => None
  }

  /** Keys that lead from a schema to a schema in some document. */
  predicate SchemaPath(path: seq<string>)
    decreases |path|
  {
    path == []
    || (path[0] in ["items", "additionalProperties"] && SchemaPath(path[1..]))
    || (2 <= |path| && SchemaPath(path[2..])
        && (path[0] == "properties" || (path[0] in ["anyOf", "oneOf", "allOf"] && Position(path[1]).Some?)))
  }

  lemma {:induction false} InsideIsSchemaPath(s: Schema, path: seq<string>)
    ensures Inside(s, path).Some? ==> SchemaPath(path)
    decreases |path|
  {
    if path != [] && s.Node? {
      if OneStep(s, path[0]).Some? {
        InsideIsSchemaPath(OneStep(s, path[0]).value, path[1..]);
      } else if 2 <= |path| && TwoSteps(s, path[0], path[1]).Some? {
        InsideIsSchemaPath(TwoSteps(s, path[0], path[1]).value, path[2..]);
      }
    }
  }

  /** The schema a reference within the document refers to. */
  function Target(root: Document, reference: Reference): Option<Schema> {
    match reference
    case NotText => None
    case Text(text) =>
      match Fragments.Pointer(text)
      case None => None
      case Some(keys) =>
        if keys == [] || keys[0] != "$defs" then Inside(root.body, keys)
        else if |keys| < 2 then None
        else
          match Find(root.defs, keys[1])
          case None => None
          case Some(k) => Inside(root.defs[k].schema, keys[2..])
  }

  predicate AdmitsWord(word: TypeWord, v: Json) {
    match word
    case Word(name) =>
      || (name == "object" && v.Obj?) || (name == "array" && v.Arr?) || (name == "string" && v.Str?)
      || (name == "boolean" && v.Bool?) || (name == "null" && v.Null?) || (name == "number" && v.Num?)
      || (name == "integer" && v.Num? && v.number.Floor as real == v.number)
    case Words(words) => exists k :: 0 <= k < |words| && AdmitsWord(words[k], v)
    case _ => false
  }

  predicate DeclaredKey(properties: Properties, key: string) {
    properties.Properties? && exists k :: 0 <= k < |properties.list| && properties.list[k].key == key
  }

  predicate NotesOk(judge: Judge, notes: map<string, Json>, v: Json) {
    forall key :: key in notes ==> judge(key, notes[key], v)
  }

  // ---------- validity, keyword by keyword; `fuel` bounds the references followed ----------

  ghost predicate Valid(fuel: nat, root: Document, judge: Judge, s: Schema, v: Json)
    decreases fuel, s, 1
  {
    match s
    case Truth(value) => value
    case NotSchema => false
    case Node(kind, properties, required, additional, items, reference, anyOf, oneOf, allOf,
              constant, choices, notes, _) =>
      && NotesOk(judge, notes, v)
      && (kind.Some? ==> AdmitsWord(kind.value, v))
      && (constant.Some? ==> v == constant.value)
      && (choices.Some? ==> v in choices.value)
      && ReferenceOk(fuel, root, judge, reference, v)
      && AnyOk(fuel, root, judge, anyOf, v)
      && OneOk(fuel, root, judge, oneOf, v)
      && AllOk(fuel, root, judge, allOf, v)
      && PropertiesOk(fuel, root, judge, properties, v)
      && (required.Some? && v.Obj? ==> forall key :: key in required.value ==> key in v.fields)
      && AdditionalOk(fuel, root, judge, properties, additional, v)
      && ItemsOk(fuel, root, judge, items, v)
  }

  ghost predicate ReferenceOk(fuel: nat, root: Document, judge: Judge, reference: Option<Reference>, v: Json)
    decreases fuel, reference, 0
  {
    reference.Some? ==>
      && Target(root, reference.value).Some?
      && 0 < fuel
      && Valid(fuel - 1, root, judge, Target(root, reference.value).value, v)
  }

  ghost predicate AnyOk(fuel: nat, root: Document, judge: Judge, branches: Union, v: Json)
    decreases fuel, branches, 0
  {
    branches.Branches? ==> exists k :: 0 <= k < |branches.list| && Valid(fuel, root, judge, branches.list[k], v)
  }

  ghost predicate OneOk(fuel: nat, root: Document, judge: Judge, branches: Union, v: Json)
    decreases fuel, branches, 0
  {
    branches.Branches? ==>
      exists k :: 0 <= k < |branches.list| && Valid(fuel, root, judge, branches.list[k], v) &&
        forall j :: 0 <= j < |branches.list| && j != k ==> !Valid(fuel, root, judge, branches.list[j], v)
  }

  ghost predicate AllOk(fuel: nat, root: Document, judge: Judge, branches: Union, v: Json)
    decreases fuel, branches, 0
  {
    branches.Branches? ==> forall k :: 0 <= k < |branches.list| ==> Valid(fuel, root, judge, branches.list[k], v)
  }

  ghost predicate PropertiesOk(fuel: nat, root: Document, judge: Judge, properties: Properties, v: Json)
    decreases fuel, properties, 0
  {
    properties.Properties? && v.Obj? ==>
      forall k :: 0 <= k < |properties.list| && properties.list[k].key in v.fields ==>
        Valid(fuel, root, judge, properties.list[k].schema, v.fields[properties.list[k].key])
  }

  ghost predicate AdditionalOk(fuel: nat, root: Document, judge: Judge,
                               properties: Properties, additional: Option<Schema>, v: Json)
    decreases fuel, additional, 0
  {
    additional.Some? && v.Obj? ==>
      forall key :: key in v.fields && !DeclaredKey(properties, key) ==>
        Valid(fuel, root, judge, additional.value, v.fields[key])
  }

  ghost predicate ItemsOk(fuel: nat, root: Document, judge: Judge, items: Option<Schema>, v: Json)
    decreases fuel, items, 0
  {
    items.Some? && v.Arr? ==>
      forall k :: 0 <= k < |v.items| ==> Valid(fuel, root, judge, items.value, v.items[k])
  }

  // ---------- size ----------

  function WordSize(word: TypeWord): (n: nat)
    decreases word
  {
    match word
    case Words(words) => 1 + WordsSize(words)
    case _ => 0
  }

  function WordsSize(words: seq<TypeWord>): nat
    decreases words
  {
    if words == [] then 0 else 1 + WordSize(words[0]) + WordsSize(words[1..])
  }

  function OptionSize(s: Option<Schema>): nat
    decreases s, 0
  {
    if s.None? then 0 else 1 + Size(s.value)
  }

  function ListSize(ss: seq<Schema>): nat
    decreases ss, 0
  {
    if ss == [] then 0 else 1 + Size(ss[0]) + ListSize(ss[1..])
  }

  function UnionSize(union: Union): nat
    decreases union, 0
  {
    if union.NoUnion? then 0 else 1 + ListSize(union.list)
  }

  function PropertiesSize(ps: seq<Property>): nat
    decreases ps, 0
  {
    if ps == [] then 0 else 1 + Size(ps[0].schema) + PropertiesSize(ps[1..])
  }

  function KindSize(kind: Option<TypeWord>): nat {
    if kind.Some? then WordSize(kind.value) else 0
  }

  function Size(s: Schema): nat
    decreases s, 1
  {
    match s
    case Node(kind, properties, _, additional, items, _, anyOf, oneOf, allOf, _, _, _, _) =>
      1 + KindSize(kind)
      + (if properties.Properties? then PropertiesSize(properties.list) else 0)
      + OptionSize(additional) + OptionSize(items)
      + UnionSize(anyOf) + UnionSize(oneOf) + UnionSize(allOf)
    case _ => 0
  }

  lemma {:induction false} ListElementSmaller(ss: seq<Schema>, k: nat)
    requires k < |ss|
    ensures Size(ss[k]) < ListSize(ss)
  {
    if k > 0 {
      ListElementSmaller(ss[1..], k - 1);
    }
  }

  lemma {:induction false} PropertySmaller(ps: seq<Property>, k: nat)
    requires k < |ps|
    ensures Size(ps[k].schema) < PropertiesSize(ps)
  {
    if k > 0 {
      PropertySmaller(ps[1..], k - 1);
    }
  }

  lemma {:induction false} WordSmaller(words: seq<TypeWord>, k: nat)
    requires k < |words|
    ensures WordSize(words[k]) < WordsSize(words)
  {
    if k > 0 {
      WordSmaller(words[1..], k - 1);
    }
  }

  // ---------- union nodes and their siblings ----------

  datatype UnionKind = AnyOf | OneOf | AllOf

  function FirstUnion(s: Schema): Option<UnionKind>
    requires s.Node?
  {
    if s.anyOf.Branches? then Some(AnyOf) else if s.oneOf.Branches? then Some(OneOf)
    else if s.allOf.Branches? then Some(AllOf) else None
  }

  function UnionOf(s: Schema, kind: UnionKind): Union
    requires s.Node?
  {
    match kind
    case AnyOf => s.anyOf
    case OneOf => s.oneOf
    case AllOf => s.allOf
  }

  function Siblings(s: Schema, kind: UnionKind): (r: Schema)
    requires s.Node?
    ensures r.Node?
  {
    match kind
    case AnyOf => s.(anyOf := NoUnion)
    case OneOf => s.(oneOf := NoUnion)
    case AllOf => s.(allOf := NoUnion)
  }

  predicate Agree<T(==)>(a: Option<T>, b: Option<T>) {
    a.Some? && b.Some? ==> a == b
  }

  predicate SameUnion(a: Union, b: Union) {
    a.Branches? && b.Branches? ==> a == b
  }

  /** No keyword that constrains values is given twice with different contents. */
  predicate Compatible(a: Schema, b: Schema)
    requires a.Node? && b.Node?
  {
    && Agree(a.kind, b.kind) && Agree(a.required, b.required)
    && (a.properties.Properties? && b.properties.Properties? ==> a.properties == b.properties)
    && Agree(a.additional, b.additional) && Agree(a.items, b.items) && Agree(a.reference, b.reference)
    && SameUnion(a.anyOf, b.anyOf) && SameUnion(a.oneOf, b.oneOf) && SameUnion(a.allOf, b.allOf)
    && Agree(a.constant, b.constant) && Agree(a.choices, b.choices)
  }

  function OrProperties(a: Properties, b: Properties): Properties {
    if b.Properties? then b else a
  }

  function Or<T>(a: Option<T>, b: Option<T>): Option<T> {
    if b.Some? then b else a
  }

  function OrUnion(a: Union, b: Union): Union {
    if b.Branches? then b else a
  }

  /** One node with the keywords of both, the second one's winning. */
  function Merge(a: Schema, b: Schema): (r: Schema)
    requires a.Node? && b.Node?
    ensures r.Node?
  {
    Node(Or(a.kind, b.kind), OrProperties(a.properties, b.properties), Or(a.required, b.required),
         Or(a.additional, b.additional), Or(a.items, b.items), Or(a.reference, b.reference),
         OrUnion(a.anyOf, b.anyOf), OrUnion(a.oneOf, b.oneOf), OrUnion(a.allOf, b.allOf),
         Or(a.constant, b.constant), Or(a.choices, b.choices), a.notes + b.notes, a.unknown + b.unknown)
  }

  function DeclaredSize(properties: Properties): nat {
    if properties.Properties? then PropertiesSize(properties.list) else 0
  }

  lemma {:induction false} OrSizes(a: Schema, b: Schema)
    requires a.Node? && b.Node?
    ensures KindSize(Or(a.kind, b.kind)) <= KindSize(a.kind) + KindSize(b.kind)
    ensures DeclaredSize(OrProperties(a.properties, b.properties))
         <= DeclaredSize(a.properties) + DeclaredSize(b.properties)
    ensures OptionSize(Or(a.additional, b.additional)) <= OptionSize(a.additional) + OptionSize(b.additional)
    ensures OptionSize(Or(a.items, b.items)) <= OptionSize(a.items) + OptionSize(b.items)
  {
  }

  lemma {:induction false} OrUnionSize(a: Union, b: Union)
    ensures UnionSize(OrUnion(a, b)) <= UnionSize(a) + UnionSize(b)
  {
  }

  lemma {:induction false} MergeSize(a: Schema, b: Schema)
    requires a.Node? && b.Node?
    ensures Size(Merge(a, b)) < Size(a) + Size(b)
  {
    OrSizes(a, b);
    OrUnionSize(a.anyOf, b.anyOf);
    OrUnionSize(a.oneOf, b.oneOf);
    OrUnionSize(a.allOf, b.allOf);
  }

  lemma {:induction false} SiblingsSize(s: Schema, kind: UnionKind)
    requires s.Node?
    ensures Size(Siblings(s, kind)) + UnionSize(UnionOf(s, kind)) == Size(s)
  {
  }

  /** A branch merged with its siblings is strictly smaller than the node it came from. */
  lemma {:induction false} MergedIsSmaller(s: Schema, kind: UnionKind, k: nat)
    requires s.Node? && UnionOf(s, kind).Branches? && k < |UnionOf(s, kind).list| && UnionOf(s, kind).list[k].Node?
    ensures Size(Merge(Siblings(s, kind), UnionOf(s, kind).list[k])) < Size(s)
  {
    MergeSize(Siblings(s, kind), UnionOf(s, kind).list[k]);
    SiblingsSize(s, kind);
    ListElementSmaller(UnionOf(s, kind).list, k);
  }

  /** A value that meets two compatible nodes meets their merge: declaring more keys only takes keys
      away from what `additionalProperties` judges. */
  lemma {:induction false} MergeKeepsValidity(fuel: nat, root: Document, judge: Judge, a: Schema, b: Schema, v: Json)
    requires a.Node? && b.Node? && Compatible(a, b)
    requires Valid(fuel, root, judge, a, v) && Valid(fuel, root, judge, b, v)
    ensures Valid(fuel, root, judge, Merge(a, b), v)
  {
    var m := Merge(a, b);
    assert AdditionalOk(fuel, root, judge, m.properties, m.additional, v) by {
      if m.additional.Some? && v.Obj? {
        forall key | key in v.fields && !DeclaredKey(m.properties, key)
          ensures Valid(fuel, root, judge, m.additional.value, v.fields[key])
        {
          assert !DeclaredKey(a.properties, key) && !DeclaredKey(b.properties, key);
        }
      }
    }
  }

  lemma {:induction false} SiblingsKeepValidity(fuel: nat, root: Document, judge: Judge, s: Schema,
                                                kind: UnionKind, v: Json)
    requires s.Node? && Valid(fuel, root, judge, s, v)
    ensures Valid(fuel, root, judge, Siblings(s, kind), v)
  {
  }
}
