/** Every value a schema admits inhabits the type rendered for it. */
module TypeSoundness {
  import opened Wrappers
  import opened JsonValues
  import JsonPointer
  import opened Fragments
  import opened SchemaModel
  import opened TypeCompiler

  datatype Context = Context(env: map<TypeName, Ts>, names: Names, root: Document, judge: Judge)

  /** The environment gives every definition of the document its rendered type. */
  ghost predicate Declares(env: map<TypeName, Ts>, names: Names, defs: seq<Definition>) {
    && |names.keys| == |defs|
    && (forall k :: 0 <= k < |defs| ==> names.keys[k] == defs[k].key)
    && (forall j, k :: 0 <= j < k < |defs| ==> defs[j].key != defs[k].key)
    && (forall k :: 0 <= k < |defs| ==>
          DefOf(names.prefix, k) in env && Render(names, defs[k].schema) == Success(env[DefOf(names.prefix, k)]))
  }

  /** The words that admit some value other than an object. */
  predicate AdmitsNonObject(word: TypeWord) {
    match word
    case Word(name) => name in ["array", "string", "boolean", "null", "number", "integer"]
    case Words(words) => exists k :: 0 <= k < |words| && AdmitsNonObject(words[k])
    case _ => false
  }

  predicate RulesOutNonObjects(kind: Option<TypeWord>) {
    kind.Some? && !AdmitsNonObject(kind.value)
  }

  /** What follows `#/$defs/` names a schema in some document, as a pointer does. */
  predicate LeadsToSchema(token: string) {
    match Pointer(LOCAL + token)
    case None => false
    case Some(keys) => 2 <= |keys| && SchemaPath(keys[2..])
  }

  /** A reference into the definitions is a single escaped token without percent signs, unless it
      leads to no schema whatever the document. */
  predicate SafelyRead(reference: Reference) {
    reference.Text? && LOCAL <= reference.text ==>
      PlainToken(reference.text[|LOCAL|..]) || !LeadsToSchema(reference.text[|LOCAL|..])
  }

  /** Every node rendered as an object because it has `properties` also has a type that rules out
      everything else, and every reference is safely read. The nodes looked at are the ones the
      renderer reaches, merges and split type lists included. */
  ghost predicate Tame(s: Schema)
    decreases Size(s)
  {
    s.Node? ==>
      if FirstUnion(s).Some? then
        var kind := FirstUnion(s).value;
        forall k :: 0 <= k < |UnionOf(s, kind).list| && UnionOf(s, kind).list[k].Node? ==>
          (MergedIsSmaller(s, kind, k); Tame(Merge(Siblings(s, kind), UnionOf(s, kind).list[k])))
      else if s.reference.Some? then SafelyRead(s.reference.value)
      else if s.constant.Some? || s.choices.Some? then true
      else if s.kind.Some? && s.kind.value.Words? then
        forall k :: 0 <= k < |s.kind.value.words| ==>
          (WordSmaller(s.kind.value.words, k); Tame(s.(kind := Some(s.kind.value.words[k]))))
      else if IsObjectNode(s) then
        && (s.properties.Properties? ==> RulesOutNonObjects(s.kind))
        && (forall k :: 0 <= k < |PropertyList(s)| ==>
              (PropertySmaller(PropertyList(s), k); Tame(PropertyList(s)[k].schema)))
        && (s.additional.Some? ==>
              (assert OptionSize(s.additional) == 1 + Size(s.additional.value); Tame(s.additional.value)))
      else
        s.items.Some? ==> (assert OptionSize(s.items) == 1 + Size(s.items.value); Tame(s.items.value))
  }

  ghost predicate Good(c: Context) {
    && Declares(c.env, c.names, c.root.defs)
    && forall k :: 0 <= k < |c.root.defs| ==> Tame(c.root.defs[k].schema)
  }

  ghost predicate Admitted(c: Context, fuel: nat, s: Schema, v: Json) {
    Valid(fuel, c.root, c.judge, s, v)
  }

  ghost predicate Typed(c: Context, fuel: nat, s: Schema, v: Json)
    requires Render(c.names, s).Success?
  {
    Inhabits(fuel, c.env, Render(c.names, s).value, v)
  }

  // ---------- what the list renderers return, element by element ----------

  lemma {:induction false} BranchAt(names: Names, s: Schema, kind: UnionKind, j: nat, k: nat)
    requires s.Node? && UnionOf(s, kind).Branches? && j <= k < |UnionOf(s, kind).list|
    requires RenderBranches(names, s, kind, j).Success?
    ensures UnionOf(s, kind).list[k].Node? && Compatible(Siblings(s, kind), UnionOf(s, kind).list[k])
    ensures Render(names, Merge(Siblings(s, kind), UnionOf(s, kind).list[k])) ==
            Success(RenderBranches(names, s, kind, j).value[k - j])
    decreases k - j
  {
    if j < k {
      BranchAt(names, s, kind, j + 1, k);
    }
  }

  lemma {:induction false} WordAt(names: Names, s: Schema, words: seq<TypeWord>, k: nat)
    requires s.Node? && s.kind.Some? && s.kind.value.Words? && WordsSize(words) <= WordsSize(s.kind.value.words)
    requires k < |words| && RenderWords(names, s, words).Success?
    ensures Render(names, s.(kind := Some(words[k]))) == Success(RenderWords(names, s, words).value[k])
    decreases k
  {
    if k > 0 {
      WordAt(names, s, words[1..], k - 1);
    }
  }

  lemma {:induction false} FieldAt(names: Names, required: Option<seq<string>>, list: seq<Property>, k: nat)
    requires k < |list| && RenderFields(names, required, list).Success?
    ensures Render(names, list[k].schema).Success?
    ensures RenderFields(names, required, list).value[k] ==
            Field(list[k].key, !(required.Some? && list[k].key in required.value), Render(names, list[k].schema).value)
    decreases k
  {
    if k > 0 {
      FieldAt(names, required, list[1..], k - 1);
    }
  }

  lemma {:induction false} FindAgrees(names: Names, defs: seq<Definition>, key: string)
    requires |names.keys| == |defs|
    requires forall k :: 0 <= k < |defs| ==> names.keys[k] == defs[k].key
    requires forall j, k :: 0 <= j < k < |defs| ==> defs[j].key != defs[k].key
    ensures Find(defs, key).Some? <==> key in names.keys
    ensures key in names.keys ==> Find(defs, key) == Some(FirstIndex(names.keys, key))
  {
    if key in names.keys {
      var k := FirstIndex(names.keys, key);
      assert defs[k].key == key;
      assert Find(defs, key).value == k;
    }
  }

  // ---------- soundness, case by case ----------

  /** What a valid value makes true of the branches of a union. */
  ghost predicate BranchesAdmit(c: Context, fuel: nat, kind: UnionKind, list: seq<Schema>, v: Json) {
    if kind.AllOf? then forall k :: 0 <= k < |list| ==> Admitted(c, fuel, list[k], v)
    else exists k :: 0 <= k < |list| && Admitted(c, fuel, list[k], v)
  }

  lemma {:induction false} ValidUnionAdmits(c: Context, fuel: nat, s: Schema, kind: UnionKind, v: Json)
    requires s.Node? && UnionOf(s, kind).Branches? && Admitted(c, fuel, s, v)
    ensures BranchesAdmit(c, fuel, kind, UnionOf(s, kind).list, v)
  {
    assert AnyOk(fuel, c.root, c.judge, s.anyOf, v) && OneOk(fuel, c.root, c.judge, s.oneOf, v);
    assert AllOk(fuel, c.root, c.judge, s.allOf, v);
  }

  lemma {:induction false} CombinedAdmits(c: Context, fuel: nat, kind: UnionKind, list: seq<Schema>,
                                          members: seq<Ts>, v: Json)
    requires |members| == |list| && BranchesAdmit(c, fuel, kind, list, v)
    requires forall k :: 0 <= k < |list| && Admitted(c, fuel, list[k], v) ==> Inhabits(fuel, c.env, members[k], v)
    ensures Inhabits(fuel, c.env, Combine(kind, members), v)
  {
  }

  lemma {:induction false} SoundUnion(c: Context, fuel: nat, s: Schema, v: Json)
    requires Good(c) && s.Node? && Tame(s) && FirstUnion(s).Some?
    requires Render(c.names, s).Success? && Admitted(c, fuel, s, v)
    ensures Typed(c, fuel, s, v)
    decreases fuel, Size(s), 1
  {
    var kind := FirstUnion(s).value;
    var list := UnionOf(s, kind).list;
    var members := RenderBranches(c.names, s, kind, 0).value;
    forall k | 0 <= k < |list| && Admitted(c, fuel, list[k], v)
      ensures Inhabits(fuel, c.env, members[k], v)
    {
      SoundBranch(c, fuel, s, kind, k, v);
    }
    ValidUnionAdmits(c, fuel, s, kind, v);
    CombinedAdmits(c, fuel, kind, list, members, v);
  }

  lemma {:induction false} SoundBranch(c: Context, fuel: nat, s: Schema, kind: UnionKind, k: nat, v: Json)
    requires Good(c) && s.Node? && Tame(s) && FirstUnion(s) == Some(kind) && k < |UnionOf(s, kind).list|
    requires RenderBranches(c.names, s, kind, 0).Success?
    requires Admitted(c, fuel, s, v) && Admitted(c, fuel, UnionOf(s, kind).list[k], v)
    ensures Inhabits(fuel, c.env, RenderBranches(c.names, s, kind, 0).value[k], v)
    decreases fuel, Size(s), 0
  {
    var branch := UnionOf(s, kind).list[k];
    BranchAt(c.names, s, kind, 0, k);
    MergedIsSmaller(s, kind, k);
    SiblingsKeepValidity(fuel, c.root, c.judge, s, kind, v);
    MergeKeepsValidity(fuel, c.root, c.judge, Siblings(s, kind), branch, v);
    Sound(c, fuel, Merge(Siblings(s, kind), branch), v);
  }

  /** A plain token refers to the definition of the key the renderer makes of it. */
  lemma {:induction false} PlainTarget(root: Document, token: string)
    requires PlainToken(token)
    ensures Target(root, Text(LOCAL + token)) ==
            match Find(root.defs, JsonPointer.Decode(token))
            case Some(k) => Some(root.defs[k].schema)
            case None => None
  {
    PlainTokenIsRead(token);
    var keys := ["$defs", JsonPointer.Decode(token)];
    assert keys[2..] == [];
  }

  lemma {:induction false} UnsafeTargetsAreNowhere(root: Document, token: string)
    requires !PlainToken(token) && !LeadsToSchema(token)
    ensures Target(root, Text(LOCAL + token)).None?
  {
    if Pointer(LOCAL + token).Some? {
      OtherTokensAreMisread(token);
      var keys := Pointer(LOCAL + token).value;
      match Find(root.defs, keys[1])
      case Some(k) => InsideIsSchemaPath(root.defs[k].schema, keys[2..]);
      case None =>
    }
  }

  /** If a safely read reference refers to anything, it is to the definition the renderer looks up. */
  lemma {:induction false} SafeTarget(root: Document, reference: Reference) returns (k: nat)
    requires SafelyRead(reference) && LocalKey(reference).Some? && Target(root, reference).Some?
    ensures k < |root.defs| && Find(root.defs, LocalKey(reference).value) == Some(k)
    ensures Target(root, reference).value == root.defs[k].schema
  {
    var token := reference.text[|LOCAL|..];
    assert reference.text == LOCAL + token;
    if !PlainToken(token) {
      UnsafeTargetsAreNowhere(root, token);
    }
    PlainTarget(root, token);
    k := Find(root.defs, LocalKey(reference).value).value;
  }

  /** A reference that renders names the definition looked up. */
  lemma {:induction false} RenderedReference(c: Context, reference: Reference, k: nat)
    requires Good(c) && RenderReference(c.names, reference).Success?
    requires LocalKey(reference).Some? && Find(c.root.defs, LocalKey(reference).value) == Some(k)
    ensures RenderReference(c.names, reference) == Success(Named(DefOf(c.names.prefix, k)))
  {
    FindAgrees(c.names, c.root.defs, LocalKey(reference).value);
  }

  lemma {:induction false} AdmittedByTarget(c: Context, fuel: nat, s: Schema, v: Json)
    requires s.Node? && s.reference.Some? && Admitted(c, fuel, s, v)
    ensures Target(c.root, s.reference.value).Some? && 0 < fuel
    ensures Admitted(c, fuel - 1, Target(c.root, s.reference.value).value, v)
  {
    assert ReferenceOk(fuel, c.root, c.judge, s.reference, v);
  }

  lemma {:induction false} AdmittedByDefinition(c: Context, fuel: nat, s: Schema, v: Json) returns (k: nat)
    requires s.Node? && s.reference.Some? && SafelyRead(s.reference.value) && LocalKey(s.reference.value).Some?
    requires Admitted(c, fuel, s, v)
    ensures k < |c.root.defs| && Find(c.root.defs, LocalKey(s.reference.value).value) == Some(k)
    ensures 0 < fuel && Admitted(c, fuel - 1, c.root.defs[k].schema, v)
  {
    AdmittedByTarget(c, fuel, s, v);
    k := SafeTarget(c.root, s.reference.value);
  }

  lemma {:induction false} SoundDefinition(c: Context, fuel: nat, k: nat, v: Json)
    requires Good(c) && k < |c.root.defs| && Admitted(c, fuel, c.root.defs[k].schema, v)
    ensures DefOf(c.names.prefix, k) in c.env && Inhabits(fuel + 1, c.env, Named(DefOf(c.names.prefix, k)), v)
    decreases fuel, Size(c.root.defs[k].schema), 3
  {
    Sound(c, fuel, c.root.defs[k].schema, v);
  }

  lemma {:induction false} SoundReference(c: Context, fuel: nat, s: Schema, v: Json)
    requires Good(c) && s.Node? && s.reference.Some? && SafelyRead(s.reference.value)
    requires RenderReference(c.names, s.reference.value).Success? && Admitted(c, fuel, s, v)
    ensures Inhabits(fuel, c.env, RenderReference(c.names, s.reference.value).value, v)
    decreases fuel, Size(s), 0
  {
    var k := AdmittedByDefinition(c, fuel, s, v);
    RenderedReference(c, s.reference.value, k);
    SoundDefinition(c, fuel - 1, k, v);
  }

  lemma {:induction false} SoundWords(c: Context, fuel: nat, s: Schema, v: Json)
    requires Good(c) && s.Node? && Tame(s) && FirstUnion(s).None?
    requires s.reference.None? && s.constant.None? && s.choices.None? && s.kind.Some? && s.kind.value.Words?
    requires Render(c.names, s).Success? && Admitted(c, fuel, s, v)
    ensures Typed(c, fuel, s, v)
    decreases fuel, Size(s), 0
  {
    var words := s.kind.value.words;
    var k :| 0 <= k < |words| && AdmitsWord(words[k], v);
    WordAt(c.names, s, words, k);
    WordSmaller(words, k);
    Sound(c, fuel, s.(kind := Some(words[k])), v);
    assert Inhabits(fuel, c.env, RenderWords(c.names, s, words).value[k], v);
  }

  lemma {:induction false} SoundObject(c: Context, fuel: nat, s: Schema, v: Json)
    requires Good(c) && s.Node? && FirstUnion(s).None? && IsObjectNode(s) && v.Obj?
    requires forall k :: 0 <= k < |PropertyList(s)| ==> Tame(PropertyList(s)[k].schema)
    requires s.additional.Some? ==> Tame(s.additional.value)
    requires RenderObject(c.names, s).Success? && Admitted(c, fuel, s, v)
    ensures Inhabits(fuel, c.env, RenderObject(c.names, s).value, v)
    decreases fuel, Size(s), 0
  {
    var list := PropertyList(s);
    var ty := RenderObject(c.names, s).value;
    var fields := ty.fields;
    assert PropertiesOk(fuel, c.root, c.judge, s.properties, v);
    assert AdditionalOk(fuel, c.root, c.judge, s.properties, s.additional, v);
    forall k | 0 <= k < |fields|
      ensures if fields[k].key in v.fields
              then Inhabits(fuel, c.env, fields[k].ty, v.fields[fields[k].key]) else fields[k].optional
      ensures fields[k].key == list[k].key
    {
      FieldAt(c.names, s.required, list, k);
      PropertySmaller(list, k);
      if list[k].key in v.fields {
        Sound(c, fuel, list[k].schema, v.fields[list[k].key]);
      }
    }
    if s.additional.Some? && ty.index.Some? {
      assert OptionSize(s.additional) == 1 + Size(s.additional.value);
      forall key | key in v.fields && !HasField(fields, key)
        ensures Inhabits(fuel, c.env, ty.index.value, v.fields[key])
      {
        UndeclaredIsNoField(s, fields, key);
        Sound(c, fuel, s.additional.value, v.fields[key]);
      }
    }
  }

  lemma {:induction false} UndeclaredIsNoField(s: Schema, fields: seq<Field>, key: string)
    requires s.Node? && |fields| == |PropertyList(s)| && !HasField(fields, key)
    requires forall k :: 0 <= k < |fields| ==> fields[k].key == PropertyList(s)[k].key
    ensures !DeclaredKey(s.properties, key)
  {
  }

  lemma {:induction false} SoundWord(c: Context, fuel: nat, s: Schema, v: Json)
    requires Good(c) && s.Node? && !IsObjectNode(s) && (s.items.Some? ==> Tame(s.items.value))
    requires RenderWord(c.names, s).Success? && Admitted(c, fuel, s, v)
    ensures Inhabits(fuel, c.env, RenderWord(c.names, s).value, v)
    decreases fuel, Size(s), 0
  {
    if s.kind == Some(Word("array")) && s.items.Some? {
      assert OptionSize(s.items) == 1 + Size(s.items.value);
      assert ItemsOk(fuel, c.root, c.judge, s.items, v);
      forall k | 0 <= k < |v.items|
        ensures Inhabits(fuel, c.env, Render(c.names, s.items.value).value, v.items[k])
      {
        Sound(c, fuel, s.items.value, v.items[k]);
      }
    }
  }

  /** Type soundness: whenever rendering succeeds on a tame node of a document whose definitions are
      declared, every value the node admits inhabits the rendered type, however many references
      either side follows. */
  lemma {:induction false} Sound(c: Context, fuel: nat, s: Schema, v: Json)
    requires Good(c) && Tame(s) && Render(c.names, s).Success? && Admitted(c, fuel, s, v)
    ensures Typed(c, fuel, s, v)
    decreases fuel, Size(s), 2
  {
    if s.Node? {
      if FirstUnion(s).Some? {
        SoundUnion(c, fuel, s, v);
      } else if s.reference.Some? {
        SoundReference(c, fuel, s, v);
      } else if s.constant.Some? {
      } else if s.choices.Some? {
        var k :| 0 <= k < |s.choices.value| && s.choices.value[k] == v;
        assert Inhabits(fuel, c.env, Literals(s.choices.value)[k], v);
      } else if s.kind.Some? && s.kind.value.Words? {
        SoundWords(c, fuel, s, v);
      } else if IsObjectNode(s) {
        if s.properties.Properties? {
          AdmittedIsObject(s.kind.value, v);
        }
        SoundObject(c, fuel, s, v);
      } else {
        SoundWord(c, fuel, s, v);
      }
    }
  }

  // ---------- following more references only helps ----------

  lemma {:induction false} InhabitsMore(fuel: nat, more: nat, env: map<TypeName, Ts>, t: Ts, v: Json)
    requires fuel <= more && Inhabits(fuel, env, t, v)
    ensures Inhabits(more, env, t, v)
    decreases fuel, t
  {
    match t
    case UnionOfTypes(members) =>
      var k :| 0 <= k < |members| && Inhabits(fuel, env, members[k], v);
      InhabitsMore(fuel, more, env, members[k], v);
    case Intersection(members) =>
      forall k | 0 <= k < |members| ensures Inhabits(more, env, members[k], v) {
        InhabitsMore(fuel, more, env, members[k], v);
      }
    case Named(name) => InhabitsMore(fuel - 1, more - 1, env, env[name], v);
    case Object(fields, index) =>
      forall k | 0 <= k < |fields| && fields[k].key in v.fields
        ensures Inhabits(more, env, fields[k].ty, v.fields[fields[k].key]) {
        InhabitsMore(fuel, more, env, fields[k].ty, v.fields[fields[k].key]);
      }
      if index.Some? {
        forall key | key in v.fields && !HasField(fields, key)
          ensures Inhabits(more, env, index.value, v.fields[key]) {
          InhabitsMore(fuel, more, env, index.value, v.fields[key]);
        }
      }
    case ArrayOf(element) =>
      forall k | 0 <= k < |v.items| ensures Inhabits(more, env, element, v.items[k]) {
        InhabitsMore(fuel, more, env, element, v.items[k]);
      }
    case _ =>
  }

  // ---------- the precondition is needed ----------

  lemma {:induction false} AdmittedIsObject(word: TypeWord, v: Json)
    requires !AdmitsNonObject(word) && AdmitsWord(word, v)
    ensures v.Obj?
  {
    if word.Words? {
      var k :| 0 <= k < |word.words| && AdmitsWord(word.words[k], v);
      AdmittedIsObject(word.words[k], v);
    }
  }

  lemma {:induction false} NonObjectIsAdmitted(word: TypeWord)
    requires AdmitsNonObject(word)
    ensures exists v: Json :: !v.Obj? && (v.Arr? ==> v.items == []) && AdmitsWord(word, v)
  {
    match word
    case Words(words) =>
      var k :| 0 <= k < |words| && AdmitsNonObject(words[k]);
      NonObjectIsAdmitted(words[k]);
      var v: Json :| !v.Obj? && (v.Arr? ==> v.items == []) && AdmitsWord(words[k], v);
      assert AdmitsWord(word, v);
    case Word(name) =>
      var v := if name == "array" then Arr([]) else if name == "string" then Str("")
               else if name == "boolean" then Bool(true) else if name == "null" then Null else Num(0.0);
      assert v == Num(0.0) ==> v.number.Floor as real == v.number;
      assert AdmitsWord(word, v);
  }

  /** A node that reaches the object case through its `properties`, whatever its type, a nested type
      list included, and whatever else it says of arrays and in annotations. */
  ghost predicate ObjectByProperties(s: Schema) {
    && s.Node? && FirstUnion(s).None? && s.reference.None? && s.constant.None? && s.choices.None?
    && s.properties.Properties?
    && (forall k :: 0 <= k < |PropertyList(s)| ==> Tame(PropertyList(s)[k].schema))
    && (s.additional.Some? ==> Tame(s.additional.value))
  }

  lemma {:induction false} WordKeepsObjectByProperties(s: Schema, k: nat)
    requires ObjectByProperties(s) && s.kind.Some? && s.kind.value.Words? && k < |s.kind.value.words|
    ensures ObjectByProperties(s.(kind := Some(s.kind.value.words[k])))
    ensures Size(s.(kind := Some(s.kind.value.words[k]))) < Size(s)
  {
    WordSmaller(s.kind.value.words, k);
    assert PropertyList(s.(kind := Some(s.kind.value.words[k]))) == PropertyList(s);
  }

  /** Such a node is rendered as nothing but object types. */
  lemma {:induction false} InhabitantIsObject(c: Context, fuel: nat, s: Schema, v: Json)
    requires ObjectByProperties(s) && Render(c.names, s).Success? && Typed(c, fuel, s, v)
    ensures v.Obj?
    decreases Size(s)
  {
    if s.kind.Some? && s.kind.value.Words? {
      var members := RenderWords(c.names, s, s.kind.value.words).value;
      var k :| 0 <= k < |members| && Inhabits(fuel, c.env, members[k], v);
      WordAt(c.names, s, s.kind.value.words, k);
      WordKeepsObjectByProperties(s, k);
      InhabitantIsObject(c, fuel, s.(kind := Some(s.kind.value.words[k])), v);
    } else {
      assert RenderObject(c.names, s) == Render(c.names, s);
    }
  }

  /** Objects are always in its type. */
  lemma {:induction false} ObjectIsTyped(c: Context, fuel: nat, s: Schema, v: Json)
    requires Good(c) && ObjectByProperties(s) && v.Obj?
    requires Render(c.names, s).Success? && Admitted(c, fuel, s, v)
    ensures Typed(c, fuel, s, v)
    decreases Size(s)
  {
    if s.kind.Some? && s.kind.value.Words? {
      var words := s.kind.value.words;
      var k :| 0 <= k < |words| && AdmitsWord(words[k], v);
      WordAt(c.names, s, words, k);
      WordKeepsObjectByProperties(s, k);
      ObjectIsTyped(c, fuel, s.(kind := Some(words[k])), v);
      assert Inhabits(fuel, c.env, RenderWords(c.names, s, words).value[k], v);
    } else {
      SoundObject(c, fuel, s, v);
    }
  }

  lemma {:induction false} NonObjectIsValid(fuel: nat, root: Document, judge: Judge, s: Schema, v: Json)
    requires ObjectByProperties(s) && !v.Obj? && (v.Arr? ==> v.items == [])
    requires (s.kind.Some? ==> AdmitsWord(s.kind.value, v)) && NotesOk(judge, s.notes, v)
    ensures Valid(fuel, root, judge, s, v)
  {
  }

  /** The type rendered for `s` admits whatever is valid, however its annotations are judged. */
  ghost predicate SoundlyRendered(c: Context, s: Schema)
    requires Render(c.names, s).Success?
  {
    forall judge: Judge, fuel: nat, v: Json ::
      Valid(fuel, c.root, judge, s, v) ==> Inhabits(fuel, c.env, Render(c.names, s).value, v)
  }

  /** For such a node the rendered type is sound exactly when the node's own `type` rules out every
      value that is not an object: it must have one, and no word of it, at any depth of a type list,
      may admit anything else. Without annotations this is so for each judgement by itself. */
  lemma {:induction false} ObjectByPropertiesSoundIff(c: Context, s: Schema)
    requires Good(c) && ObjectByProperties(s) && Render(c.names, s).Success?
    ensures SoundlyRendered(c, s) <==> RulesOutNonObjects(s.kind)
    ensures s.notes == map[] ==>
              ((forall fuel: nat, v: Json :: Admitted(c, fuel, s, v) ==> Typed(c, fuel, s, v)) <==>
               RulesOutNonObjects(s.kind))
  {
    if RulesOutNonObjects(s.kind) {
      forall judge: Judge, fuel: nat, v: Json | Valid(fuel, c.root, judge, s, v)
        ensures Inhabits(fuel, c.env, Render(c.names, s).value, v)
      {
        AdmittedIsObject(s.kind.value, v);
        ObjectIsTyped(c.(judge := judge), fuel, s, v);
      }
      assert SoundlyRendered(c, s);
      forall fuel: nat, v: Json | Admitted(c, fuel, s, v)
        ensures Typed(c, fuel, s, v)
      {
      }
    } else {
      MisrenderedValue(c, s);
    }
  }

  /** A node whose type does not rule out other values has one that is valid and not in its type. */
  lemma {:induction false} MisrenderedValue(c: Context, s: Schema)
    requires ObjectByProperties(s) && Render(c.names, s).Success? && !RulesOutNonObjects(s.kind)
    ensures !SoundlyRendered(c, s)
    ensures s.notes == map[] ==> exists fuel: nat, v: Json :: Admitted(c, fuel, s, v) && !Typed(c, fuel, s, v)
  {
    if s.kind.Some? {
      NonObjectIsAdmitted(s.kind.value);
    }
    var v: Json :| !v.Obj? && (v.Arr? ==> v.items == []) && (s.kind.Some? ==> AdmitsWord(s.kind.value, v));
    var lenient: Judge := (key, note, value) => true;
    NonObjectIsValid(0, c.root, lenient, s, v);
    if Typed(c, 0, s, v) {
      InhabitantIsObject(c, 0, s, v);
    }
    if s.notes == map[] {
      NonObjectIsValid(0, c.root, c.judge, s, v);
      assert Admitted(c, 0, s, v) && !Typed(c, 0, s, v);
    }
  }

  /** A nullable object written as a type list beside `properties` is the failing case: null is
      valid, but both members of the rendered union are object types. */
  lemma {:induction false} NullableObjectIsMisrendered(judge: Judge, fuel: nat)
    ensures
      var s := EMPTY.(kind := Some(Words([Word("object"), Word("null")])), properties := Properties([]));
      var names := Names(ExecutionError, []);
      && Valid(fuel, Document([], s), judge, s, Null)
      && Render(names, s).Success?
      && !Inhabits(fuel, map[], Render(names, s).value, Null)
      && !Tame(s)
  {
    var words := [Word("object"), Word("null")];
    var s := EMPTY.(kind := Some(Words(words)), properties := Properties([]));
    var names := Names(ExecutionError, []);
    NullableIsRendered(names, s, words);
    assert AdmitsWord(words[1], Null);
    NonObjectIsValid(fuel, Document([], s), judge, s, Null);
    var c := Context(map[], names, Document([], s), judge);
    if Typed(c, fuel, s, Null) {
      InhabitantIsObject(c, fuel, s, Null);
    }
    SplitWordMustBeTame(s, 1);
    assert AdmitsNonObject(words[1]);
  }

  lemma {:induction false} SplitWordMustBeTame(s: Schema, k: nat)
    requires ObjectByProperties(s) && s.kind.Some? && s.kind.value.Words? && k < |s.kind.value.words|
    requires s.kind.value.words[k].Word? && AdmitsNonObject(s.kind.value.words[k])
    ensures !Tame(s)
  {
    WordSmaller(s.kind.value.words, k);
    assert !Tame(s.(kind := Some(s.kind.value.words[k])));
  }

  lemma {:induction false} NullableIsRendered(names: Names, s: Schema, words: seq<TypeWord>)
    requires |words| == 2 && !words[0].Words? && !words[1].Words?
    requires s == EMPTY.(kind := Some(Words(words)), properties := Properties([]))
    ensures Render(names, s).Success?
  {
    PropertiesMeanObject(names, words[0]);
    PropertiesMeanObject(names, words[1]);
    PairOfWords(names, s, words, Object([], Some(Unknown)));
  }

  lemma {:induction false} PropertiesMeanObject(names: Names, word: TypeWord)
    requires !word.Words?
    ensures Render(names, EMPTY.(kind := Some(word), properties := Properties([])))
         == Success(Object([], Some(Unknown)))
  {
    var s := EMPTY.(kind := Some(word), properties := Properties([]));
    assert RenderFields(names, s.required, []) == Success([]);
    assert RenderObject(names, s) == Success(Object([], Some(Unknown)));
  }

  lemma {:induction false} PairOfWords(names: Names, s: Schema, words: seq<TypeWord>, ty: Ts)
    requires s.Node? && s.kind == Some(Words(words)) && |words| == 2
    requires forall k :: 0 <= k < 2 ==> Render(names, s.(kind := Some(words[k]))) == Success(ty)
    ensures RenderWords(names, s, words) == Success([ty, ty])
  {
    var rest := words[1..];
    var none: seq<TypeWord> := [];
    assert rest[1..] == none && rest[0] == words[1];
    assert Render(names, s.(kind := Some(rest[0]))) == Success(ty);
    assert RenderWords(names, s, none) == Success([]);
    assert RenderWords(names, s, rest) == Success([ty] + []);
    assert [ty] + [] == [ty];
    assert Render(names, s.(kind := Some(words[0]))) == Success(ty);
    assert RenderWords(names, s, words) == Success([ty] + [ty]);
    assert [ty] + [ty] == [ty, ty];
  }
}
