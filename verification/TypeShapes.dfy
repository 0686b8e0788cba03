/** What rendered types say, no more and no less: the shape of a schema is what is left of it when
    annotations are ignored, `oneOf` is read as `anyOf`, integers as numbers, keywords beside a
    constant or an enumeration are ignored, and undeclared keys are never refused. */
module TypeShapes {
  import opened Wrappers
  import opened JsonValues
  import JsonPointer
  import opened Fragments
  import opened SchemaModel
  import opened TypeCompiler
  import opened TypeSoundness

  /** The definition of the key that one decoded token gives. */
  function ReferredTo(root: Document, reference: Reference): Option<Schema> {
    if !reference.Text? || !("#/$defs/" <= reference.text) then None
    else
      match Find(root.defs, JsonPointer.Decode(reference.text[8..]))
      case Some(k) => Some(root.defs[k].schema)
      case None => None
  }

  ghost predicate Shape(fuel: nat, root: Document, s: Schema, v: Json)
    decreases fuel, Size(s)
  {
    match s
    case Truth(value) => value
    case NotSchema => false
    case Node(kind, properties, required, additional, items, reference, anyOf, oneOf, allOf, constant, choices, _, _) =>
      if anyOf.Branches? then
        exists k :: 0 <= k < |anyOf.list| && anyOf.list[k].Node? &&
          (MergedIsSmaller(s, AnyOf, k); Shape(fuel, root, Merge(s.(anyOf := NoUnion), anyOf.list[k]), v))
      else if oneOf.Branches? then
        exists k :: 0 <= k < |oneOf.list| && oneOf.list[k].Node? &&
          (MergedIsSmaller(s, OneOf, k); Shape(fuel, root, Merge(s.(oneOf := NoUnion), oneOf.list[k]), v))
      else if allOf.Branches? then
        forall k :: 0 <= k < |allOf.list| ==>
          && allOf.list[k].Node?
          && (MergedIsSmaller(s, AllOf, k); Shape(fuel, root, Merge(s.(allOf := NoUnion), allOf.list[k]), v))
      else if reference.Some? then
        0 < fuel && ReferredTo(root, reference.value).Some?
        && Shape(fuel - 1, root, ReferredTo(root, reference.value).value, v)
      else if constant.Some? then v == constant.value
      else if choices.Some? then v in choices.value
      else if kind.Some? && kind.value.Words? then
        exists k :: 0 <= k < |kind.value.words| &&
          (WordSmaller(kind.value.words, k); Shape(fuel, root, s.(kind := Some(kind.value.words[k])), v))
      else if kind == Some(Word("object")) || properties.Properties? then
        && v.Obj?
        && (required.Some? ==> forall key :: key in required.value ==> key in v.fields)
        && (properties.Properties? ==>
              forall k :: 0 <= k < |properties.list| && properties.list[k].key in v.fields ==>
                (PropertySmaller(properties.list, k);
                 Shape(fuel, root, properties.list[k].schema, v.fields[properties.list[k].key])))
        && (additional.Some? && additional.value != Truth(false) ==>
              forall key :: key in v.fields && !DeclaredKey(properties, key) ==>
                (assert OptionSize(s.additional) == 1 + Size(additional.value);
                 Shape(fuel, root, additional.value, v.fields[key])))
      else if kind == Some(Word("array")) then
        v.Arr? &&
          (items.Some? ==>
             forall k :: 0 <= k < |v.items| ==>
               (assert OptionSize(s.items) == 1 + Size(items.value); Shape(fuel, root, items.value, v.items[k])))
      else if kind == Some(Word("integer")) || kind == Some(Word("number")) then v.Num?
      else if kind == Some(Word("string")) then v.Str?
      else if kind == Some(Word("boolean")) then v.Bool?
      else if kind == Some(Word("null")) then v.Null?
      else kind.None?
  }

  ghost predicate Declared(c: Context) {
    Declares(c.env, c.names, c.root.defs)
  }

  ghost predicate Shaped(c: Context, fuel: nat, s: Schema, v: Json) {
    Shape(fuel, c.root, s, v)
  }

  // ---------- unions ----------

  /** A value is in the type of an `anyOf` or `oneOf` node exactly when it is in the type of some branch
      merged with the siblings, and in that of an `allOf` node exactly when in that of every one. */
  lemma {:induction false} UnionTypeIff(c: Context, fuel: nat, s: Schema, v: Json)
    requires s.Node? && FirstUnion(s).Some? && Render(c.names, s).Success?
    ensures
      var kind := FirstUnion(s).value;
      var list := UnionOf(s, kind).list;
      && list != []
      && (forall k :: 0 <= k < |list| ==>
            list[k].Node? && Render(c.names, Merge(Siblings(s, kind), list[k])).Success?)
      && (kind.AllOf? ==>
            (Typed(c, fuel, s, v) <==>
             forall k :: 0 <= k < |list| ==> Typed(c, fuel, Merge(Siblings(s, kind), list[k]), v)))
      && (!kind.AllOf? ==>
            (Typed(c, fuel, s, v) <==>
             exists k :: 0 <= k < |list| && Typed(c, fuel, Merge(Siblings(s, kind), list[k]), v)))
  {
    var kind := FirstUnion(s).value;
    var list := UnionOf(s, kind).list;
    var members := RenderBranches(c.names, s, kind, 0).value;
    forall k | 0 <= k < |list|
      ensures list[k].Node? && Render(c.names, Merge(Siblings(s, kind), list[k])) == Success(members[k])
    {
      BranchAt(c.names, s, kind, 0, k);
    }
    CombinedIff(c, fuel, kind, members, v);
  }

  lemma {:induction false} CombinedIff(c: Context, fuel: nat, kind: UnionKind, members: seq<Ts>, v: Json)
    ensures Inhabits(fuel, c.env, Combine(kind, members), v) <==>
            if kind.AllOf? then forall k :: 0 <= k < |members| ==> Inhabits(fuel, c.env, members[k], v)
            else exists k :: 0 <= k < |members| && Inhabits(fuel, c.env, members[k], v)
  {
  }

  ghost predicate BranchShaped(c: Context, fuel: nat, s: Schema, kind: UnionKind, k: nat, v: Json)
    requires s.Node? && UnionOf(s, kind).Branches? && k < |UnionOf(s, kind).list|
  {
    UnionOf(s, kind).list[k].Node? && Shaped(c, fuel, Merge(Siblings(s, kind), UnionOf(s, kind).list[k]), v)
  }

  lemma {:induction false} AnyOfShape(c: Context, fuel: nat, s: Schema, v: Json)
    requires s.Node? && FirstUnion(s) == Some(AnyOf)
    ensures Shaped(c, fuel, s, v) <==> exists k: nat :: k < |s.anyOf.list| && BranchShaped(c, fuel, s, AnyOf, k, v)
  {
    assert Siblings(s, AnyOf) == s.(anyOf := NoUnion);
    if Shaped(c, fuel, s, v) {
      var k :| 0 <= k < |s.anyOf.list| && s.anyOf.list[k].Node? &&
        Shape(fuel, c.root, Merge(s.(anyOf := NoUnion), s.anyOf.list[k]), v);
      assert BranchShaped(c, fuel, s, AnyOf, k, v);
    }
  }

  lemma {:induction false} OneOfShape(c: Context, fuel: nat, s: Schema, v: Json)
    requires s.Node? && FirstUnion(s) == Some(OneOf)
    ensures Shaped(c, fuel, s, v) <==> exists k: nat :: k < |s.oneOf.list| && BranchShaped(c, fuel, s, OneOf, k, v)
  {
    assert Siblings(s, OneOf) == s.(oneOf := NoUnion);
    if Shaped(c, fuel, s, v) {
      var k :| 0 <= k < |s.oneOf.list| && s.oneOf.list[k].Node? &&
        Shape(fuel, c.root, Merge(s.(oneOf := NoUnion), s.oneOf.list[k]), v);
      assert BranchShaped(c, fuel, s, OneOf, k, v);
    }
  }

  lemma {:induction false} AllOfShape(c: Context, fuel: nat, s: Schema, v: Json)
    requires s.Node? && FirstUnion(s) == Some(AllOf)
    ensures Shaped(c, fuel, s, v) <==> forall k: nat :: k < |s.allOf.list| ==> BranchShaped(c, fuel, s, AllOf, k, v)
  {
    assert Siblings(s, AllOf) == s.(allOf := NoUnion);
    if Shaped(c, fuel, s, v) {
      forall k: nat | k < |s.allOf.list|
        ensures BranchShaped(c, fuel, s, AllOf, k, v)
      {
        assert s.allOf.list[k].Node?;
      }
    }
    if forall k: nat :: k < |s.allOf.list| ==> BranchShaped(c, fuel, s, AllOf, k, v) {
      forall k | 0 <= k < |s.allOf.list|
        ensures s.allOf.list[k].Node? && Shape(fuel, c.root, Merge(s.(allOf := NoUnion), s.allOf.list[k]), v)
      {
        assert BranchShaped(c, fuel, s, AllOf, k, v);
      }
    }
  }

  lemma {:induction false} ShapeOfUnion(c: Context, fuel: nat, s: Schema, v: Json)
    requires Declared(c) && s.Node? && FirstUnion(s).Some? && Render(c.names, s).Success?
    ensures Typed(c, fuel, s, v) <==> Shaped(c, fuel, s, v)
    decreases fuel, Size(s), 0
  {
    var kind := FirstUnion(s).value;
    var list := UnionOf(s, kind).list;
    UnionTypeIff(c, fuel, s, v);
    match kind {
      case AnyOf => AnyOfShape(c, fuel, s, v);
      case OneOf => OneOfShape(c, fuel, s, v);
      case AllOf => AllOfShape(c, fuel, s, v);
    }
    forall k: nat | k < |list|
      ensures Typed(c, fuel, Merge(Siblings(s, kind), list[k]), v) <==> BranchShaped(c, fuel, s, kind, k, v)
    {
      MergedIsSmaller(s, kind, k);
      ShapeIsExact(c, fuel, Merge(Siblings(s, kind), list[k]), v);
    }
  }

  // ---------- references ----------

  lemma {:induction false} LookedUp(c: Context, reference: Reference)
    requires Declared(c) && RenderReference(c.names, reference).Success?
    ensures ReferredTo(c.root, reference).Some?
    ensures
      var t := ReferredTo(c.root, reference).value;
      && Render(c.names, t).Success? && RenderReference(c.names, reference).value.Named?
      && RenderReference(c.names, reference).value.name in c.env
      && c.env[RenderReference(c.names, reference).value.name] == Render(c.names, t).value
  {
    FindAgrees(c.names, c.root.defs, LocalKey(reference).value);
  }

  lemma {:induction false} ShapeOfReference(c: Context, fuel: nat, s: Schema, v: Json)
    requires Declared(c) && s.Node? && FirstUnion(s).None? && s.reference.Some? && Render(c.names, s).Success?
    ensures Typed(c, fuel, s, v) <==> Shaped(c, fuel, s, v)
    decreases fuel, Size(s), 0
  {
    LookedUp(c, s.reference.value);
    if 0 < fuel {
      ShapeIsExact(c, fuel - 1, ReferredTo(c.root, s.reference.value).value, v);
    }
  }

  // ---------- type lists ----------

  lemma {:induction false} ShapeOfWords(c: Context, fuel: nat, s: Schema, v: Json)
    requires Declared(c) && s.Node? && FirstUnion(s).None? && s.reference.None? && s.constant.None? && s.choices.None?
    requires s.kind.Some? && s.kind.value.Words? && Render(c.names, s).Success?
    ensures Typed(c, fuel, s, v) <==> Shaped(c, fuel, s, v)
    decreases fuel, Size(s), 0
  {
    var words := s.kind.value.words;
    var members := RenderWords(c.names, s, words).value;
    forall k | 0 <= k < |words|
      ensures Inhabits(fuel, c.env, members[k], v) <==> Shaped(c, fuel, s.(kind := Some(words[k])), v)
    {
      WordAt(c.names, s, words, k);
      WordSmaller(words, k);
      ShapeIsExact(c, fuel, s.(kind := Some(words[k])), v);
    }
  }

  // ---------- objects ----------

  ghost predicate FieldsShaped(c: Context, fuel: nat, s: Schema, v: Json)
    requires s.Node? && v.Obj?
  {
    && (s.required.Some? ==> forall key :: key in s.required.value ==> key in v.fields)
    && forall k :: 0 <= k < |PropertyList(s)| && PropertyList(s)[k].key in v.fields ==>
         Shaped(c, fuel, PropertyList(s)[k].schema, v.fields[PropertyList(s)[k].key])
  }

  ghost predicate FieldsTyped(c: Context, fuel: nat, fields: seq<Field>, v: Json)
    requires v.Obj?
  {
    forall k :: 0 <= k < |fields| ==>
      if fields[k].key in v.fields
      then Inhabits(fuel, c.env, fields[k].ty, v.fields[fields[k].key])
      else fields[k].optional
  }

  lemma {:induction false} RequiredFields(c: Context, s: Schema, v: Json)
    requires s.Node? && v.Obj? && RequiredDeclared(s)
    requires RenderFields(c.names, s.required, PropertyList(s)).Success?
    ensures
      var fields := RenderFields(c.names, s.required, PropertyList(s)).value;
      (s.required.Some? ==> forall key :: key in s.required.value ==> key in v.fields) <==>
      forall k :: 0 <= k < |fields| && fields[k].key !in v.fields ==> fields[k].optional
  {
    var list := PropertyList(s);
    var fields := RenderFields(c.names, s.required, list).value;
    forall k | 0 <= k < |fields|
      ensures fields[k].key == list[k].key
      ensures fields[k].optional <==> !(s.required.Some? && list[k].key in s.required.value)
    {
      FieldAt(c.names, s.required, list, k);
    }
    if forall k :: 0 <= k < |fields| && fields[k].key !in v.fields ==> fields[k].optional {
      if s.required.Some? {
        forall key | key in s.required.value
          ensures key in v.fields
        {
          assert DeclaredKey(s.properties, key);
          var k :| 0 <= k < |list| && list[k].key == key;
          assert fields[k].key == key && !fields[k].optional;
        }
      }
    }
  }

  lemma {:induction false} FieldsIff(c: Context, fuel: nat, s: Schema, v: Json)
    requires Declared(c) && s.Node? && v.Obj? && RequiredDeclared(s)
    requires RenderFields(c.names, s.required, PropertyList(s)).Success?
    ensures FieldsTyped(c, fuel, RenderFields(c.names, s.required, PropertyList(s)).value, v) <==>
            FieldsShaped(c, fuel, s, v)
    decreases fuel, Size(s), 0
  {
    var list := PropertyList(s);
    var fields := RenderFields(c.names, s.required, list).value;
    RequiredFields(c, s, v);
    forall k | 0 <= k < |fields|
      ensures fields[k].key == list[k].key
      ensures list[k].key in v.fields ==>
                (Inhabits(fuel, c.env, fields[k].ty, v.fields[list[k].key]) <==>
                 Shaped(c, fuel, list[k].schema, v.fields[list[k].key]))
    {
      FieldAt(c.names, s.required, list, k);
      PropertySmaller(list, k);
      if list[k].key in v.fields {
        ShapeIsExact(c, fuel, list[k].schema, v.fields[list[k].key]);
      }
    }
  }

  ghost predicate ExtrasShaped(c: Context, fuel: nat, s: Schema, v: Json)
    requires s.Node? && v.Obj?
  {
    s.additional.Some? && s.additional.value != Truth(false) ==>
      forall key :: key in v.fields && !DeclaredKey(s.properties, key) ==>
        Shaped(c, fuel, s.additional.value, v.fields[key])
  }

  lemma {:induction false} FieldKeys(names: Names, s: Schema, key: string)
    requires s.Node? && RenderFields(names, s.required, PropertyList(s)).Success?
    ensures HasField(RenderFields(names, s.required, PropertyList(s)).value, key) <==> DeclaredKey(s.properties, key)
  {
    var list := PropertyList(s);
    var fields := RenderFields(names, s.required, list).value;
    forall k | 0 <= k < |fields|
      ensures fields[k].key == list[k].key
    {
      FieldAt(names, s.required, list, k);
    }
  }

  lemma {:induction false} ExtrasIff(c: Context, fuel: nat, s: Schema, v: Json)
    requires Declared(c) && s.Node? && IsObjectNode(s) && v.Obj? && RenderObject(c.names, s).Success?
    ensures
      var ty := RenderObject(c.names, s).value;
      ExtrasShaped(c, fuel, s, v) <==>
      (ty.index.Some? ==>
         forall key :: key in v.fields && !HasField(ty.fields, key) ==>
           Inhabits(fuel, c.env, ty.index.value, v.fields[key]))
    decreases fuel, Size(s), 0
  {
    forall key
      ensures HasField(RenderObject(c.names, s).value.fields, key) <==> DeclaredKey(s.properties, key)
    {
      FieldKeys(c.names, s, key);
    }
    if s.additional.Some? && s.additional.value != Truth(false) {
      assert OptionSize(s.additional) == 1 + Size(s.additional.value);
      forall key | key in v.fields
        ensures Inhabits(fuel, c.env, Render(c.names, s.additional.value).value, v.fields[key])
           <==> Shaped(c, fuel, s.additional.value, v.fields[key])
      {
        ShapeIsExact(c, fuel, s.additional.value, v.fields[key]);
      }
    }
  }

  lemma {:induction false} ObjectShape(c: Context, fuel: nat, s: Schema, v: Json)
    requires s.Node? && FirstUnion(s).None? && s.reference.None? && s.constant.None? && s.choices.None?
    requires IsObjectNode(s) && !(s.kind.Some? && s.kind.value.Words?)
    ensures Shaped(c, fuel, s, v) <==> v.Obj? && FieldsShaped(c, fuel, s, v) && ExtrasShaped(c, fuel, s, v)
  {
    if s.properties.Properties? {
      var list := s.properties.list;
      assert PropertyList(s) == list;
      forall k | 0 <= k < |list|
        ensures PropertyList(s)[k] == list[k]
      {
      }
    }
  }

  lemma {:induction false} ShapeOfObject(c: Context, fuel: nat, s: Schema, v: Json)
    requires Declared(c) && s.Node? && FirstUnion(s).None? && s.reference.None? && s.constant.None? && s.choices.None?
    requires IsObjectNode(s) && !(s.kind.Some? && s.kind.value.Words?) && RenderObject(c.names, s).Success?
    ensures Inhabits(fuel, c.env, RenderObject(c.names, s).value, v) <==> Shaped(c, fuel, s, v)
    decreases fuel, Size(s), 1
  {
    ObjectShape(c, fuel, s, v);
    if v.Obj? {
      FieldsIff(c, fuel, s, v);
      ExtrasIff(c, fuel, s, v);
    }
  }

  // ---------- single words ----------

  lemma {:induction false} ShapeOfWord(c: Context, fuel: nat, s: Schema, v: Json)
    requires Declared(c) && s.Node? && FirstUnion(s).None? && s.reference.None? && s.constant.None? && s.choices.None?
    requires !IsObjectNode(s) && !(s.kind.Some? && s.kind.value.Words?) && RenderWord(c.names, s).Success?
    ensures Inhabits(fuel, c.env, RenderWord(c.names, s).value, v) <==> Shaped(c, fuel, s, v)
    decreases fuel, Size(s), 0
  {
    if s.kind == Some(Word("array")) && s.items.Some? && v.Arr? {
      assert OptionSize(s.items) == 1 + Size(s.items.value);
      forall k | 0 <= k < |v.items|
        ensures Inhabits(fuel, c.env, Render(c.names, s.items.value).value, v.items[k])
           <==> Shaped(c, fuel, s.items.value, v.items[k])
      {
        ShapeIsExact(c, fuel, s.items.value, v.items[k]);
      }
    }
  }

  /** In a document whose definitions are declared, a rendered type is inhabited by exactly the values
      that have the shape of the schema. */
  lemma {:induction false} ShapeIsExact(c: Context, fuel: nat, s: Schema, v: Json)
    requires Declared(c) && Render(c.names, s).Success?
    ensures Typed(c, fuel, s, v) <==> Shaped(c, fuel, s, v)
    decreases fuel, Size(s), 2
  {
    if s.Node? {
      if FirstUnion(s).Some? {
        ShapeOfUnion(c, fuel, s, v);
      } else if s.reference.Some? {
        ShapeOfReference(c, fuel, s, v);
      } else if s.constant.Some? {
      } else if s.choices.Some? {
        LiteralsIff(c, fuel, s.choices.value, v);
      } else if s.kind.Some? && s.kind.value.Words? {
        ShapeOfWords(c, fuel, s, v);
      } else if IsObjectNode(s) {
        ShapeOfObject(c, fuel, s, v);
      } else {
        ShapeOfWord(c, fuel, s, v);
      }
    }
  }

  lemma {:induction false} LiteralsIff(c: Context, fuel: nat, values: seq<Json>, v: Json)
    ensures Inhabits(fuel, c.env, UnionOfTypes(Literals(values)), v) <==> v in values
  {
    if v in values {
      var k :| 0 <= k < |values| && values[k] == v;
      assert Inhabits(fuel, c.env, Literals(values)[k], v);
    }
  }
}
