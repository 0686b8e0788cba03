/** Which schemas the renderer supports, stated of the schema alone, and what merging a branch with its
    siblings means. */
module TypeSupport {
  import opened Wrappers
  import opened JsonValues
  import JsonPointer
  import opened Fragments
  import opened SchemaModel
  import opened TypeCompiler
  import opened TypeSoundness

  /** A keyword given on both sides is given alike. */
  predicate Alike(a: Schema, b: Schema)
    requires a.Node? && b.Node?
  {
    && (a.kind.Some? && b.kind.Some? ==> a.kind == b.kind)
    && (a.properties.Properties? && b.properties.Properties? ==> a.properties == b.properties)
    && (a.required.Some? && b.required.Some? ==> a.required == b.required)
    && (a.additional.Some? && b.additional.Some? ==> a.additional == b.additional)
    && (a.items.Some? && b.items.Some? ==> a.items == b.items)
    && (a.reference.Some? && b.reference.Some? ==> a.reference == b.reference)
    && (a.anyOf.Branches? && b.anyOf.Branches? ==> a.anyOf == b.anyOf)
    && (a.oneOf.Branches? && b.oneOf.Branches? ==> a.oneOf == b.oneOf)
    && (a.allOf.Branches? && b.allOf.Branches? ==> a.allOf == b.allOf)
    && (a.constant.Some? && b.constant.Some? ==> a.constant == b.constant)
    && (a.choices.Some? && b.choices.Some? ==> a.choices == b.choices)
  }

  predicate IsScalar(v: Json) {
    v.Null? || v.Bool? || v.Num? || v.Str?
  }

  ghost predicate BranchSupported(names: Names, s: Schema, kind: UnionKind, k: nat)
    requires s.Node? && UnionOf(s, kind).Branches? && k < |UnionOf(s, kind).list|
    decreases Size(s), 0
  {
    var branch := UnionOf(s, kind).list[k];
    && branch.Node? && Alike(Siblings(s, kind), branch)
    && (MergedIsSmaller(s, kind, k); Supported(names, Merge(Siblings(s, kind), branch)))
  }

  ghost predicate UnionSupported(names: Names, s: Schema, kind: UnionKind)
    requires s.Node? && UnionOf(s, kind).Branches?
    decreases Size(s), 1
  {
    && UnionOf(s, kind).list != []
    && forall k: nat :: k < |UnionOf(s, kind).list| ==> BranchSupported(names, s, kind, k)
  }

  ghost predicate ObjectSupported(names: Names, s: Schema)
    requires s.Node?
    decreases Size(s), 1
  {
    && (s.required.Some? ==> forall key :: key in s.required.value ==> DeclaredKey(s.properties, key))
    && (forall k :: 0 <= k < |PropertyList(s)| ==>
          (PropertySmaller(PropertyList(s), k); Supported(names, PropertyList(s)[k].schema)))
    && (s.additional.Some? && s.additional.value != Truth(false) ==>
          (assert OptionSize(s.additional) == 1 + Size(s.additional.value); Supported(names, s.additional.value)))
  }

  /** No unknown keyword; unions nonempty, of nodes that agree with their siblings; references local,
      known and alone; constants and choices scalar; required keys declared; and no constraint on a
      node without a type. */
  ghost predicate Supported(names: Names, s: Schema)
    decreases Size(s), 2
  {
    match s
    case Truth(_) => true
    case NotSchema => false
    case Node(kind, properties, required, additional, items, reference, anyOf, oneOf, allOf,
              constant, choices, _, unknown) =>
      && unknown == {}
      && if anyOf.Branches? then UnionSupported(names, s, AnyOf)
         else if oneOf.Branches? then UnionSupported(names, s, OneOf)
         else if allOf.Branches? then UnionSupported(names, s, AllOf)
         else if reference.Some? then
           && kind.None? && properties.NoProperties? && required.None? && additional.None? && items.None?
           && constant.None? && choices.None?
           && reference.value.Text? && "#/$defs/" <= reference.value.text
           && JsonPointer.Decode(reference.value.text[8..]) in names.keys
         else if constant.Some? then IsScalar(constant.value)
         else if choices.Some? then forall v :: v in choices.value ==> IsScalar(v)
         else if kind.Some? && kind.value.Words? then
           forall k :: 0 <= k < |kind.value.words| ==>
             (WordSmaller(kind.value.words, k); Supported(names, s.(kind := Some(kind.value.words[k]))))
         else if kind == Some(Word("object")) || properties.Properties? then ObjectSupported(names, s)
         else if kind == Some(Word("array")) then
           items.Some? ==> (assert OptionSize(s.items) == 1 + Size(items.value); Supported(names, items.value))
         else if kind.Some? then
           kind.value.Word? && kind.value.word in ["integer", "number", "string", "boolean", "null"]
         else required.None? && additional.None? && items.None?
  }

  // ---------- rendering succeeds exactly for supported schemas ----------

  lemma {:induction false} AlikeIsCompatible(s: Schema, kind: UnionKind, branch: Schema)
    requires s.Node? && branch.Node?
    ensures Compatible(Siblings(s, kind), branch) <==> Alike(Siblings(s, kind), branch)
  {
  }

  lemma {:induction false} BranchRendersIff(names: Names, s: Schema, kind: UnionKind, j: nat)
    requires s.Node? && UnionOf(s, kind).Branches? && j < |UnionOf(s, kind).list|
    ensures
      var branch := UnionOf(s, kind).list[j];
      BranchSupported(names, s, kind, j) <==>
      && branch.Node? && Compatible(Siblings(s, kind), branch)
      && Render(names, Merge(Siblings(s, kind), branch)).Success?
    decreases Size(s), 0, 0
  {
    var branch := UnionOf(s, kind).list[j];
    if branch.Node? {
      AlikeIsCompatible(s, kind, branch);
      MergedIsSmaller(s, kind, j);
      SupportIff(names, Merge(Siblings(s, kind), branch));
    }
  }

  ghost predicate SupportedFrom(names: Names, s: Schema, kind: UnionKind, j: nat)
    requires s.Node? && UnionOf(s, kind).Branches?
  {
    forall k: nat :: j <= k < |UnionOf(s, kind).list| ==> BranchSupported(names, s, kind, k)
  }

  lemma {:induction false} SupportedStep(names: Names, s: Schema, kind: UnionKind, j: nat)
    requires s.Node? && UnionOf(s, kind).Branches? && j < |UnionOf(s, kind).list|
    ensures SupportedFrom(names, s, kind, j) <==>
            BranchSupported(names, s, kind, j) && SupportedFrom(names, s, kind, j + 1)
  {
  }

  lemma {:induction false} BranchesStep(names: Names, s: Schema, kind: UnionKind, j: nat)
    requires s.Node? && UnionOf(s, kind).Branches? && j < |UnionOf(s, kind).list|
    ensures
      var branch := UnionOf(s, kind).list[j];
      RenderBranches(names, s, kind, j).Success? <==>
      && branch.Node? && Compatible(Siblings(s, kind), branch)
      && Render(names, Merge(Siblings(s, kind), branch)).Success?
      && RenderBranches(names, s, kind, j + 1).Success?
  {
  }

  lemma {:induction false} BranchesRenderIff(names: Names, s: Schema, kind: UnionKind, j: nat)
    requires s.Node? && UnionOf(s, kind).Branches? && j <= |UnionOf(s, kind).list|
    ensures RenderBranches(names, s, kind, j).Success? <==> SupportedFrom(names, s, kind, j)
    decreases Size(s), 0, |UnionOf(s, kind).list| - j + 1
  {
    if j < |UnionOf(s, kind).list| {
      BranchesRenderIff(names, s, kind, j + 1);
      BranchRendersIff(names, s, kind, j);
      BranchesStep(names, s, kind, j);
      SupportedStep(names, s, kind, j);
    }
  }

  lemma {:induction false} WordsRenderIff(names: Names, s: Schema, words: seq<TypeWord>)
    requires s.Node? && s.kind.Some? && s.kind.value.Words? && WordsSize(words) <= WordsSize(s.kind.value.words)
    ensures RenderWords(names, s, words).Success? <==>
            forall k :: 0 <= k < |words| ==> Supported(names, s.(kind := Some(words[k])))
    decreases Size(s), 0, |words|
  {
    if words != [] {
      WordsRenderIff(names, s, words[1..]);
      SupportIff(names, s.(kind := Some(words[0])));
      assert forall k :: 0 < k < |words| ==> words[k] == words[1..][k - 1];
      assert forall k :: 0 <= k < |words| - 1 ==> words[1..][k] == words[k + 1];
    }
  }

  lemma {:induction false} FieldsRenderIff(names: Names, required: Option<seq<string>>, list: seq<Property>)
    ensures RenderFields(names, required, list).Success? <==>
            forall k :: 0 <= k < |list| ==> Supported(names, list[k].schema)
    decreases PropertiesSize(list), 0
  {
    if list != [] {
      FieldsRenderIff(names, required, list[1..]);
      SupportIff(names, list[0].schema);
      assert forall k :: 0 < k < |list| ==> list[k] == list[1..][k - 1];
      assert forall k :: 0 <= k < |list| - 1 ==> list[1..][k] == list[k + 1];
    }
  }

  lemma {:induction false} ObjectRendersIff(names: Names, s: Schema)
    requires s.Node? && IsObjectNode(s)
    ensures RenderObject(names, s).Success? <==> ObjectSupported(names, s)
    decreases Size(s), 0
  {
    FieldsRenderIff(names, s.required, PropertyList(s));
    if s.additional.Some? && s.additional.value != Truth(false) {
      assert OptionSize(s.additional) == 1 + Size(s.additional.value);
      SupportIff(names, s.additional.value);
    }
  }

  lemma {:induction false} WordRendersIff(names: Names, s: Schema)
    requires s.Node? && FirstUnion(s).None? && s.reference.None? && s.constant.None? && s.choices.None?
    requires s.unknown == {} && !IsObjectNode(s) && !(s.kind.Some? && s.kind.value.Words?)
    ensures RenderWord(names, s).Success? <==> Supported(names, s)
    decreases Size(s), 0
  {
    if s.kind == Some(Word("array")) && s.items.Some? {
      assert OptionSize(s.items) == 1 + Size(s.items.value);
      SupportIff(names, s.items.value);
    }
  }

  lemma {:induction false} UnionSupportedIff(names: Names, s: Schema, kind: UnionKind)
    requires s.Node? && UnionOf(s, kind).Branches?
    ensures UnionSupported(names, s, kind) <==> UnionOf(s, kind).list != [] && SupportedFrom(names, s, kind, 0)
  {
  }

  lemma {:induction false} UnionRendersIff(names: Names, s: Schema)
    requires s.Node? && s.unknown == {} && FirstUnion(s).Some?
    ensures Render(names, s).Success? <==> Supported(names, s)
    decreases Size(s), 1
  {
    var kind := FirstUnion(s).value;
    BranchesRenderIff(names, s, kind, 0);
    UnionSupportedIff(names, s, kind);
    assert Supported(names, s) <==> UnionSupported(names, s, kind);
  }

  /** Rendering succeeds exactly for the supported schemas. */
  lemma {:induction false} SupportIff(names: Names, s: Schema)
    ensures Render(names, s).Success? <==> Supported(names, s)
    decreases Size(s), 2
  {
    if s.Node? && s.unknown == {} {
      if FirstUnion(s).Some? {
        UnionRendersIff(names, s);
      } else if s.reference.Some? || s.constant.Some? || s.choices.Some? {
      } else if s.kind.Some? && s.kind.value.Words? {
        WordsRenderIff(names, s, s.kind.value.words);
      } else if IsObjectNode(s) {
        ObjectRendersIff(names, s);
      } else {
        WordRendersIff(names, s);
      }
    }
  }

  // ---------- merging is conjunction ----------

  /** Neither side's `additionalProperties` judges a key that only the other side declares. */
  ghost predicate ExtrasAgree(a: Schema, b: Schema)
    requires a.Node? && b.Node?
  {
    && (a.additional.Some? ==> forall key :: DeclaredKey(b.properties, key) ==> DeclaredKey(a.properties, key))
    && (b.additional.Some? ==> forall key :: DeclaredKey(a.properties, key) ==> DeclaredKey(b.properties, key))
  }

  predicate NotesAgree(a: Schema, b: Schema)
    requires a.Node? && b.Node?
  {
    forall key :: key in a.notes && key in b.notes ==> a.notes[key] == b.notes[key]
  }

  lemma {:induction false} MergedNotes(judge: Judge, a: Schema, b: Schema, v: Json)
    requires a.Node? && b.Node? && NotesAgree(a, b)
    ensures NotesOk(judge, Merge(a, b).notes, v) <==> NotesOk(judge, a.notes, v) && NotesOk(judge, b.notes, v)
  {
    var notes := Merge(a, b).notes;
    assert forall key :: key in b.notes ==> key in notes && notes[key] == b.notes[key];
    assert forall key :: key in a.notes ==> key in notes && notes[key] == a.notes[key];
  }

  lemma {:induction false} AdditionalIsLocal(fuel: nat, root: Document, judge: Judge,
                                             a: Properties, b: Properties, additional: Option<Schema>, v: Json)
    requires forall key :: DeclaredKey(a, key) <==> DeclaredKey(b, key)
    ensures AdditionalOk(fuel, root, judge, a, additional, v) <==> AdditionalOk(fuel, root, judge, b, additional, v)
  {
  }

  lemma {:induction false} MergedExtras(fuel: nat, root: Document, judge: Judge, a: Schema, b: Schema, v: Json)
    requires a.Node? && b.Node? && Alike(a, b) && ExtrasAgree(a, b)
    ensures
      var m := Merge(a, b);
      AdditionalOk(fuel, root, judge, m.properties, m.additional, v) <==>
      AdditionalOk(fuel, root, judge, a.properties, a.additional, v)
      && AdditionalOk(fuel, root, judge, b.properties, b.additional, v)
  {
    var m := Merge(a, b);
    assert m.properties == if b.properties.Properties? then b.properties else a.properties;
    assert m.additional == if b.additional.Some? then b.additional else a.additional;
    if a.additional.Some? {
      AdditionalIsLocal(fuel, root, judge, m.properties, a.properties, a.additional, v);
    }
    if b.additional.Some? {
      AdditionalIsLocal(fuel, root, judge, m.properties, b.properties, b.additional, v);
    }
  }

  lemma {:induction false} MergedProperties(fuel: nat, root: Document, judge: Judge, a: Schema, b: Schema, v: Json)
    requires a.Node? && b.Node? && Alike(a, b)
    ensures PropertiesOk(fuel, root, judge, Merge(a, b).properties, v) <==>
            PropertiesOk(fuel, root, judge, a.properties, v) && PropertiesOk(fuel, root, judge, b.properties, v)
  {
    assert Merge(a, b).properties == if b.properties.Properties? then b.properties else a.properties;
  }

  ghost predicate ValuesOk(s: Schema, v: Json)
    requires s.Node?
  {
    && (s.kind.Some? ==> AdmitsWord(s.kind.value, v))
    && (s.constant.Some? ==> v == s.constant.value)
    && (s.choices.Some? ==> v in s.choices.value)
    && (s.required.Some? && v.Obj? ==> forall key :: key in s.required.value ==> key in v.fields)
  }

  ghost predicate UnionsOk(fuel: nat, root: Document, judge: Judge, s: Schema, v: Json)
    requires s.Node?
  {
    && ReferenceOk(fuel, root, judge, s.reference, v)
    && AnyOk(fuel, root, judge, s.anyOf, v)
    && OneOk(fuel, root, judge, s.oneOf, v)
    && AllOk(fuel, root, judge, s.allOf, v)
    && ItemsOk(fuel, root, judge, s.items, v)
  }

  ghost predicate FieldsOk(fuel: nat, root: Document, judge: Judge, s: Schema, v: Json)
    requires s.Node?
  {
    && PropertiesOk(fuel, root, judge, s.properties, v)
    && AdditionalOk(fuel, root, judge, s.properties, s.additional, v)
  }

  lemma {:induction false} ValidInParts(fuel: nat, root: Document, judge: Judge, s: Schema, v: Json)
    requires s.Node?
    ensures Valid(fuel, root, judge, s, v) <==>
            NotesOk(judge, s.notes, v) && ValuesOk(s, v) && UnionsOk(fuel, root, judge, s, v)
            && FieldsOk(fuel, root, judge, s, v)
  {
  }

  lemma {:induction false} MergedValues(a: Schema, b: Schema, v: Json)
    requires a.Node? && b.Node? && Alike(a, b)
    ensures ValuesOk(Merge(a, b), v) <==> ValuesOk(a, v) && ValuesOk(b, v)
  {
    var m := Merge(a, b);
    assert m.kind == if b.kind.Some? then b.kind else a.kind;
    assert m.required == if b.required.Some? then b.required else a.required;
    assert m.constant == if b.constant.Some? then b.constant else a.constant;
    assert m.choices == if b.choices.Some? then b.choices else a.choices;
  }

  lemma {:induction false} MergedUnionsHold(fuel: nat, root: Document, judge: Judge, a: Schema, b: Schema, v: Json)
    requires a.Node? && b.Node? && UnionsOk(fuel, root, judge, a, v) && UnionsOk(fuel, root, judge, b, v)
    ensures UnionsOk(fuel, root, judge, Merge(a, b), v)
  {
    var m := Merge(a, b);
    assert m.reference == a.reference || m.reference == b.reference;
    assert m.items == a.items || m.items == b.items;
    assert m.anyOf == a.anyOf || m.anyOf == b.anyOf;
    assert m.oneOf == a.oneOf || m.oneOf == b.oneOf;
    assert m.allOf == a.allOf || m.allOf == b.allOf;
  }

  /** Each union, reference and item schema of `s` is that of `m`, if there is one. */
  predicate PartOf(s: Schema, m: Schema)
    requires s.Node? && m.Node?
  {
    && (s.reference.Some? ==> s.reference == m.reference)
    && (s.items.Some? ==> s.items == m.items)
    && (s.anyOf.Branches? ==> s.anyOf == m.anyOf)
    && (s.oneOf.Branches? ==> s.oneOf == m.oneOf)
    && (s.allOf.Branches? ==> s.allOf == m.allOf)
  }

  lemma {:induction false} PartsOfMerged(a: Schema, b: Schema)
    requires a.Node? && b.Node? && Alike(a, b)
    ensures PartOf(a, Merge(a, b)) && PartOf(b, Merge(a, b))
  {
  }

  lemma {:induction false} PartUnions(fuel: nat, root: Document, judge: Judge, s: Schema, m: Schema, v: Json)
    requires s.Node? && m.Node? && PartOf(s, m) && UnionsOk(fuel, root, judge, m, v)
    ensures UnionsOk(fuel, root, judge, s, v)
  {
    assert s.reference == m.reference || s.reference.None?;
    assert s.items == m.items || s.items.None?;
    assert s.anyOf == m.anyOf || s.anyOf.NoUnion?;
    assert s.oneOf == m.oneOf || s.oneOf.NoUnion?;
    assert s.allOf == m.allOf || s.allOf.NoUnion?;
  }

  /** Where the two sides agree on the keywords and annotations they share, and no extra key of one is
      judged by the other, a value is valid for the merged node exactly when it is valid for both. */
  lemma {:induction false} MergingIsConjunction(fuel: nat, root: Document, judge: Judge, a: Schema, b: Schema, v: Json)
    requires a.Node? && b.Node? && Alike(a, b) && NotesAgree(a, b) && ExtrasAgree(a, b)
    ensures Valid(fuel, root, judge, Merge(a, b), v) <==>
            Valid(fuel, root, judge, a, v) && Valid(fuel, root, judge, b, v)
    ensures Merge(a, b).unknown == a.unknown + b.unknown
  {
    ValidInParts(fuel, root, judge, a, v);
    ValidInParts(fuel, root, judge, b, v);
    ValidInParts(fuel, root, judge, Merge(a, b), v);
    MergedNotes(judge, a, b, v);
    MergedValues(a, b, v);
    if UnionsOk(fuel, root, judge, Merge(a, b), v) {
      PartsOfMerged(a, b);
      PartUnions(fuel, root, judge, a, Merge(a, b), v);
      PartUnions(fuel, root, judge, b, Merge(a, b), v);
    }
    if UnionsOk(fuel, root, judge, a, v) && UnionsOk(fuel, root, judge, b, v) {
      MergedUnionsHold(fuel, root, judge, a, b, v);
    }
    MergedProperties(fuel, root, judge, a, b, v);
    MergedExtras(fuel, root, judge, a, b, v);
  }

  /** Taking a union out of a node leaves exactly the other keywords. */
  lemma {:induction false} SiblingsAndUnion(fuel: nat, root: Document, judge: Judge,
                                            s: Schema, kind: UnionKind, v: Json)
    requires s.Node?
    ensures Valid(fuel, root, judge, s, v) <==>
            && Valid(fuel, root, judge, Siblings(s, kind), v)
            && (match kind
                case AnyOf => AnyOk(fuel, root, judge, s.anyOf, v)
                case OneOf => OneOk(fuel, root, judge, s.oneOf, v)
                case AllOf => AllOk(fuel, root, judge, s.allOf, v))
    ensures UnionOf(Siblings(s, kind), kind).NoUnion? && Siblings(s, kind).unknown == s.unknown
  {
  }
}
