/** What a field path selects, said as a relation over the schema: no guard, no chasing loop and no
    intermediate answers. */
module SchemaPaths {
  import opened Wrappers
  import opened JsonValues
  import JsonPointer
  import opened SchemaField

  /** A chain of object members from `node` to `target`, one for each key. */
  ghost predicate Selects(node: Json, keys: seq<string>, target: Json) {
    exists chain: seq<Json> :: MemberChain(chain, node, keys, target)
  }

  predicate MemberChain(chain: seq<Json>, node: Json, keys: seq<string>, target: Json) {
    && |chain| == |keys| + 1 && chain[0] == node && chain[|keys|] == target
    && forall k :: 0 <= k < |keys| ==>
         chain[k].Obj? && keys[k] in chain[k].fields && chain[k + 1] == chain[k].fields[keys[k]]
  }

  /** One turn: the other branch of a two-branch union with `{"type": "null"}`, or else what a local
      reference selects in the whole schema. */
  ghost predicate Reduces(root: Json, node: Json, next: Json) {
    && node.Obj?
    && if "anyOf" in node.fields then
         var nullSchema := Obj(map["type" := Str("null")]);
         && next != nullSchema
         && (node.fields["anyOf"] == Arr([next, nullSchema]) || node.fields["anyOf"] == Arr([nullSchema, next]))
       else
         && "$ref" in node.fields && node.fields["$ref"].Str? && "#/" <= node.fields["$ref"].text
         && Selects(root, JsonPointer.MapDecode(JsonPointer.Split(node.fields["$ref"].text[2..])), next)
  }

  /** Nothing to follow: an object without the two keys, or a list or text that does not contain them. */
  predicate Settled(node: Json) {
    match node
    case Obj(fields) => "$ref" !in fields && "anyOf" !in fields
    case Arr(items) => Str("$ref") !in items && Str("anyOf") !in items
    case Str(text) => forall k :: 0 <= k <= |text| ==> !("$ref" <= text[k..]) && !("anyOf" <= text[k..])
    case _ => false
  }

  ghost predicate Reaches(root: Json, node: Json, end: Json) {
    Settled(end) && exists turns: seq<Json> :: TurnChain(root, turns, node, end)
  }

  ghost predicate TurnChain(root: Json, turns: seq<Json>, node: Json, end: Json) {
    && turns != [] && turns[0] == node && turns[|turns| - 1] == end
    && forall k :: 0 <= k < |turns| - 1 ==> Reduces(root, turns[k], turns[k + 1])
  }

  /** The schema of one component: a list's elements, or the named property. */
  predicate Enters(node: Json, component: string, child: Json) {
    && node.Obj?
    && if component == "[]" then "items" in node.fields && child == node.fields["items"]
       else && "properties" in node.fields && node.fields["properties"].Obj?
            && component in node.fields["properties"].fields
            && child == node.fields["properties"].fields[component]
  }

  ghost predicate Leads(root: Json, node: Json, path: seq<string>, leaf: Json)
    decreases |path|
  {
    if path == [] then Reaches(root, node, leaf)
    else
      exists mid, child ::
        Reaches(root, node, mid) && Enters(mid, path[0], child) && Leads(root, child, path[1..], leaf)
  }

  // ---------- single turns ----------

  lemma {:induction false} WalkSelects(node: Json, keys: seq<string>, target: Json)
    requires Walk(node, keys) == Success(target)
    ensures Selects(node, keys, target)
  {
    if keys == [] {
      assert MemberChain([node], node, keys, target);
    } else {
      var child := node.fields[keys[0]];
      WalkSelects(child, keys[1..], target);
      var rest: seq<Json> :| MemberChain(rest, child, keys[1..], target);
      assert forall k :: 1 <= k < |keys| ==> keys[k] == keys[1..][k - 1] && ([node] + rest)[k] == rest[k - 1];
      assert MemberChain([node] + rest, node, keys, target);
    }
  }

  lemma {:induction false} ChainWalks(node: Json, keys: seq<string>, target: Json, chain: seq<Json>)
    requires MemberChain(chain, node, keys, target)
    ensures Walk(node, keys) == Success(target)
    decreases |keys|
  {
    if keys != [] {
      assert chain[0 + 1] == node.fields[keys[0]];
      ChainWalks(chain[1], keys[1..], target, chain[1..]);
    }
  }

  lemma {:induction false} WalkIff(node: Json, keys: seq<string>, target: Json)
    ensures Walk(node, keys) == Success(target) <==> Selects(node, keys, target)
  {
    if Walk(node, keys) == Success(target) {
      WalkSelects(node, keys, target);
    }
    if Selects(node, keys, target) {
      var chain: seq<Json> :| MemberChain(chain, node, keys, target);
      ChainWalks(node, keys, target, chain);
    }
  }

  lemma {:induction false} PairOfBranches(branches: seq<Json>, value: Json)
    requires |branches| == 2
    ensures NonNull(branches) == [value] <==>
            value != NULL_TYPE && (branches == [value, NULL_TYPE] || branches == [NULL_TYPE, value])
  {
    var first, second := branches[0], branches[1];
    assert branches == [first, second] && branches[1..] == [second] && [second][1..] == [];
    assert NonNull([second]) == if second == NULL_TYPE then [] else [second];
    if first == NULL_TYPE {
      assert NonNull(branches) == NonNull([second]);
      assert [second] == [value] <==> [second][0] == [value][0];
    } else {
      assert NonNull(branches) == [first] + NonNull([second]);
      if second == NULL_TYPE {
        assert [first] + [] == [first];
        assert [first] == [value] <==> [first][0] == [value][0];
      } else {
        assert |NonNull(branches)| == 2;
      }
    }
  }

  lemma {:induction false} UnionTurnIff(union: Json, next: Json)
    ensures LookUnion(union) == Into(next) <==>
            next != NULL_TYPE && (union == Arr([next, NULL_TYPE]) || union == Arr([NULL_TYPE, next]))
  {
    if union.Arr? && |union.items| == 2 {
      PairOfBranches(union.items, next);
    }
  }

  lemma {:induction false} SettledIff(root: Json, node: Json, end: Json)
    ensures TurnOf(root, node) == Halt(Success(end)) <==> node == end && Settled(node)
  {
    if Look(node).Follow? {
      LookStaysInside(node);
    }
  }

  lemma {:induction false} TurnIff(root: Json, node: Json, next: Json)
    ensures TurnOf(root, node) == Go(next) <==> Reduces(root, node, next)
  {
    if node.Obj? {
      if "anyOf" in node.fields {
        UnionTurnIff(node.fields["anyOf"], next);
      } else if Look(node).Follow? {
        WalkIff(root, JsonPointer.MapDecode(JsonPointer.Split(Look(node).reference[2..])), next);
      }
    }
  }

  // ---------- chasing ----------

  lemma {:induction false} HaltReaches(root: Json, node: Json, n: nat, end: Json)
    requires After(root, node, n) == Halt(Success(end))
    ensures Reaches(root, node, end)
    decreases n
  {
    SettledIff(root, node, end);
    match TurnOf(root, node)
    case Halt(_) =>
      assert TurnChain(root, [node], node, end);
    case Go(next) =>
      HaltReaches(root, next, n - 1, end);
      TurnIff(root, node, next);
      ReachesBefore(root, node, next, end);
  }

  lemma {:induction false} ReachesBefore(root: Json, node: Json, next: Json, end: Json)
    requires Reduces(root, node, next) && Reaches(root, next, end)
    ensures Reaches(root, node, end)
  {
    var turns: seq<Json> :| TurnChain(root, turns, next, end);
    var longer := [node] + turns;
    forall k | 0 <= k < |longer| - 1
      ensures Reduces(root, longer[k], longer[k + 1])
    {
      if k > 0 {
        assert longer[k] == turns[k - 1] && longer[k + 1] == turns[k - 1 + 1];
      }
    }
    assert TurnChain(root, longer, node, end);
  }

  lemma {:induction false} ChainHalts(root: Json, node: Json, turns: seq<Json>, end: Json)
    requires Settled(end) && TurnChain(root, turns, node, end)
    ensures After(root, node, |turns|) == Halt(Success(end))
    decreases |turns|
  {
    if |turns| == 1 {
      SettledIff(root, node, end);
    } else {
      assert Reduces(root, turns[0], turns[0 + 1]);
      TurnIff(root, node, turns[1]);
      forall k | 0 <= k < |turns[1..]| - 1
        ensures Reduces(root, turns[1..][k], turns[1..][k + 1])
      {
        assert turns[1..][k] == turns[k + 1] && turns[1..][k + 1] == turns[k + 1 + 1];
      }
      ChainHalts(root, turns[1], turns[1..], end);
    }
  }

  lemma {:induction false} HaltsAlike(root: Json, node: Json, m: nat, n: nat)
    requires After(root, node, m).Halt? && After(root, node, n).Halt?
    ensures After(root, node, m) == After(root, node, n)
    decreases m
  {
    if TurnOf(root, node).Go? {
      HaltsAlike(root, TurnOf(root, node).node, m - 1, n - 1);
    }
  }

  lemma {:induction false} ChaseIff(root: Json, node: Json, end: Json)
    requires Refs(node) <= Refs(root)
    ensures Chase(root, node, {}) == Success(end) <==> Reaches(root, node, end)
  {
    CycleCheckIsExact(root, node);
    if Chase(root, node, {}) == Success(end) {
      var n: nat :| After(root, node, n) == Halt(Success(end));
      HaltReaches(root, node, n, end);
    }
    if Reaches(root, node, end) {
      var turns: seq<Json> :| TurnChain(root, turns, node, end);
      ChainHalts(root, node, turns, end);
      assert !NeverEnds(root, node);
      var n: nat :| After(root, node, n) == Halt(Chase(root, node, {}));
      HaltsAlike(root, node, n, |turns|);
    }
  }

  // ---------- whole paths ----------

  lemma {:induction false} EntersIff(node: Json, component: string, child: Json)
    ensures Descend(node, component) == Success(child) <==> Enters(node, component, child)
  {
  }

  lemma {:induction false} FieldLeads(root: Json, node: Json, path: seq<string>, leaf: Json)
    requires Refs(node) <= Refs(root) && Field(root, node, path) == Success(leaf)
    ensures Leads(root, node, path, leaf)
    decreases |path|
  {
    ChaseStaysInside(root, node, {});
    var mid := Chase(root, node, {}).value;
    ChaseIff(root, node, mid);
    if path != [] {
      var child := Descend(mid, path[0]).value;
      DescendStaysInside(mid, path[0]);
      EntersIff(mid, path[0], child);
      FieldLeads(root, child, path[1..], leaf);
    }
  }

  lemma {:induction false} LeadsToField(root: Json, node: Json, path: seq<string>, leaf: Json)
    requires Refs(node) <= Refs(root) && Leads(root, node, path, leaf)
    ensures Field(root, node, path) == Success(leaf)
    decreases |path|
  {
    if path == [] {
      ChaseIff(root, node, leaf);
    } else {
      var mid, child :| Reaches(root, node, mid) && Enters(mid, path[0], child) && Leads(root, child, path[1..], leaf);
      ChaseIff(root, node, mid);
      ChaseStaysInside(root, node, {});
      EntersIff(mid, path[0], child);
      DescendStaysInside(mid, path[0]);
      LeadsToField(root, child, path[1..], leaf);
    }
  }

  /** A path selects a schema exactly when it leads there by the relation. */
  lemma {:induction false} FieldIff(root: Json, node: Json, path: seq<string>, leaf: Json)
    requires Refs(node) <= Refs(root)
    ensures Field(root, node, path) == Success(leaf) <==> Leads(root, node, path, leaf)
  {
    if Field(root, node, path) == Success(leaf) {
      FieldLeads(root, node, path, leaf);
    }
    if Leads(root, node, path, leaf) {
      LeadsToField(root, node, path, leaf);
    }
  }

  // ---------- wrapping a schema along a path ----------

  /** The smallest schema with `leaf` at the path. */
  function Wrap(path: seq<string>, leaf: Json): Json {
    if path == [] then leaf
    else if path[0] == "[]" then Obj(map["items" := Wrap(path[1..], leaf)])
    else Obj(map["properties" := Obj(map[path[0] := Wrap(path[1..], leaf)])])
  }

  lemma {:induction false} ReachesItself(root: Json, node: Json)
    requires Settled(node)
    ensures Reaches(root, node, node)
  {
    assert TurnChain(root, [node], node, node);
  }

  lemma {:induction false} WrappedLeads(root: Json, path: seq<string>, leaf: Json)
    requires Settled(leaf)
    ensures Leads(root, Wrap(path, leaf), path, leaf)
    decreases |path|
  {
    var node := Wrap(path, leaf);
    ReachesItself(root, node);
    if path != [] {
      WrappedLeads(root, path[1..], leaf);
      assert Enters(node, path[0], Wrap(path[1..], leaf));
    }
  }

  /** The field at the path a leaf was wrapped along is the leaf. */
  lemma {:induction false} WrappedFieldIsFound(path: seq<string>, leaf: Json)
    requires Settled(leaf)
    ensures Field(Wrap(path, leaf), Wrap(path, leaf), path) == Success(leaf)
  {
    var root := Wrap(path, leaf);
    WrappedLeads(root, path, leaf);
    FieldIff(root, root, path, leaf);
  }

  lemma {:induction false} LeadsBefore(root: Json, node: Json, next: Json, path: seq<string>, leaf: Json)
    requires Reduces(root, node, next) && Leads(root, next, path, leaf)
    ensures Leads(root, node, path, leaf)
  {
    if path == [] {
      ReachesBefore(root, node, next, leaf);
    } else {
      var mid, child :| Reaches(root, next, mid) && Enters(mid, path[0], child) && Leads(root, child, path[1..], leaf);
      ReachesBefore(root, node, next, mid);
    }
  }

  /** Making a schema nullable, with the null branch on either side, changes no path through it. */
  lemma {:induction false} NullableLeads(root: Json, node: Json, path: seq<string>, leaf: Json)
    requires node != Obj(map["type" := Str("null")]) && Leads(root, node, path, leaf)
    ensures
      var nullSchema := Obj(map["type" := Str("null")]);
      && Leads(root, Obj(map["anyOf" := Arr([node, nullSchema])]), path, leaf)
      && Leads(root, Obj(map["anyOf" := Arr([nullSchema, node])]), path, leaf)
  {
    var nullSchema := Obj(map["type" := Str("null")]);
    LeadsBefore(root, Obj(map["anyOf" := Arr([node, nullSchema])]), node, path, leaf);
    LeadsBefore(root, Obj(map["anyOf" := Arr([nullSchema, node])]), node, path, leaf);
  }

  /** Nor does moving it elsewhere in the document and referring to it by the escaped keys. */
  lemma {:induction false} ReferenceLeads(root: Json, keys: seq<string>, node: Json, path: seq<string>, leaf: Json)
    requires keys != [] && Selects(root, keys, node) && Leads(root, node, path, leaf)
    ensures Leads(root, Obj(map["$ref" := Str("#/" + JsonPointer.Join(JsonPointer.MapEscape(keys)))]), path, leaf)
  {
    var reference := "#/" + JsonPointer.Join(JsonPointer.MapEscape(keys));
    var start := Obj(map["$ref" := Str(reference)]);
    EscapedReferenceResolves(root, keys);
    WalkIff(root, keys, node);
    assert reference[..2] == "#/";
    assert TurnOf(root, start) == Go(node) by {
      assert Look(start) == Follow(reference);
    }
    TurnIff(root, start, node);
    LeadsBefore(root, start, node, path, leaf);
  }
}
