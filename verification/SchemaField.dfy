/** Following a field path through an exported schema, chasing references and nullable unions. */
module SchemaField {
  import opened Wrappers
  import opened JsonValues
  import JsonPointer

  datatype Fault = TypeFault | MissingKey | AmbiguousUnion | UnsupportedReference | CyclicReference

  /** What the loop does at a node: leave it, enter a union branch, follow a reference, or fail. */
  datatype Move = Stay | Into(branch: Json) | Follow(reference: string) | Stuck(fault: Fault)

  const NULL_TYPE := Obj(map["type" := Str("null")])

  predicate Occurs(pattern: string, text: string) {
    exists k :: 0 <= k <= |text| && pattern <= text[k..]
  }

  /** Membership of a key as the scripting language decides it for each kind of value. */
  function Mentions(node: Json, key: string): Option<bool> {
    match node
    case Obj(fields) => Some(key in fields)
    case Arr(items) => Some(Str(key) in items)
    case Str(text) => Some(Occurs(key, text))
    case _ => None
  }

  function NonNull(branches: seq<Json>): (values: seq<Json>)
    ensures forall v :: v in values ==> v in branches
  {
    if branches == [] then []
    else (if branches[0] == NULL_TYPE then [] else [branches[0]]) + NonNull(branches[1..])
  }

  function LookUnion(union: Json): Move {
    match union
    case Arr(branches) =>
      var values := NonNull(branches);
      if |branches| != 2 || |values| != 1 then Stuck(AmbiguousUnion) else Into(values[0])
    case Str(_) => Stuck(AmbiguousUnion)
    case Obj(_) => Stuck(AmbiguousUnion)
    case _ => Stuck(TypeFault)
  }

  function Look(node: Json): Move {
    var byReference, byUnion := Mentions(node, "$ref"), Mentions(node, "anyOf");
    if byReference.None? then Stuck(TypeFault)
    else if byReference == Some(false) && byUnion == Some(false) then Stay
    else if !node.Obj? then Stuck(TypeFault)
    else if "anyOf" in node.fields then LookUnion(node.fields["anyOf"])
    else if !node.fields["$ref"].Str? || !("#/" <= node.fields["$ref"].text) then Stuck(UnsupportedReference)
    else Follow(node.fields["$ref"].text)
  }

  function Child(node: Json, key: string): Result<Json, Fault> {
    if !node.Obj? then Failure(TypeFault)
    else if key !in node.fields then Failure(MissingKey)
    else Success(node.fields[key])
  }

  function Walk(node: Json, keys: seq<string>): Result<Json, Fault> {
    if keys == [] then Success(node)
    else
      match Child(node, keys[0])
      case Success(child) => Walk(child, keys[1..])
      case Failure(fault) => Failure(fault)
  }

  function Resolve(root: Json, reference: string): Result<Json, Fault>
    requires "#/" <= reference
  {
    Walk(root, JsonPointer.MapDecode(JsonPointer.Split(reference[2..])))
  }

  /** Every reference text that occurs anywhere in a value. */
  ghost function Refs(node: Json): set<string> {
    match node
    case Obj(fields) =>
      (if "$ref" in fields && fields["$ref"].Str? then {fields["$ref"].text} else {}) +
      (set key, r | key in fields && r in Refs(fields[key]) :: r)
    case Arr(items) => set k, r | 0 <= k < |items| && r in Refs(items[k]) :: r
    case _ => {}
  }

  lemma {:induction false} WalkStaysInside(node: Json, keys: seq<string>)
    ensures Walk(node, keys).Success? ==> Refs(Walk(node, keys).value) <= Refs(node)
  {
    if keys != [] && Child(node, keys[0]).Success? {
      WalkStaysInside(node.fields[keys[0]], keys[1..]);
    }
  }

  lemma {:induction false} LookStaysInside(node: Json)
    ensures Look(node).Into? ==> Refs(Look(node).branch) <= Refs(node) && Look(node).branch < node
    ensures Look(node).Follow? ==> Look(node).reference in Refs(node) && "#/" <= Look(node).reference
  {
    if Look(node).Into? {
      var union := node.fields["anyOf"];
      assert Look(node).branch in union.items;
      assert Refs(union) <= Refs(node);
    }
  }

  /** The loop for one path component: reference and union chasing, guarded by the references seen. */
  ghost function Chase(root: Json, node: Json, seen: set<string>): Result<Json, Fault>
    requires Refs(node) <= Refs(root)
    decreases Refs(root) - seen, node
  {
    LookStaysInside(node);
    match Look(node)
    case Stay => Success(node)
    case Stuck(fault) => Failure(fault)
    case Into(branch) => Chase(root, branch, seen)
    case Follow(reference) =>
      if reference in seen then Failure(CyclicReference)
      else
        match Resolve(root, reference)
        case Failure(fault) => Failure(fault)
        case Success(target) =>
          WalkStaysInside(root, JsonPointer.MapDecode(JsonPointer.Split(reference[2..])));
          assert Refs(root) - (seen + {reference}) < Refs(root) - seen by {
            assert reference in Refs(root) - seen;
          }
          Chase(root, target, seen + {reference})
  }

  function Descend(node: Json, component: string): Result<Json, Fault> {
    if component == "[]" then Child(node, "items")
    else
      match Child(node, "properties")
      case Failure(fault) => Failure(fault)
      case Success(properties) => Child(properties, component)
  }

  lemma {:induction false} DescendStaysInside(node: Json, component: string)
    ensures Descend(node, component).Success? ==> Refs(Descend(node, component).value) <= Refs(node)
  {
    if Child(node, "properties").Success? {
      assert Refs(node.fields["properties"]) <= Refs(node);
    }
  }

  lemma {:induction false} ChaseStaysInside(root: Json, node: Json, seen: set<string>)
    requires Refs(node) <= Refs(root)
    ensures Chase(root, node, seen).Success? ==>
              Refs(Chase(root, node, seen).value) <= Refs(root) && Look(Chase(root, node, seen).value).Stay?
    decreases Refs(root) - seen, node
  {
    LookStaysInside(node);
    match Look(node)
    case Into(branch) => ChaseStaysInside(root, branch, seen);
    case Follow(reference) =>
      if reference !in seen && Resolve(root, reference).Success? {
        WalkStaysInside(root, JsonPointer.MapDecode(JsonPointer.Split(reference[2..])));
        assert reference in Refs(root) - seen;
        ChaseStaysInside(root, Resolve(root, reference).value, seen + {reference});
      }
    case _ =>
  }

  /** The field a path selects: chase, descend, chase again, component by component. */
  ghost function Field(root: Json, node: Json, path: seq<string>): Result<Json, Fault>
    requires Refs(node) <= Refs(root)
    decreases path
  {
    ChaseStaysInside(root, node, {});
    match Chase(root, node, {})
    case Failure(fault) => Failure(fault)
    case Success(found) =>
      if path == [] then Success(found)
      else
        DescendStaysInside(found, path[0]);
        match Descend(found, path[0])
        case Failure(fault) => Failure(fault)
        case Success(child) => Field(root, child, path[1..])
  }

  method ResolveReference(root: Json, reference: string) returns (r: Result<Json, Fault>)
    requires "#/" <= reference
    ensures r == Resolve(root, reference)
  {
    var keys := JsonPointer.MapDecode(JsonPointer.Split(reference[2..]));
    var node := root;
    for k := 0 to |keys|
      invariant Walk(node, keys[k..]) == Walk(root, keys)
    {
      assert keys[k..][0] == keys[k] && keys[k..][1..] == keys[k + 1..];
      var child := Child(node, keys[k]);
      if child.Failure? {
        return child;
      }
      node := child.value;
    }
    return Success(node);
  }

  /** The nested loops. Each guard turn either shrinks the node or uses up a reference of the
      document, so every finite document is handled, cyclic references included. */
  method SchemaFieldOf(root: Json, path: seq<string>) returns (r: Result<Json, Fault>)
    ensures r == Field(root, root, path)
  {
    var node := root;
    var k := 0;
    while true
      invariant 0 <= k <= |path|
      invariant Refs(node) <= Refs(root)
      invariant Field(root, node, path[k..]) == Field(root, root, path)
      decreases |path| - k
    {
      ghost var start := node;
      var seen := {};
      while true
        invariant Refs(node) <= Refs(root)
        invariant Chase(root, node, seen) == Chase(root, start, {})
        decreases Refs(root) - seen, node
      {
        LookStaysInside(node);
        var move := Look(node);
        if move.Stay? {
          break;
        }
        if move.Stuck? {
          return Failure(move.fault);
        }
        if move.Into? {
          node := move.branch;
          continue;
        }
        if move.reference in seen {
          return Failure(CyclicReference);
        }
        assert move.reference in Refs(root) - seen;
        seen := seen + {move.reference};
        var target := ResolveReference(root, move.reference);
        if target.Failure? {
          return target;
        }
        WalkStaysInside(root, JsonPointer.MapDecode(JsonPointer.Split(move.reference[2..])));
        node := target.value;
      }
      if k == |path| {
        return Success(node);
      }
      DescendStaysInside(node, path[k]);
      assert path[k..][0] == path[k] && path[k..][1..] == path[k + 1..];
      var child := Descend(node, path[k]);
      if child.Failure? {
        return child;
      }
      node := child.value;
      k := k + 1;
    }
  }

  // ---------- the guard against cycles is exact ----------

  datatype Turn = Halt(result: Result<Json, Fault>) | Go(node: Json)

  function TurnOf(root: Json, node: Json): Turn {
    match Look(node)
    case Stay => Halt(Success(node))
    case Stuck(fault) => Halt(Failure(fault))
    case Into(branch) => Go(branch)
    case Follow(reference) =>
      LookStaysInside(node);
      match Resolve(root, reference)
      case Failure(fault) => Halt(Failure(fault))
      case Success(target) => Go(target)
  }

  /** Where chasing without any guard is after `n` turns. */
  function After(root: Json, node: Json, n: nat): Turn
    decreases n
  {
    if n == 0 then Go(node)
    else
      match TurnOf(root, node)
      case Halt(result) => Halt(result)
      case Go(next) => After(root, next, n - 1)
  }

  lemma {:induction false} AfterComposes(root: Json, node: Json, m: nat, mid: Json, n: nat)
    requires After(root, node, m) == Go(mid)
    ensures After(root, node, m + n) == After(root, mid, n)
    decreases m
  {
    if m > 0 {
      AfterComposes(root, TurnOf(root, node).node, m - 1, mid, n);
    }
  }

  lemma {:induction false} PrefixesGo(root: Json, node: Json, m: nat, n: nat)
    requires m <= n && After(root, node, n).Go?
    ensures After(root, node, m).Go?
    decreases m
  {
    if 0 < m {
      PrefixesGo(root, TurnOf(root, node).node, m - 1, n - 1);
    }
  }

  lemma {:induction false} LoopsForever(root: Json, node: Json, period: nat, n: nat)
    requires 0 < period && After(root, node, period) == Go(node)
    ensures After(root, node, n).Go?
    decreases n
  {
    if n <= period {
      PrefixesGo(root, node, n, period);
    } else {
      AfterComposes(root, node, period, node, n - period);
      LoopsForever(root, node, period, n - period);
    }
  }

  /** Every reference in `seen` was followed on the way to `node`. */
  ghost predicate CameThrough(root: Json, seen: set<string>, node: Json) {
    forall r :: r in seen ==>
      && "#/" <= r && Resolve(root, r).Success?
      && exists k: nat :: After(root, Resolve(root, r).value, k) == Go(node)
  }

  lemma {:induction false} CameOneFurther(root: Json, seen: set<string>, node: Json, next: Json)
    requires CameThrough(root, seen, node) && TurnOf(root, node) == Go(next)
    ensures CameThrough(root, seen, next)
  {
    forall r | r in seen
      ensures exists k: nat :: After(root, Resolve(root, r).value, k) == Go(next)
    {
      var k: nat :| After(root, Resolve(root, r).value, k) == Go(node);
      AfterComposes(root, Resolve(root, r).value, k, node, 1);
      assert After(root, node, 1) == After(root, next, 0);
    }
  }

  lemma {:induction false} FollowedOneFurther(root: Json, seen: set<string>, node: Json, target: Json)
    requires CameThrough(root, seen, node) && Look(node).Follow? && TurnOf(root, node) == Go(target)
    ensures CameThrough(root, seen + {Look(node).reference}, target)
  {
    CameOneFurther(root, seen, node, target);
    assert After(root, target, 0) == Go(target);
  }

  ghost predicate NeverEnds(root: Json, node: Json) {
    forall n: nat :: After(root, node, n).Go?
  }

  /** Following a reference that led here leads here again. */
  lemma {:induction false} RevisitIsEndless(root: Json, node: Json, seen: set<string>)
    requires CameThrough(root, seen, node) && Look(node).Follow? && Look(node).reference in seen
    ensures NeverEnds(root, node)
  {
    var target := Resolve(root, Look(node).reference).value;
    var k: nat :| After(root, target, k) == Go(node);
    AfterComposes(root, target, k, node, 1);
    assert After(root, node, 1) == After(root, target, 0);
    forall n: nat
      ensures After(root, target, n).Go?
    {
      LoopsForever(root, target, k + 1, n);
    }
    EndlessBefore(root, node, target);
  }

  lemma {:induction false} RepeatMeansEndless(root: Json, node: Json, seen: set<string>)
    requires Refs(node) <= Refs(root) && CameThrough(root, seen, node)
    requires Chase(root, node, seen) == Failure(CyclicReference)
    ensures NeverEnds(root, node)
    decreases Refs(root) - seen, node
  {
    LookStaysInside(node);
    match Look(node) {
      case Stuck(_) =>
        LookNeverBlamesCycles(node);
      case Into(branch) =>
        CameOneFurther(root, seen, node, branch);
        RepeatMeansEndless(root, branch, seen);
        EndlessBefore(root, node, branch);
      case Follow(reference) =>
        if reference in seen {
          RevisitIsEndless(root, node, seen);
        } else {
          WalkNeverBlamesCycles(root, JsonPointer.MapDecode(JsonPointer.Split(reference[2..])));
          var target := Resolve(root, reference).value;
          WalkStaysInside(root, JsonPointer.MapDecode(JsonPointer.Split(reference[2..])));
          assert reference in Refs(root) - seen;
          FollowedOneFurther(root, seen, node, target);
          RepeatMeansEndless(root, target, seen + {reference});
          EndlessBefore(root, node, target);
        }
      case _ =>
    }
  }

  lemma {:induction false} EndlessBefore(root: Json, node: Json, next: Json)
    requires TurnOf(root, node) == Go(next) && NeverEnds(root, next)
    ensures NeverEnds(root, node)
  {
    forall n: nat
      ensures After(root, node, n).Go?
    {
      if n > 0 {
        assert After(root, next, n - 1).Go?;
      }
    }
  }

  lemma {:induction false} LookNeverBlamesCycles(node: Json)
    ensures Look(node) != Stuck(CyclicReference)
  {
  }

  lemma {:induction false} WalkNeverBlamesCycles(node: Json, keys: seq<string>)
    ensures Walk(node, keys) != Failure(CyclicReference)
  {
    if keys != [] && Child(node, keys[0]).Success? {
      WalkNeverBlamesCycles(node.fields[keys[0]], keys[1..]);
    }
  }

  lemma {:induction false} OtherwiseSameAnswer(root: Json, node: Json, seen: set<string>)
    requires Refs(node) <= Refs(root)
    requires Chase(root, node, seen) != Failure(CyclicReference)
    ensures exists n: nat :: After(root, node, n) == Halt(Chase(root, node, seen))
    decreases Refs(root) - seen, node
  {
    LookStaysInside(node);
    var result := Chase(root, node, seen);
    match TurnOf(root, node)
    case Halt(_) =>
      assert After(root, node, 1) == Halt(result);
    case Go(next) =>
      var more := if Look(node).Follow? then {Look(node).reference} else {};
      if Look(node).Follow? {
        WalkStaysInside(root, JsonPointer.MapDecode(JsonPointer.Split(Look(node).reference[2..])));
        assert Look(node).reference in Refs(root) - seen;
        assert Chase(root, next, seen + more) == result;
      } else {
        assert seen + more == seen;
      }
      OtherwiseSameAnswer(root, next, seen + more);
      var n: nat :| After(root, next, n) == Halt(result);
      assert After(root, node, n + 1) == Halt(result);
  }

  /** A repeated reference is reported exactly when chasing without the guard would never end; in
      every other case the guard is invisible. */
  lemma {:induction false} CycleCheckIsExact(root: Json, node: Json)
    requires Refs(node) <= Refs(root)
    ensures Chase(root, node, {}) == Failure(CyclicReference) <==> NeverEnds(root, node)
    ensures !NeverEnds(root, node) ==> exists n: nat :: After(root, node, n) == Halt(Chase(root, node, {}))
  {
    if Chase(root, node, {}) == Failure(CyclicReference) {
      RepeatMeansEndless(root, node, {});
    } else {
      OtherwiseSameAnswer(root, node, {});
    }
  }

  /** A reference written by escaping a list of keys resolves to what those keys select. */
  lemma {:induction false} EscapedReferenceResolves(root: Json, keys: seq<string>)
    requires keys != []
    ensures Resolve(root, "#/" + JsonPointer.Join(JsonPointer.MapEscape(keys))) == Walk(root, keys)
  {
    var pointer := JsonPointer.Join(JsonPointer.MapEscape(keys));
    assert ("#/" + pointer)[2..] == pointer;
    JsonPointer.PointerRoundTrip(keys);
  }
}
