/** When the renderer's reading of a reference is sound: it takes all that follows `#/$defs/` for one
    escaped key, while a pointer may be percent-escaped and may go on inside the definition. */
module TypeReferences {
  import opened Wrappers
  import opened JsonValues
  import opened JsonPointer
  import opened Fragments
  import opened SchemaModel
  import opened TypeCompiler
  import opened TypeSoundness

  const NUMBER_NODE := EMPTY.(kind := Some(Word("number")))
  const STRING_NODE := EMPTY.(kind := Some(Word("string")))

  function RefNode(token: string): Schema {
    EMPTY.(reference := Some(Text(LOCAL + token)))
  }

  // ---------- a schema in which given keys lead to a number ----------

  function Copies(s: Schema, n: nat): (list: seq<Schema>)
    ensures |list| == n && forall k :: 0 <= k < n ==> list[k] == s
  {
    seq(n, _ => s)
  }

  function UnionNode(keyword: string, list: seq<Schema>): Schema {
    if keyword == "anyOf" then EMPTY.(anyOf := Branches(list))
    else if keyword == "oneOf" then EMPTY.(oneOf := Branches(list))
    else EMPTY.(allOf := Branches(list))
  }

  function Build(path: seq<string>): (s: Schema)
    requires SchemaPath(path)
    ensures s.Node?
    decreases |path|
  {
    if path == [] then NUMBER_NODE
    else if path[0] == "items" then EMPTY.(kind := Some(Word("array")), items := Some(Build(path[1..])))
    else if path[0] == "additionalProperties" then
      EMPTY.(kind := Some(Word("object")), additional := Some(Build(path[1..])))
    else if path[0] == "properties" then
      EMPTY.(kind := Some(Word("object")), properties := Properties([Property(path[1], Build(path[2..]))]))
    else UnionNode(path[0], Copies(Build(path[2..]), Position(path[1]).value + 1))
  }

  lemma {:induction false} BuildLeads(path: seq<string>)
    requires SchemaPath(path)
    ensures Inside(Build(path), path) == Some(NUMBER_NODE)
    decreases |path|
  {
    if path == [] {
    } else if path[0] == "items" || path[0] == "additionalProperties" {
      BuildLeads(path[1..]);
      assert OneStep(Build(path), path[0]) == Some(Build(path[1..]));
    } else {
      BuildLeads(path[2..]);
      BuildTakesTwo(path);
    }
  }

  lemma {:induction false} BuildTakesTwo(path: seq<string>)
    requires 2 <= |path| && SchemaPath(path) && path[0] in ["properties", "anyOf", "oneOf", "allOf"]
    ensures OneStep(Build(path), path[0]).None?
    ensures TwoSteps(Build(path), path[0], path[1]) == Some(Build(path[2..]))
  {
    if path[0] == "properties" {
      var list := [Property(path[1], Build(path[2..]))];
      assert list[0].key == path[1];
    }
  }

  /** Branches without siblings are rendered as they are. */
  lemma {:induction false} NothingToMerge(s: Schema)
    requires s.Node?
    ensures Merge(EMPTY, s) == s && Compatible(EMPTY, s)
  {
    assert map[] + s.notes == s.notes && {} + s.unknown == s.unknown;
  }

  lemma {:induction false} CopiesRender(names: Names, keyword: string, s: Schema, n: nat, k: nat)
    requires s.Node? && Render(names, s).Success? && keyword in ["anyOf", "oneOf", "allOf"] && k <= n && 0 < n
    ensures
      var node := UnionNode(keyword, Copies(s, n));
      FirstUnion(node).Some? && RenderBranches(names, node, FirstUnion(node).value, k).Success?
    decreases n - k
  {
    var node := UnionNode(keyword, Copies(s, n));
    var kind := FirstUnion(node).value;
    assert Siblings(node, kind) == EMPTY && UnionOf(node, kind) == Branches(Copies(s, n));
    if k < n {
      NothingToMerge(s);
      MergedIsSmaller(node, kind, k);
      CopiesRender(names, keyword, s, n, k + 1);
    }
  }

  lemma {:induction false} UnionOfCopiesRenders(names: Names, keyword: string, s: Schema, n: nat)
    requires s.Node? && Render(names, s).Success? && keyword in ["anyOf", "oneOf", "allOf"] && 0 < n
    ensures Render(names, UnionNode(keyword, Copies(s, n))).Success?
  {
    CopiesRender(names, keyword, s, n, 0);
  }

  lemma {:induction false} UnionOfCopiesIsTame(keyword: string, s: Schema, n: nat)
    requires s.Node? && Tame(s) && keyword in ["anyOf", "oneOf", "allOf"]
    ensures Tame(UnionNode(keyword, Copies(s, n)))
  {
    var node := UnionNode(keyword, Copies(s, n));
    var kind := FirstUnion(node).value;
    assert Siblings(node, kind) == EMPTY;
    NothingToMerge(s);
    forall k | 0 <= k < n
      ensures (MergedIsSmaller(node, kind, k); Tame(Merge(Siblings(node, kind), UnionOf(node, kind).list[k])))
    {
    }
  }

  lemma {:induction false} BuildRenders(names: Names, path: seq<string>)
    requires SchemaPath(path)
    ensures Render(names, Build(path)).Success?
    decreases |path|
  {
    if path == [] {
    } else if path[0] == "items" {
      BuildRenders(names, path[1..]);
      assert RenderWord(names, Build(path)).Success?;
    } else if path[0] == "additionalProperties" {
      BuildRenders(names, path[1..]);
      AdditionalRenders(names, Build(path[1..]));
    } else if path[0] == "properties" {
      BuildRenders(names, path[2..]);
      PropertyRenders(names, path[1], Build(path[2..]));
    } else {
      BuildRenders(names, path[2..]);
      UnionOfCopiesRenders(names, path[0], Build(path[2..]), Position(path[1]).value + 1);
    }
  }

  lemma {:induction false} AdditionalRenders(names: Names, s: Schema)
    requires Render(names, s).Success?
    ensures Render(names, EMPTY.(kind := Some(Word("object")), additional := Some(s))).Success?
  {
    var node := EMPTY.(kind := Some(Word("object")), additional := Some(s));
    assert RenderFields(names, node.required, []) == Success([]);
    assert RenderObject(names, node).Success?;
  }

  lemma {:induction false} PropertyRenders(names: Names, key: string, s: Schema)
    requires Render(names, s).Success?
    ensures Render(names, EMPTY.(kind := Some(Word("object")), properties := Properties([Property(key, s)]))).Success?
  {
    var list := [Property(key, s)];
    var none: seq<Property> := [];
    var node := EMPTY.(kind := Some(Word("object")), properties := Properties(list));
    assert list[1..] == none && RenderFields(names, node.required, none) == Success([]);
    assert RenderFields(names, node.required, list).Success?;
    assert RenderObject(names, node).Success?;
  }

  lemma {:induction false} ItemsAreTame(s: Schema)
    requires Tame(s)
    ensures Tame(EMPTY.(kind := Some(Word("array")), items := Some(s)))
  {
  }

  lemma {:induction false} AdditionalIsTame(s: Schema)
    requires Tame(s)
    ensures Tame(EMPTY.(kind := Some(Word("object")), additional := Some(s)))
  {
  }

  lemma {:induction false} PropertyIsTame(key: string, s: Schema)
    requires Tame(s)
    ensures Tame(EMPTY.(kind := Some(Word("object")), properties := Properties([Property(key, s)])))
  {
  }

  lemma {:induction false} BuildIsTame(path: seq<string>)
    requires SchemaPath(path)
    ensures Tame(Build(path))
    decreases |path|
  {
    if path == [] {
    } else if path[0] == "items" {
      BuildIsTame(path[1..]);
      ItemsAreTame(Build(path[1..]));
    } else if path[0] == "additionalProperties" {
      BuildIsTame(path[1..]);
      AdditionalIsTame(Build(path[1..]));
    } else if path[0] == "properties" {
      BuildIsTame(path[2..]);
      PropertyIsTame(path[1], Build(path[2..]));
    } else {
      BuildIsTame(path[2..]);
      UnionOfCopiesIsTame(path[0], Build(path[2..]), Position(path[1]).value + 1);
    }
  }

  // ---------- a document on which an unsafe reference is misread ----------

  /** The JSON Pointer leads to a number inside the definition it enters, while the definition of the key
      the renderer makes of the whole token is a string. */
  function MisreadDocument(token: string): Document
    requires LeadsToSchema(token)
  {
    var keys := Pointer(LOCAL + token).value;
    Document([Definition(keys[1], Build(keys[2..])), Definition(Decode(token), STRING_NODE)], RefNode(token))
  }

  function MisreadContext(token: string, judge: Judge): Context
    requires LeadsToSchema(token)
  {
    var keys := Pointer(LOCAL + token).value;
    var names := Names(ExecutionError, [keys[1], Decode(token)]);
    BuildRenders(names, keys[2..]);
    Context(map[DefOf(ExecutionError, 0) := Render(names, Build(keys[2..])).value,
                DefOf(ExecutionError, 1) := StringType],
            names, MisreadDocument(token), judge)
  }

  lemma {:induction false} TwoDefinitionsAreDeclared(first: Definition, second: Definition, one: Ts, two: Ts)
    requires first.key != second.key
    requires Render(Names(ExecutionError, [first.key, second.key]), first.schema) == Success(one)
    requires Render(Names(ExecutionError, [first.key, second.key]), second.schema) == Success(two)
    ensures Declares(map[DefOf(ExecutionError, 0) := one, DefOf(ExecutionError, 1) := two],
                     Names(ExecutionError, [first.key, second.key]), [first, second])
  {
  }

  lemma {:induction false} StringIsTame()
    ensures Tame(STRING_NODE)
  {
  }

  lemma {:induction false} TwoTameDefinitions(c: Context)
    requires |c.root.defs| == 2 && Declares(c.env, c.names, c.root.defs)
    requires Tame(c.root.defs[0].schema) && Tame(c.root.defs[1].schema)
    ensures Good(c)
  {
  }

  lemma {:induction false} MisreadIsDeclared(token: string, judge: Judge)
    requires LeadsToSchema(token) && !PlainToken(token)
    ensures
      var c := MisreadContext(token, judge);
      Declares(c.env, c.names, c.root.defs)
  {
    OtherTokensAreMisread(token);
    var c := MisreadContext(token, judge);
    var path := Pointer(LOCAL + token).value[2..];
    BuildRenders(c.names, path);
    TwoDefinitionsAreDeclared(c.root.defs[0], c.root.defs[1], Render(c.names, Build(path)).value, StringType);
  }

  lemma {:induction false} MisreadIsTame(token: string)
    requires LeadsToSchema(token)
    ensures forall k :: 0 <= k < 2 ==> Tame(MisreadDocument(token).defs[k].schema)
  {
    BuildIsTame(Pointer(LOCAL + token).value[2..]);
    StringIsTame();
  }

  lemma {:induction false} MisreadContextIsGood(token: string, judge: Judge)
    requires LeadsToSchema(token) && !PlainToken(token)
    ensures Good(MisreadContext(token, judge))
  {
    MisreadIsDeclared(token, judge);
    MisreadIsTame(token);
    TwoTameDefinitions(MisreadContext(token, judge));
  }

  lemma {:induction false} MisreadTarget(token: string)
    requires LeadsToSchema(token) && !PlainToken(token)
    ensures Target(MisreadDocument(token), Text(LOCAL + token)) == Some(NUMBER_NODE)
  {
    OtherTokensAreMisread(token);
    var keys := Pointer(LOCAL + token).value;
    var defs := MisreadDocument(token).defs;
    assert defs[..1] == [defs[0]] && defs[1].key != keys[1];
    assert Find(defs[..1], keys[1]) == Some(0);
    assert Find(defs, keys[1]) == Some(0);
    BuildLeads(keys[2..]);
  }

  lemma {:induction false} MisreadNumberIsValid(token: string, judge: Judge)
    requires LeadsToSchema(token) && !PlainToken(token)
    ensures Valid(1, MisreadDocument(token), judge, RefNode(token), Num(5.0))
  {
    MisreadTarget(token);
    assert Valid(0, MisreadDocument(token), judge, NUMBER_NODE, Num(5.0));
    assert ReferenceOk(1, MisreadDocument(token), judge, RefNode(token).reference, Num(5.0));
  }

  lemma {:induction false} MisreadIsRenderedAsString(token: string, judge: Judge)
    requires LeadsToSchema(token) && !PlainToken(token)
    ensures Render(MisreadContext(token, judge).names, RefNode(token)) == Success(Named(DefOf(ExecutionError, 1)))
  {
    OtherTokensAreMisread(token);
    var names := MisreadContext(token, judge).names;
    assert (LOCAL + token)[|LOCAL|..] == token;
    assert names.keys[1] == Decode(token) && Decode(token) in names.keys;
    assert names.keys[1..][0] == Decode(token);
    assert FirstIndex(names.keys, Decode(token)) == 1;
  }

  /** On that document the valid number is not in the type of the reference. */
  lemma {:induction false} UnsafeReferenceIsMisread(token: string, judge: Judge)
    requires LeadsToSchema(token) && !PlainToken(token)
    ensures
      var c := MisreadContext(token, judge);
      && Good(c) && Render(c.names, RefNode(token)).Success?
      && Admitted(c, 1, RefNode(token), Num(5.0))
      && forall fuel: nat :: !Typed(c, fuel, RefNode(token), Num(5.0))
  {
    var c := MisreadContext(token, judge);
    MisreadContextIsGood(token, judge);
    MisreadNumberIsValid(token, judge);
    MisreadIsRenderedAsString(token, judge);
    forall fuel: nat
      ensures !Typed(c, fuel, RefNode(token), Num(5.0))
    {
      NumberIsNoString(fuel, c.env, DefOf(ExecutionError, 1));
    }
  }

  lemma {:induction false} NumberIsNoString(fuel: nat, env: map<TypeName, Ts>, name: TypeName)
    requires name in env && env[name] == StringType
    ensures !Inhabits(fuel, env, Named(name), Num(5.0))
  {
  }

  // ---------- the exact condition ----------

  /** The reference is soundly rendered in every document that renders. */
  ghost predicate AlwaysSound(token: string) {
    forall c: Context :: Good(c) && Render(c.names, RefNode(token)).Success? ==> SoundlyRendered(c, RefNode(token))
  }

  /** A reference into the definitions is soundly rendered in every document exactly when what follows
      `#/$defs/` is a single token in which every tilde starts an escape and no percent sign occurs, or
      leads to no schema in any document. */
  lemma {:induction false} ReferenceSoundIff(token: string)
    ensures AlwaysSound(token) <==> PlainToken(token) || !LeadsToSchema(token)
  {
    assert (LOCAL + token)[|LOCAL|..] == token;
    if PlainToken(token) || !LeadsToSchema(token) {
      forall c: Context | Good(c) && Render(c.names, RefNode(token)).Success?
        ensures SoundlyRendered(c, RefNode(token))
      {
        SafeReferenceIsSound(c, token);
      }
    } else {
      var judge: Judge := (key, note, value) => true;
      UnsafeReferenceIsMisread(token, judge);
      var c := MisreadContext(token, judge);
      assert Valid(1, c.root, judge, RefNode(token), Num(5.0));
      assert !Typed(c, 1, RefNode(token), Num(5.0));
      assert !SoundlyRendered(c, RefNode(token));
    }
  }

  lemma {:induction false} SafeReferenceIsSound(c: Context, token: string)
    requires Good(c) && Render(c.names, RefNode(token)).Success?
    requires SafelyRead(Text(LOCAL + token))
    ensures SoundlyRendered(c, RefNode(token))
  {
    forall judge: Judge, fuel: nat, v: Json | Valid(fuel, c.root, judge, RefNode(token), v)
      ensures Inhabits(fuel, c.env, Render(c.names, RefNode(token)).value, v)
    {
      Sound(c.(judge := judge), fuel, RefNode(token), v);
    }
  }

  const NUMBERS_NODE := EMPTY.(kind := Some(Word("array")), items := Some(NUMBER_NODE))

  /** An array of numbers named "a", a string named "a/items", and a reference `#/$defs/a/items`. */
  function NestedDocument(): Document {
    Document([Definition("a", NUMBERS_NODE), Definition("a/items", STRING_NODE)], RefNode("a/items"))
  }

  function NestedContext(judge: Judge): Context {
    Context(map[DefOf(ExecutionError, 0) := ArrayOf(NumberType), DefOf(ExecutionError, 1) := StringType],
            Names(ExecutionError, ["a", "a/items"]), NestedDocument(), judge)
  }

  lemma {:induction false} NumbersNode(names: Names)
    ensures SchemaPath(["items"]) && Build(["items"]) == NUMBERS_NODE
    ensures Render(names, NUMBERS_NODE) == Success(ArrayOf(NumberType))
  {
    var rest: seq<string> := [];
    assert ["items"][1..] == rest;
    assert RenderWord(names, NUMBER_NODE) == Success(NumberType);
    assert RenderWord(names, NUMBERS_NODE) == Success(ArrayOf(NumberType));
  }

  lemma {:induction false} NestedIsMisread(judge: Judge)
    ensures LeadsToSchema("a/items") && !PlainToken("a/items")
    ensures MisreadContext("a/items", judge) == NestedContext(judge)
  {
    NestedPointer("a", "items");
    assert "a" + ("/" + "items") == "a/items";
    assert ["$defs", "a", "items"][2..] == ["items"];
    NumbersNode(Names(ExecutionError, ["a", "a/items"]));
  }

  /** On it the number 5 is valid, as the items of "a" are numbers, but the type rendered is that of
      "a/items", a string. */
  lemma {:induction false} NestedReferenceIsMisread(judge: Judge)
    ensures
      var c := NestedContext(judge);
      && Good(c) && Render(c.names, RefNode("a/items")).Success?
      && Admitted(c, 1, RefNode("a/items"), Num(5.0))
      && forall fuel: nat :: !Typed(c, fuel, RefNode("a/items"), Num(5.0))
  {
    NestedIsMisread(judge);
    UnsafeReferenceIsMisread("a/items", judge);
  }

  lemma {:induction false} NestedPointer(a: string, b: string)
    requires forall k :: 0 <= k < |a| ==> a[k] !in "%~/"
    requires forall k :: 0 <= k < |b| ==> b[k] !in "%~/"
    ensures Pointer(LOCAL + (a + ("/" + b))) == Some(["$defs", a, b])
    ensures Decode(a + ("/" + b)) == a + ("/" + b) && !PlainToken(a + ("/" + b))
  {
    var token := a + ("/" + b);
    PointerOfLocal(token);
    NothingToDecode(token, "");
    assert token + "" == token;
    SplitAtSlash(a, b);
    SplitPlain(b);
    NothingToUnescape(a);
    NothingToUnescape(b);
    UnescapeTwo(a, b);
    assert [a] + [b] == [a, b] && ["$defs"] + [a, b] == ["$defs", a, b];
    DecodingStopsAtSlash(a, b);
    DecodeUnescapes(a);
    DecodeUnescapes(b);
    assert token[|a|] == '/';
    if PlainToken(token) {
      EscapedHasNoSlash(token);
    }
  }

  lemma {:induction false} UnescapeTwo(a: string, b: string)
    requires Unescape(a) == Some(a) && Unescape(b) == Some(b)
    ensures UnescapeAll([a, b]) == Some([a, b])
  {
    var none: seq<string> := [];
    assert [b][1..] == none && UnescapeAll(none) == Some(none);
    assert [b] + none == [b] && UnescapeAll([b]) == Some([b]);
    assert [a, b][1..] == [b] && [a] + [b] == [a, b];
  }
}
