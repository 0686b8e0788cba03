/** The endpoint coverage ledger: the snapshot, the rules, the matrix they give and its totals. */
module Coverage {
  import opened Wrappers
  import opened Sorting
  import OperationText

  const DEPRECATED := "deprecated"
  const DEPRECATED_RULE := "pinned-deprecated-document"
  const ACTIVE_STATUSES := ["deferred", "edition_gated", "implemented", "intentionally_omitted", "superseded"]
  const SUMMARY_STATUSES :=
    ["implemented", "edition_gated", "deferred", "intentionally_omitted", "superseded", DEPRECATED]
  const HTTP_METHODS := ["DELETE", "GET", "PATCH", "POST", "PUT"]

  datatype Signature = Signature(document: string, verb: string, path: string)

  datatype Endpoint = Endpoint(document: string, verb: string, path: string, title: string, deprecated: bool)

  /** One entry of a rule's endpoint table; `text` is its "METHOD /route". */
  datatype Matcher = Matcher(document: string, text: string)
  {
    function Operation(): Option<(string, string)> {
      OperationText.SplitOnce(text)
    }
  }

  datatype RuleEntry = RuleEntry(
    id: string, status: string, family: string, capability: string, reason: string, endpoints: seq<Matcher>)

  datatype RulesDocument = RulesDocument(schemaVersion: Option<int>, rules: seq<RuleEntry>)

  datatype Rule = Rule(
    id: string, status: string, family: string, capability: string, reason: string, endpoints: seq<Signature>)

  datatype Row = Row(
    document: string, verb: string, path: string, status: string, family: string, capability: string,
    rule: string, reason: string)

  datatype Fault = BadRules | BadSnapshot | DuplicateDocuments | Uncovered | OutsideSnapshot | Ambiguous | UnusedRule

  predicate EndsWith(s: string, suffix: string) {
    |suffix| <= |s| && s[|s| - |suffix|..] == suffix
  }

  function SignatureOf(e: Endpoint): Signature {
    Signature(e.document, e.verb, e.path)
  }

  function SignatureLe(a: Signature, b: Signature): bool {
    if a.document != b.document then TextLe(a.document, b.document)
    else if a.verb != b.verb then TextLe(a.verb, b.verb)
    else TextLe(a.path, b.path)
  }

  // ---------- rules ----------

  predicate MatcherOk(m: Matcher) {
    && EndsWith(m.document, ".mdx")
    && m.Operation().Some? && m.Operation().value.0 in ["DELETE", "GET", "PATCH", "POST", "PUT"]
    && "/" <= m.Operation().value.1
  }

  function ToSignature(m: Matcher): Signature
    requires m.Operation().Some?
  {
    Signature(m.document, m.Operation().value.0, m.Operation().value.1)
  }

  predicate CitesReadOnly(rule: RuleEntry) {
    rule.status == "implemented" && (EndsWith(rule.capability, ".read") || EndsWith(rule.capability, ".list"))
  }

  /** Everything asked of a rule by itself, its endpoint table apart. */
  predicate HeaderOk(rule: RuleEntry, capabilities: map<string, bool>) {
    && rule.id != "" && rule.status != "" && rule.family != "" && rule.capability != "" && rule.reason != ""
    && rule.status in ["deferred", "edition_gated", "implemented", "intentionally_omitted", "superseded"]
    && rule.capability in capabilities
    && (rule.status == "implemented" ==> capabilities[rule.capability])
    && (rule.status in ["deferred", "edition_gated", "intentionally_omitted"] ==> !capabilities[rule.capability])
    && rule.endpoints != []
  }

  /** A rule that cites a read-only capability as implemented may only list reads. */
  predicate MatcherFits(rule: RuleEntry, m: Matcher) {
    MatcherOk(m) && (CitesReadOnly(rule) ==> m.Operation().value.0 == "GET")
  }

  predicate TableOk(rule: RuleEntry) {
    && (forall m :: m in rule.endpoints ==> MatcherFits(rule, m))
    && Sorted(Signatures(rule.endpoints), SignatureLe)
  }

  function Signatures(endpoints: seq<Matcher>): (r: seq<Signature>)
    ensures |r| == |endpoints|
    ensures forall k :: 0 <= k < |r| && endpoints[k].Operation().Some? ==> r[k] == ToSignature(endpoints[k])
  {
    seq(|endpoints|, k requires 0 <= k < |endpoints| =>
      if endpoints[k].Operation().Some? then ToSignature(endpoints[k]) else Signature("", "", ""))
  }

  function Normalize(rule: RuleEntry): Rule {
    Rule(rule.id, rule.status, rule.family, rule.capability, rule.reason, Signatures(rule.endpoints))
  }

  function NormalizeAll(entries: seq<RuleEntry>): (rules: seq<Rule>)
    ensures |rules| == |entries| && forall k :: 0 <= k < |rules| ==> rules[k] == Normalize(entries[k])
  {
    seq(|entries|, k requires 0 <= k < |entries| => Normalize(entries[k]))
  }

  ghost predicate DistinctIds(rules: seq<Rule>) {
    forall j, k :: 0 <= j < k < |rules| ==> rules[j].id != rules[k].id
  }

  /** No signature occurs twice, within one rule or across two. */
  ghost predicate DistinctSignatures(rules: seq<Rule>) {
    && (forall k :: 0 <= k < |rules| ==> Distinct(rules[k].endpoints))
    && (forall j, k :: 0 <= j < k < |rules| ==> forall s :: s in rules[j].endpoints ==> s !in rules[k].endpoints)
  }

  ghost predicate RulesOk(entries: seq<RuleEntry>, capabilities: map<string, bool>) {
    && entries != []
    && (forall k :: 0 <= k < |entries| ==> HeaderOk(entries[k], capabilities) && TableOk(entries[k]))
    && DistinctIds(NormalizeAll(entries)) && DistinctSignatures(NormalizeAll(entries))
  }

  ghost predicate TableFits(rule: RuleEntry, matchers: set<Signature>) {
    && TableOk(rule) && Distinct(Signatures(rule.endpoints))
    && forall s :: s in Signatures(rule.endpoints) ==> s !in matchers
  }

  /** What the loop over a table has checked and kept of the first `k` matchers. */
  ghost predicate TableChecked(rule: RuleEntry, matchers: set<Signature>, k: nat, order: seq<Signature>)
    requires k <= |rule.endpoints|
  {
    && order == Signatures(rule.endpoints)[..k]
    && (forall j :: 0 <= j < k ==> MatcherFits(rule, rule.endpoints[j]))
    && Distinct(order) && forall s :: s in order ==> s !in matchers
  }

  lemma {:induction false} SeenIsRepeated(signatures: seq<Signature>, k: nat)
    requires k < |signatures| && signatures[k] in signatures[..k]
    ensures !Distinct(signatures)
  {
    var j :| 0 <= j < k && signatures[..k][j] == signatures[k];
    assert signatures[j] == signatures[k];
  }

  /** A matcher that does not fit, or whose signature is taken, spoils the table. */
  lemma {:induction false} SpoiledTable(rule: RuleEntry, matchers: set<Signature>, k: nat)
    requires k < |rule.endpoints|
    requires var m := rule.endpoints[k];
             || !MatcherFits(rule, m)
             || ToSignature(m) in matchers || ToSignature(m) in Signatures(rule.endpoints)[..k]
    ensures !TableFits(rule, matchers)
  {
    var m, all := rule.endpoints[k], Signatures(rule.endpoints);
    assert m in rule.endpoints;
    if MatcherFits(rule, m) {
      assert all[k] == ToSignature(m) && all[k] in all;
      if ToSignature(m) in all[..k] {
        SeenIsRepeated(all, k);
      }
    }
  }

  lemma {:induction false} DistinctOneMore(order: seq<Signature>, signature: Signature)
    requires Distinct(order) && signature !in order
    ensures Distinct(order + [signature])
  {
  }

  lemma {:induction false} TableOneMore(rule: RuleEntry, matchers: set<Signature>, k: nat, order: seq<Signature>)
    requires k < |rule.endpoints| && TableChecked(rule, matchers, k, order)
    ensures
      var m := rule.endpoints[k];
      if MatcherFits(rule, m) && ToSignature(m) !in matchers && ToSignature(m) !in order
      then TableChecked(rule, matchers, k + 1, order + [ToSignature(m)])
      else !TableFits(rule, matchers)
  {
    var m, all := rule.endpoints[k], Signatures(rule.endpoints);
    if MatcherFits(rule, m) && ToSignature(m) !in matchers && ToSignature(m) !in order {
      assert all[..k + 1] == all[..k] + [ToSignature(m)];
      DistinctOneMore(order, ToSignature(m));
    } else {
      SpoiledTable(rule, matchers, k);
    }
  }

  lemma {:induction false} WholeTableChecked(rule: RuleEntry, matchers: set<Signature>, order: seq<Signature>)
    requires TableChecked(rule, matchers, |rule.endpoints|, order)
    ensures order == Signatures(rule.endpoints)
    ensures TableFits(rule, matchers) <==> Sorted(order, SignatureLe)
  {
    var all := Signatures(rule.endpoints);
    assert all[..|all|] == all;
  }

  /** One rule's table, against the matchers of the rules before it. */
  method ValidateTable(rule: RuleEntry, matchers: set<Signature>) returns (r: Result<seq<Signature>, Fault>)
    ensures r.Success? <==> TableFits(rule, matchers)
    ensures r.Success? ==> r.value == Signatures(rule.endpoints)
  {
    var order: seq<Signature> := [];
    for k := 0 to |rule.endpoints|
      invariant TableChecked(rule, matchers, k, order)
    {
      var m := rule.endpoints[k];
      TableOneMore(rule, matchers, k, order);
      var operation := OperationText.SplitOnce(m.text);
      if !EndsWith(m.document, ".mdx") || operation.None? {
        return Failure(BadRules);
      }
      var (verb, route) := operation.value;
      if verb !in HTTP_METHODS || !("/" <= route) {
        return Failure(BadRules);
      }
      if rule.status == "implemented" && verb != "GET"
         && (EndsWith(rule.capability, ".read") || EndsWith(rule.capability, ".list"))
      {
        return Failure(BadRules);
      }
      var matcher := Signature(m.document, verb, route);
      if matcher in matchers || matcher in order {
        return Failure(BadRules);
      }
      order := order + [matcher];
    }
    WholeTableChecked(rule, matchers, order);
    if !Sorted(order, SignatureLe) {
      return Failure(BadRules);
    }
    return Success(order);
  }

  /** Rule `k` has an id and signatures of its own among the rules up to it. */
  ghost predicate NewTo(rules: seq<Rule>, k: nat)
    requires k < |rules|
  {
    && (forall j :: 0 <= j < k ==> rules[j].id != rules[k].id)
    && Distinct(rules[k].endpoints)
    && forall j :: 0 <= j < k ==> forall s :: s in rules[j].endpoints ==> s !in rules[k].endpoints
  }

  ghost predicate EntryOk(entries: seq<RuleEntry>, capabilities: map<string, bool>, all: seq<Rule>, k: nat)
    requires k < |entries| == |all|
  {
    HeaderOk(entries[k], capabilities) && TableOk(entries[k]) && NewTo(all, k)
  }

  /** What the loop over the rules has checked of the first `k`. */
  ghost predicate CheckedUpTo(entries: seq<RuleEntry>, capabilities: map<string, bool>, all: seq<Rule>, k: nat)
    requires k <= |entries| == |all|
  {
    forall j: nat :: j < k ==> EntryOk(entries, capabilities, all, j)
  }

  lemma {:induction false} EachIsNew(rules: seq<Rule>)
    ensures DistinctIds(rules) && DistinctSignatures(rules) <==> forall k: nat :: k < |rules| ==> NewTo(rules, k)
  {
    if forall k: nat :: k < |rules| ==> NewTo(rules, k) {
      forall j, k | 0 <= j < k < |rules|
        ensures rules[j].id != rules[k].id && forall s :: s in rules[j].endpoints ==> s !in rules[k].endpoints
      {
        assert NewTo(rules, k);
      }
      forall k | 0 <= k < |rules|
        ensures Distinct(rules[k].endpoints)
      {
        assert NewTo(rules, k);
      }
    }
  }

  lemma {:induction false} RulesOkIsChecked(entries: seq<RuleEntry>, capabilities: map<string, bool>)
    ensures RulesOk(entries, capabilities) <==>
            entries != [] && CheckedUpTo(entries, capabilities, NormalizeAll(entries), |entries|)
  {
    var all := NormalizeAll(entries);
    EachIsNew(all);
    if CheckedUpTo(entries, capabilities, all, |entries|) {
      forall k: nat | k < |entries|
        ensures HeaderOk(entries[k], capabilities) && TableOk(entries[k]) && NewTo(all, k)
      {
        assert EntryOk(entries, capabilities, all, k);
      }
    }
  }

  /** The two sets hold exactly the ids and the signatures of the first `k` rules. */
  ghost predicate Remembers(rules: seq<Rule>, k: nat, identifiers: set<string>, matchers: set<Signature>)
    requires k <= |rules|
  {
    && (forall id :: id in identifiers <==> exists j :: 0 <= j < k && rules[j].id == id)
    && (forall s :: s in matchers <==> exists j :: 0 <= j < k && s in rules[j].endpoints)
  }

  lemma {:induction false} RememberOneMore(rules: seq<Rule>, k: nat, identifiers: set<string>, matchers: set<Signature>)
    requires k < |rules| && Remembers(rules, k, identifiers, matchers)
    ensures NewTo(rules, k) <==>
            && rules[k].id !in identifiers && Distinct(rules[k].endpoints)
            && forall s :: s in rules[k].endpoints ==> s !in matchers
    ensures Remembers(rules, k + 1, identifiers + {rules[k].id}, matchers + (set s | s in rules[k].endpoints))
  {
  }

  lemma {:induction false} EntryOkAsChecked(entries: seq<RuleEntry>, capabilities: map<string, bool>, k: nat,
                                            identifiers: set<string>, matchers: set<Signature>)
    requires k < |entries| && Remembers(NormalizeAll(entries), k, identifiers, matchers)
    ensures EntryOk(entries, capabilities, NormalizeAll(entries), k) <==>
            HeaderOk(entries[k], capabilities) && entries[k].id !in identifiers && TableFits(entries[k], matchers)
    ensures Remembers(NormalizeAll(entries), k + 1,
                      identifiers + {entries[k].id}, matchers + (set s | s in Signatures(entries[k].endpoints)))
  {
    RememberOneMore(NormalizeAll(entries), k, identifiers, matchers);
    assert NormalizeAll(entries)[k].endpoints == Signatures(entries[k].endpoints);
  }

  /** What the loop over the rules has checked, normalized and remembered of the first `k`. */
  ghost predicate Checked(entries: seq<RuleEntry>, capabilities: map<string, bool>, k: nat,
                          normalized: seq<Rule>, identifiers: set<string>, matchers: set<Signature>)
    requires k <= |entries|
  {
    && normalized == NormalizeAll(entries)[..k]
    && CheckedUpTo(entries, capabilities, NormalizeAll(entries), k)
    && Remembers(NormalizeAll(entries), k, identifiers, matchers)
  }

  /** One more rule is checked when it is in order by itself and new to what is remembered; otherwise
      the document is not in order. */
  lemma {:induction false} CheckOneMore(entries: seq<RuleEntry>, capabilities: map<string, bool>, k: nat,
                                        normalized: seq<Rule>, identifiers: set<string>, matchers: set<Signature>)
    requires k < |entries| && Checked(entries, capabilities, k, normalized, identifiers, matchers)
    ensures
      var rule := entries[k];
      if HeaderOk(rule, capabilities) && rule.id !in identifiers && TableFits(rule, matchers)
      then Checked(entries, capabilities, k + 1, normalized + [Normalize(rule)],
                   identifiers + {rule.id}, matchers + (set s | s in Signatures(rule.endpoints)))
      else !RulesOk(entries, capabilities)
  {
    var all := NormalizeAll(entries);
    EntryOkAsChecked(entries, capabilities, k, identifiers, matchers);
    assert all[..k + 1] == all[..k] + [Normalize(entries[k])];
    if RulesOk(entries, capabilities) {
      RulesOkIsChecked(entries, capabilities);
      assert EntryOk(entries, capabilities, all, k);
    }
  }

  lemma {:induction false} AllChecked(entries: seq<RuleEntry>, capabilities: map<string, bool>,
                                      normalized: seq<Rule>, identifiers: set<string>, matchers: set<Signature>)
    requires entries != [] && Checked(entries, capabilities, |entries|, normalized, identifiers, matchers)
    ensures RulesOk(entries, capabilities) && normalized == NormalizeAll(entries)
  {
    RulesOkIsChecked(entries, capabilities);
    assert NormalizeAll(entries)[..|entries|] == NormalizeAll(entries);
  }

  method ValidateRules(document: RulesDocument, capabilities: map<string, bool>) returns (r: Result<seq<Rule>, Fault>)
    ensures r.Success? <==> document.schemaVersion == Some(3) && RulesOk(document.rules, capabilities)
    ensures r.Success? ==> r.value == NormalizeAll(document.rules)
  {
    var entries := document.rules;
    if document.schemaVersion != Some(3) || entries == [] {
      return Failure(BadRules);
    }
    var normalized: seq<Rule> := [];
    var identifiers, matchers := {}, {};
    for k := 0 to |entries|
      invariant Checked(entries, capabilities, k, normalized, identifiers, matchers)
    {
      var rule := entries[k];
      CheckOneMore(entries, capabilities, k, normalized, identifiers, matchers);
      if rule.id == "" || rule.status == "" || rule.family == "" || rule.capability == "" || rule.reason == ""
         || rule.id in identifiers || rule.status !in ACTIVE_STATUSES || rule.capability !in capabilities
      {
        return Failure(BadRules);
      }
      if rule.status == "implemented" && !capabilities[rule.capability] {
        return Failure(BadRules);
      }
      if rule.status in {"deferred", "edition_gated", "intentionally_omitted"} && capabilities[rule.capability] {
        return Failure(BadRules);
      }
      if rule.endpoints == [] {
        return Failure(BadRules);
      }
      var table := ValidateTable(rule, matchers);
      if table.Failure? {
        return Failure(BadRules);
      }
      identifiers := identifiers + {rule.id};
      matchers := matchers + (set s | s in table.value);
      normalized := normalized + [Rule(rule.id, rule.status, rule.family, rule.capability, rule.reason, table.value)];
    }
    AllChecked(entries, capabilities, normalized, identifiers, matchers);
    return Success(normalized);
  }

  // ---------- the snapshot ----------

  datatype Counts = Counts(active: nat, deprecated: nat, topLevelCategories: nat, total: nat)

  datatype Source = Source(commit: string, docsRoot: string, repository: string, tag: string)

  datatype Snapshot = Snapshot(
    schemaVersion: int, targetVersion: string, endpoints: seq<Endpoint>, counts: Counts, source: Source)

  const DOCS_ROOT := "docs/api-reference/endpoints"
  const REPOSITORY := "https://github.com/Infisical/infisical"

  function Documents(endpoints: seq<Endpoint>): (r: seq<string>)
    ensures |r| == |endpoints| && forall k :: 0 <= k < |r| ==> r[k] == endpoints[k].document
  {
    seq(|endpoints|, k requires 0 <= k < |endpoints| => endpoints[k].document)
  }

  function ActiveCount(endpoints: seq<Endpoint>): (n: nat)
    ensures n <= |endpoints|
  {
    if endpoints == [] then 0 else (if endpoints[0].deprecated then 0 else 1) + ActiveCount(endpoints[1..])
  }

  /** The part of a document path before its first slash. */
  function Category(document: string): string {
    if document == "" || document[0] == '/' then "" else [document[0]] + Category(document[1..])
  }

  function Categories(endpoints: seq<Endpoint>): set<string> {
    set e | e in endpoints :: Category(e.document)
  }

  function CountsOf(endpoints: seq<Endpoint>): Counts {
    var active := ActiveCount(endpoints);
    Counts(active, |endpoints| - active, |Categories(endpoints)|, |endpoints|)
  }

  function SourceOf(version: string, commit: string): Source {
    Source(commit, DOCS_ROOT, REPOSITORY, "v" + version)
  }

  predicate EndpointOk(e: Endpoint) {
    && EndsWith(e.document, ".mdx") && e.verb in ["DELETE", "GET", "PATCH", "POST", "PUT"]
    && "/" <= e.path && e.title != ""
  }

  predicate SnapshotOk(s: Snapshot, version: string, commit: string) {
    && s.schemaVersion == 1 && s.targetVersion == version && s.endpoints != []
    && (forall e :: e in s.endpoints ==> EndpointOk(e))
    && Sorted(Documents(s.endpoints), TextLe) && Distinct(Documents(s.endpoints))
    && s.counts == CountsOf(s.endpoints) && s.source == SourceOf(version, commit)
  }

  /** The checks as they are made: the documents are collected, compared with their sorted
      arrangement, and their number with the number of different ones. */
  method ValidateSnapshot(s: Snapshot, version: string, commit: string) returns (r: Result<seq<Endpoint>, Fault>)
    ensures r == if SnapshotOk(s, version, commit) then Success(s.endpoints) else Failure(BadSnapshot)
  {
    if s.schemaVersion != 1 || s.targetVersion != version || s.endpoints == [] {
      return Failure(BadSnapshot);
    }
    var documents: seq<string> := [];
    for k := 0 to |s.endpoints|
      invariant documents == Documents(s.endpoints)[..k]
      invariant forall j :: 0 <= j < k ==> EndpointOk(s.endpoints[j])
    {
      var e := s.endpoints[k];
      if !EndsWith(e.document, ".mdx") || e.verb !in HTTP_METHODS || !("/" <= e.path) || e.title == "" {
        assert e in s.endpoints;
        return Failure(BadSnapshot);
      }
      documents := documents + [e.document];
    }
    assert documents == Documents(s.endpoints);
    TextOrder();
    SortedIsFixed(documents, TextLe);
    DistinctSize(documents);
    if documents != Sort(documents, TextLe) || |documents| != |set d | d in documents| {
      return Failure(BadSnapshot);
    }
    if s.counts != CountsOf(s.endpoints) || s.source != SourceOf(version, commit) {
      return Failure(BadSnapshot);
    }
    return Success(s.endpoints);
  }

  lemma {:induction false} DistinctHead(s: seq<string>)
    requires s != []
    ensures Distinct(s) <==> s[0] !in s[1..] && Distinct(s[1..])
    ensures (set x | x in s) == {s[0]} + (set x | x in s[1..])
  {
    var rest := s[1..];
    assert s == [s[0]] + rest;
    assert forall k :: 0 <= k < |rest| ==> rest[k] == s[k + 1];
    if s[0] in rest {
      var k :| 0 <= k < |rest| && rest[k] == s[0];
      assert s[k + 1] == s[0];
    }
  }

  lemma {:induction false} DistinctSize(s: seq<string>)
    ensures |set x | x in s| <= |s|
    ensures |set x | x in s| == |s| <==> Distinct(s)
  {
    if s != [] {
      DistinctSize(s[1..]);
      DistinctHead(s);
      var rest := set x | x in s[1..];
      assert s[0] in s[1..] ==> {s[0]} + rest == rest;
    }
  }

  function ByDocument(a: Endpoint, b: Endpoint): bool {
    TextLe(a.document, b.document)
  }

  method BuildSnapshot(found: seq<Endpoint>, version: string, commit: string) returns (r: Result<Snapshot, Fault>)
    ensures r.Success? <==> Distinct(Documents(found))
    ensures r.Success? ==>
              && multiset(r.value.endpoints) == multiset(found)
              && Sorted(Documents(r.value.endpoints), TextLe)
              && r.value == Snapshot(1, version, r.value.endpoints,
                                     CountsOf(r.value.endpoints), SourceOf(version, commit))
    ensures r.Success? ==>
              (SnapshotOk(r.value, version, commit) <==> found != [] && forall e :: e in found ==> EndpointOk(e))
  {
    var endpoints := Sort(found, ByDocument);
    var documents := Documents(endpoints);
    SortingDocuments(found);
    SameMembers(endpoints, found);
    DistinctSize(documents);
    if |documents| != |set d | d in documents| {
      return Failure(DuplicateDocuments);
    }
    return Success(Snapshot(1, version, endpoints, CountsOf(endpoints), SourceOf(version, commit)));
  }

  lemma {:induction false} DocumentOrder()
    ensures KeyOrder(ByDocument)
  {
    TextOrder();
    forall a: Endpoint, b: Endpoint, c: Endpoint | ByDocument(a, b) && ByDocument(b, c)
      ensures ByDocument(a, c)
    {
      TextLeTransitive(a.document, b.document, c.document);
    }
    forall a: Endpoint, b: Endpoint
      ensures ByDocument(a, b) || ByDocument(b, a)
    {
      TextLeTotal(a.document, b.document);
    }
  }

  lemma {:induction false} SortingDocuments(found: seq<Endpoint>)
    ensures
      var endpoints := Sort(found, ByDocument);
      && multiset(endpoints) == multiset(found) && |endpoints| == |found|
      && Sorted(Documents(endpoints), TextLe)
      && (Distinct(Documents(endpoints)) <==> Distinct(Documents(found)))
  {
    DocumentOrder();
    SortSorts(found, ByDocument);
    var endpoints := Sort(found, ByDocument);
    forall j, k | 0 <= j < k < |endpoints|
      ensures TextLe(Documents(endpoints)[j], Documents(endpoints)[k])
    {
      assert ByDocument(endpoints[j], endpoints[k]);
    }
    DocumentCounts(endpoints);
    DocumentCounts(found);
    SortKeepsDocuments(found);
    PermutationsAgreeOnDistinct(Documents(endpoints), Documents(found));
  }

  lemma {:induction false} SameMembers(a: seq<Endpoint>, b: seq<Endpoint>)
    requires multiset(a) == multiset(b)
    ensures forall e :: e in a <==> e in b
  {
    forall e
      ensures e in a <==> e in b
    {
      assert e in a <==> e in multiset(a);
      assert e in b <==> e in multiset(b);
    }
  }

  function DocumentBag(endpoints: seq<Endpoint>): multiset<string> {
    if endpoints == [] then multiset{} else multiset{endpoints[0].document} + DocumentBag(endpoints[1..])
  }

  lemma {:induction false} DocumentCounts(endpoints: seq<Endpoint>)
    ensures multiset(Documents(endpoints)) == DocumentBag(endpoints)
  {
    if endpoints != [] {
      DocumentCounts(endpoints[1..]);
      assert Documents(endpoints) == [endpoints[0].document] + Documents(endpoints[1..]);
    }
  }

  lemma {:induction false} InsertKeepsDocuments(x: Endpoint, s: seq<Endpoint>)
    ensures DocumentBag(Insert(x, s, ByDocument)) == DocumentBag(s) + multiset{x.document}
  {
    if s != [] && !ByDocument(x, s[0]) {
      InsertKeepsDocuments(x, s[1..]);
    } else {
      assert ([x] + s)[1..] == s;
    }
  }

  lemma {:induction false} SortKeepsDocuments(s: seq<Endpoint>)
    ensures DocumentBag(Sort(s, ByDocument)) == DocumentBag(s)
  {
    if s != [] {
      SortKeepsDocuments(s[1..]);
      InsertKeepsDocuments(s[0], Sort(s[1..], ByDocument));
    }
  }

  // ---------- the matrix ----------

  function Owners(signature: Signature, rules: seq<Rule>): (matches: seq<nat>)
    ensures forall n :: 0 <= n < |matches| ==> matches[n] < |rules| && signature in rules[matches[n]].endpoints
    ensures forall k: nat :: k < |rules| && signature in rules[k].endpoints ==> k in matches
    ensures forall m, n :: 0 <= m < n < |matches| ==> matches[m] < matches[n]
  {
    if rules == [] then []
    else
      var last := |rules| - 1;
      var before := Owners(signature, rules[..last]);
      if signature in rules[last].endpoints then before + [last] else before
  }

  function ActiveSignatures(endpoints: seq<Endpoint>): set<Signature> {
    set e | e in endpoints && !e.deprecated :: SignatureOf(e)
  }

  function RuleSignatures(rules: seq<Rule>): set<Signature> {
    set r, s | r in rules && s in r.endpoints :: s
  }

  function DeprecatedRow(e: Endpoint): Row {
    Row(e.document, e.verb, e.path, DEPRECATED, DEPRECATED, "", DEPRECATED_RULE,
        "Deprecated in the pinned Infisical documentation snapshot.")
  }

  function RuleRow(e: Endpoint, r: Rule): Row {
    Row(e.document, e.verb, e.path, r.status, r.family, r.capability, r.id, r.reason)
  }

  function Classify(e: Endpoint, rules: seq<Rule>): Result<Row, Fault> {
    if e.deprecated then Success(DeprecatedRow(e))
    else
      var owners := Owners(SignatureOf(e), rules);
      if owners == [] then Failure(Uncovered)
      else if |owners| != 1 then Failure(Ambiguous)
      else
        Success(RuleRow(e, rules[owners[0]]))
  }

  /** One endpoint: covered by no rule, by more than one, or by one, whose row it gets. */
  lemma {:induction false} ClassifyIsExact(e: Endpoint, rules: seq<Rule>)
    requires !e.deprecated
    ensures
      var signature := Signature(e.document, e.verb, e.path);
      var r := Classify(e, rules);
      && (r == Failure(Uncovered) <==> forall k: nat :: k < |rules| ==> signature !in rules[k].endpoints)
      && (r == Failure(Ambiguous) <==>
            exists j: nat, k: nat ::
              j < k < |rules| && signature in rules[j].endpoints && signature in rules[k].endpoints)
      && (r.Success? ==>
            exists k: nat :: k < |rules| && signature in rules[k].endpoints && r.value == RuleRow(e, rules[k]))
  {
    var owners := Owners(SignatureOf(e), rules);
    if 2 <= |owners| {
      assert owners[0] < owners[1] < |rules|;
    }
    if j: nat, k: nat :|
      j < k < |rules| && SignatureOf(e) in rules[j].endpoints && SignatureOf(e) in rules[k].endpoints
    {
      assert j in owners && k in owners;
    }
  }

  function ClassifyFirst(endpoints: seq<Endpoint>, rules: seq<Rule>, k: nat): (r: Result<seq<Row>, Fault>)
    requires k <= |endpoints|
    ensures r.Success? ==> |r.value| == k
  {
    if k == 0 then Success([])
    else
      match ClassifyFirst(endpoints, rules, k - 1)
      case Failure(fault) => Failure(fault)
      case Success(rows) =>
        match Classify(endpoints[k - 1], rules)
        case Failure(fault) => Failure(fault)
        case Success(row) => Success(rows + [row])
  }

  predicate Cited(id: string, rows: seq<Row>) {
    exists k :: 0 <= k < |rows| && rows[k].rule == id
  }

  predicate RuleUsed(rule: Rule, rows: seq<Row>) {
    Cited(rule.id, rows)
  }

  lemma {:induction false} CitedOneMore(rows: seq<Row>, row: Row)
    ensures forall id :: Cited(id, rows + [row]) <==> Cited(id, rows) || id == row.rule
  {
    var more := rows + [row];
    forall id
      ensures Cited(id, more) <==> Cited(id, rows) || id == row.rule
    {
      if Cited(id, rows) {
        var k :| 0 <= k < |rows| && rows[k].rule == id;
        assert more[k].rule == id;
      } else if id == row.rule {
        assert more[|rows|].rule == id;
      }
    }
  }

  /** The matrix, with the checks in the order they are made. */
  function Matrix(endpoints: seq<Endpoint>, rules: seq<Rule>): Result<seq<Row>, Fault> {
    var active, cited := ActiveSignatures(endpoints), RuleSignatures(rules);
    if active - cited != {} then Failure(Uncovered)
    else if cited - active != {} then Failure(OutsideSnapshot)
    else
      match ClassifyFirst(endpoints, rules, |endpoints|)
      case Failure(fault) => Failure(fault)
      case Success(rows) =>
        if exists rule :: rule in rules && !RuleUsed(rule, rows) then Failure(UnusedRule) else Success(rows)
  }

  lemma {:induction false} ClassifyFailureStays(endpoints: seq<Endpoint>, rules: seq<Rule>, j: nat, k: nat)
    requires j <= k <= |endpoints| && ClassifyFirst(endpoints, rules, j).Failure?
    ensures ClassifyFirst(endpoints, rules, k) == ClassifyFirst(endpoints, rules, j)
    decreases k - j
  {
    if j < k {
      ClassifyFailureStays(endpoints, rules, j, k - 1);
    }
  }

  method CoverageRows(endpoints: seq<Endpoint>, rules: seq<Rule>) returns (r: Result<seq<Row>, Fault>)
    ensures r == Matrix(endpoints, rules)
  {
    var active, cited := ActiveSignatures(endpoints), RuleSignatures(rules);
    if active - cited != {} {
      return Failure(Uncovered);
    }
    if cited - active != {} {
      return Failure(OutsideSnapshot);
    }
    var rows: seq<Row> := [];
    var used: multiset<string> := multiset{};
    for k := 0 to |endpoints|
      invariant ClassifyFirst(endpoints, rules, k) == Success(rows)
      invariant forall id :: 0 < used[id] <==> Cited(id, rows)
    {
      var row := Classify(endpoints[k], rules);
      assert row.Failure? ==> ClassifyFirst(endpoints, rules, k + 1) == Failure(row.error);
      if row.Failure? {
        ClassifyFailureStays(endpoints, rules, k + 1, |endpoints|);
        return Failure(row.error);
      }
      CitedOneMore(rows, row.value);
      used := used[row.value.rule := used[row.value.rule] + 1];
      rows := rows + [row.value];
    }
    if exists rule :: rule in rules && used[rule.id] == 0 {
      return Failure(UnusedRule);
    }
    return Success(rows);
  }

  /** What validated rules guarantee of their normalized form. */
  ghost predicate Ledger(rules: seq<Rule>) {
    && DistinctIds(rules) && DistinctSignatures(rules)
    && forall k :: 0 <= k < |rules| ==> rules[k].endpoints != [] && rules[k].status in ACTIVE_STATUSES
  }

  lemma {:induction false} ValidatedRulesAreALedger(entries: seq<RuleEntry>, capabilities: map<string, bool>)
    requires RulesOk(entries, capabilities)
    ensures Ledger(NormalizeAll(entries))
  {
    forall k | 0 <= k < |entries|
      ensures NormalizeAll(entries)[k].endpoints != []
    {
      assert HeaderOk(entries[k], capabilities);
    }
  }

  /** A covered signature has exactly one owner. */
  lemma {:induction false} OwnerIsUnique(signature: Signature, rules: seq<Rule>, k: nat)
    requires Ledger(rules) && k < |rules| && signature in rules[k].endpoints
    ensures Owners(signature, rules) == [k]
    ensures forall j: nat :: j < |rules| ==> (signature in rules[j].endpoints <==> j == k)
  {
    var owners := Owners(signature, rules);
    assert k in owners;
    forall j: nat | j < |rules| && j != k
      ensures signature !in rules[j].endpoints
    {
      if j < k {
        assert forall s :: s in rules[j].endpoints ==> s !in rules[k].endpoints;
      } else {
        assert forall s :: s in rules[k].endpoints ==> s !in rules[j].endpoints;
      }
    }
    assert forall n :: 0 <= n < |owners| ==> owners[n] == k;
    assert owners[0] == k && owners[|owners| - 1] == k;
    assert owners == [owners[0]];
  }

  /** Each row is its endpoint's, in order, column by column: fixed texts for a deprecated endpoint,
      and otherwise what the one rule says that lists the endpoint's signature. */
  ghost predicate RowFits(row: Row, e: Endpoint, rules: seq<Rule>) {
    && row.document == e.document && row.verb == e.verb && row.path == e.path
    && if e.deprecated then
         && row.status == "deprecated" && row.family == "deprecated" && row.capability == ""
         && row.rule == "pinned-deprecated-document"
         && row.reason == "Deprecated in the pinned Infisical documentation snapshot."
       else
         exists k: nat :: k < |rules|
           && row.status == rules[k].status && row.family == rules[k].family && row.capability == rules[k].capability
           && row.rule == rules[k].id && row.reason == rules[k].reason
           && forall j: nat :: j < |rules| ==>
                (Signature(e.document, e.verb, e.path) in rules[j].endpoints <==> j == k)
  }

  lemma {:induction false} NothingMissing(some: set<Signature>, others: set<Signature>)
    ensures some - others == {} <==> some <= others
  {
    if some - others == {} {
      forall s | s in some
        ensures s in others
      {
        assert s !in some - others;
      }
    }
  }

  /** For a ledger the matrix exists exactly when the active signatures are the rules' signatures; it
      then has one fitting row per endpoint, in order. When it does not exist, a signature is missing
      on one side: the ambiguity and unused-rule checks can never be what fails. */
  lemma {:induction false} MatrixIsAPartition(endpoints: seq<Endpoint>, rules: seq<Rule>)
    requires Ledger(rules)
    ensures
      var matrix := Matrix(endpoints, rules);
      && (matrix.Success? <==> ActiveSignatures(endpoints) == RuleSignatures(rules))
      && (matrix == Failure(Uncovered) <==> !(ActiveSignatures(endpoints) <= RuleSignatures(rules)))
      && (matrix.Failure? ==> matrix.error == Uncovered || matrix.error == OutsideSnapshot)
      && (matrix.Success? ==>
            && |matrix.value| == |endpoints|
            && (forall k :: 0 <= k < |endpoints| ==> RowFits(matrix.value[k], endpoints[k], rules))
            && (forall rule :: rule in rules ==> RuleUsed(rule, matrix.value)))
  {
    var active, cited := ActiveSignatures(endpoints), RuleSignatures(rules);
    NothingMissing(active, cited);
    if active - cited == {} && cited - active == {} {
      assert active == cited;
      RowsFit(endpoints, rules, |endpoints|);
      var rows := ClassifyFirst(endpoints, rules, |endpoints|).value;
      forall rule | rule in rules
        ensures RuleUsed(rule, rows)
      {
        var k :| 0 <= k < |rules| && rules[k] == rule;
        RuleHasRow(endpoints, rules, rows, k);
      }
    }
  }

  ghost predicate RowsFitUpTo(rows: Result<seq<Row>, Fault>, endpoints: seq<Endpoint>, rules: seq<Rule>, k: nat)
    requires k <= |endpoints|
  {
    rows.Success? && |rows.value| == k && forall j :: 0 <= j < k ==> RowFits(rows.value[j], endpoints[j], rules)
  }

  lemma {:induction false} FitsOneMore(rows: seq<Row>, endpoints: seq<Endpoint>, rules: seq<Rule>, k: nat, row: Row)
    requires k < |endpoints| && RowsFitUpTo(Success(rows), endpoints, rules, k) && RowFits(row, endpoints[k], rules)
    ensures RowsFitUpTo(Success(rows + [row]), endpoints, rules, k + 1)
  {
    forall j | 0 <= j < k + 1
      ensures RowFits((rows + [row])[j], endpoints[j], rules)
    {
    }
  }

  lemma {:induction false} RowsFit(endpoints: seq<Endpoint>, rules: seq<Rule>, k: nat)
    requires Ledger(rules) && ActiveSignatures(endpoints) == RuleSignatures(rules) && k <= |endpoints|
    ensures RowsFitUpTo(ClassifyFirst(endpoints, rules, k), endpoints, rules, k)
  {
    if k > 0 {
      RowsFit(endpoints, rules, k - 1);
      ClassifiedFits(endpoints, rules, endpoints[k - 1]);
      var before := ClassifyFirst(endpoints, rules, k - 1).value;
      FitsOneMore(before, endpoints, rules, k - 1, Classify(endpoints[k - 1], rules).value);
    }
  }

  lemma {:induction false} ClassifiedFits(endpoints: seq<Endpoint>, rules: seq<Rule>, e: Endpoint)
    requires Ledger(rules) && ActiveSignatures(endpoints) == RuleSignatures(rules) && e in endpoints
    ensures Classify(e, rules).Success? && RowFits(Classify(e, rules).value, e, rules)
  {
    ActiveHasOwner(endpoints, rules, e);
  }

  lemma {:induction false} SomeRuleOwns(endpoints: seq<Endpoint>, rules: seq<Rule>, e: Endpoint)
    requires ActiveSignatures(endpoints) == RuleSignatures(rules) && e in endpoints && !e.deprecated
    ensures exists k: nat :: k < |rules| && SignatureOf(e) in rules[k].endpoints
  {
    assert SignatureOf(e) in RuleSignatures(rules);
    var rule :| rule in rules && SignatureOf(e) in rule.endpoints;
    var k :| 0 <= k < |rules| && rules[k] == rule;
  }

  lemma {:induction false} OwnersRowFits(e: Endpoint, rules: seq<Rule>, k: nat)
    requires !e.deprecated && k < |rules|
    requires forall j: nat :: j < |rules| ==> (SignatureOf(e) in rules[j].endpoints <==> j == k)
    ensures RowFits(RuleRow(e, rules[k]), e, rules)
  {
    assert SignatureOf(e) == Signature(e.document, e.verb, e.path);
  }

  lemma {:induction false} ActiveHasOwner(endpoints: seq<Endpoint>, rules: seq<Rule>, e: Endpoint)
    requires Ledger(rules) && ActiveSignatures(endpoints) == RuleSignatures(rules) && e in endpoints
    ensures !e.deprecated ==>
              && |Owners(SignatureOf(e), rules)| == 1 && Owners(SignatureOf(e), rules)[0] < |rules|
              && RowFits(RuleRow(e, rules[Owners(SignatureOf(e), rules)[0]]), e, rules)
  {
    if !e.deprecated {
      SomeRuleOwns(endpoints, rules, e);
      var k: nat :| k < |rules| && SignatureOf(e) in rules[k].endpoints;
      OwnerIsUnique(SignatureOf(e), rules, k);
      OwnersRowFits(e, rules, k);
    }
  }

  lemma {:induction false} RuleHasRow(endpoints: seq<Endpoint>, rules: seq<Rule>, rows: seq<Row>, k: nat)
    requires Ledger(rules) && ActiveSignatures(endpoints) == RuleSignatures(rules) && k < |rules|
    requires |rows| == |endpoints| && forall j :: 0 <= j < |rows| ==> RowFits(rows[j], endpoints[j], rules)
    ensures Cited(rules[k].id, rows)
  {
    var signature := rules[k].endpoints[0];
    assert rules[k] in rules && signature in rules[k].endpoints;
    assert signature in RuleSignatures(rules);
    var e :| e in endpoints && !e.deprecated && SignatureOf(e) == signature;
    var j :| 0 <= j < |endpoints| && endpoints[j] == e;
    assert RowFits(rows[j], e, rules);
  }

  // ---------- the totals ----------

  function CategoryOf(row: Row): string {
    var category := Category(row.document);
    if category == DEPRECATED then "deprecated endpoint documents" else category
  }

  function Count(rows: seq<Row>, status: string): nat {
    if rows == [] then 0 else Count(rows[..|rows| - 1], status) + (if rows[|rows| - 1].status == status then 1 else 0)
  }

  function CountIn(rows: seq<Row>, category: string, status: string): nat {
    if rows == [] then 0
    else CountIn(rows[..|rows| - 1], category, status)
         + (if rows[|rows| - 1].status == status && CategoryOf(rows[|rows| - 1]) == category then 1 else 0)
  }

  function SumStatuses(counts: string -> nat, statuses: seq<string>): nat {
    if statuses == [] then 0 else counts(statuses[0]) + SumStatuses(counts, statuses[1..])
  }

  function SumCategories(rows: seq<Row>, categories: seq<string>, status: string): nat {
    if categories == [] then 0 else CountIn(rows, categories[0], status) + SumCategories(rows, categories[1..], status)
  }

  lemma {:induction false} EmptyCategories(categories: seq<string>, status: string)
    ensures SumCategories([], categories, status) == 0
  {
    if categories != [] {
      EmptyCategories(categories[1..], status);
    }
  }

  lemma {:induction false} OneMoreRow(rows: seq<Row>, row: Row, categories: seq<string>, status: string)
    requires Distinct(categories)
    ensures SumCategories(rows + [row], categories, status) ==
            SumCategories(rows, categories, status)
            + (if row.status == status && CategoryOf(row) in categories then 1 else 0)
  {
    if categories != [] {
      OneMoreRow(rows, row, categories[1..], status);
      assert (rows + [row])[..|rows|] == rows;
      assert categories == [categories[0]] + categories[1..];
      assert categories[0] !in categories[1..];
    }
  }

  /** Adding up a status over all categories gives its total. */
  lemma {:induction false} CategoriesAddUp(rows: seq<Row>, categories: seq<string>, status: string)
    requires Distinct(categories) && forall row :: row in rows ==> CategoryOf(row) in categories
    ensures SumCategories(rows, categories, status) == Count(rows, status)
  {
    if rows == [] {
      EmptyCategories(categories, status);
    } else {
      var init, last := rows[..|rows| - 1], rows[|rows| - 1];
      CategoriesAddUp(init, categories, status);
      OneMoreRow(init, last, categories, status);
      assert rows == init + [last] && last in rows;
    }
  }

  lemma {:induction false} OneMoreStatus(rows: seq<Row>, row: Row, statuses: seq<string>)
    requires Distinct(statuses)
    ensures SumStatuses(s => Count(rows + [row], s), statuses) ==
            SumStatuses(s => Count(rows, s), statuses) + (if row.status in statuses then 1 else 0)
  {
    if statuses != [] {
      OneMoreStatus(rows, row, statuses[1..]);
      assert (rows + [row])[..|rows|] == rows;
      assert statuses == [statuses[0]] + statuses[1..];
      assert statuses[0] !in statuses[1..];
    }
  }

  lemma {:induction false} NoRowsNoStatus(statuses: seq<string>)
    ensures SumStatuses(s => Count([], s), statuses) == 0
  {
    if statuses != [] {
      NoRowsNoStatus(statuses[1..]);
    }
  }

  lemma {:induction false} StatusesAddUp(rows: seq<Row>, statuses: seq<string>)
    requires Distinct(statuses) && forall row :: row in rows ==> row.status in statuses
    ensures SumStatuses(s => Count(rows, s), statuses) == |rows|
  {
    if rows == [] {
      NoRowsNoStatus(statuses);
    } else {
      var init, last := rows[..|rows| - 1], rows[|rows| - 1];
      StatusesAddUp(init, statuses);
      OneMoreStatus(init, last, statuses);
      assert rows == init + [last] && last in rows;
    }
  }

  /** The summary table: one counter per category and status, and one per status overall. */
  method Summarize(rows: seq<Row>) returns (byCategory: map<(string, string), nat>, totals: map<string, nat>)
    ensures forall c, s :: (if (c, s) in byCategory then byCategory[(c, s)] else 0) == CountIn(rows, c, s)
    ensures forall s :: (if s in totals then totals[s] else 0) == Count(rows, s)
  {
    byCategory, totals := map[], map[];
    for k := 0 to |rows|
      invariant forall c, s :: (if (c, s) in byCategory then byCategory[(c, s)] else 0) == CountIn(rows[..k], c, s)
      invariant forall s :: (if s in totals then totals[s] else 0) == Count(rows[..k], s)
    {
      var key := (CategoryOf(rows[k]), rows[k].status);
      byCategory := byCategory[key := (if key in byCategory then byCategory[key] else 0) + 1];
      totals := totals[rows[k].status := (if rows[k].status in totals then totals[rows[k].status] else 0) + 1];
      assert rows[..k + 1][..k] == rows[..k] && rows[..k + 1][k] == rows[k];
    }
    assert rows[..|rows|] == rows;
  }

  /** Every row of a matrix has one of the six summary statuses, so the summary's totals add up to
      the number of endpoints, by status and by category. */
  lemma {:induction false} TotalsAddUp(endpoints: seq<Endpoint>, rules: seq<Rule>, rows: seq<Row>,
                                       categories: seq<string>)
    requires Ledger(rules) && |rows| == |endpoints|
    requires forall k :: 0 <= k < |rows| ==> RowFits(rows[k], endpoints[k], rules)
    requires Distinct(categories) && forall row :: row in rows ==> CategoryOf(row) in categories
    ensures SumStatuses(s => Count(rows, s), SUMMARY_STATUSES) == |endpoints|
    ensures SumStatuses(s => SumCategories(rows, categories, s), SUMMARY_STATUSES) == |endpoints|
  {
    forall row | row in rows
      ensures row.status in SUMMARY_STATUSES
    {
      var k :| 0 <= k < |rows| && rows[k] == row;
      assert RowFits(rows[k], endpoints[k], rules);
      ActiveStatusesAreSummarized(row.status);
    }
    SummaryStatusesDiffer();
    StatusesAddUp(rows, SUMMARY_STATUSES);
    forall s
      ensures SumCategories(rows, categories, s) == Count(rows, s)
    {
      CategoriesAddUp(rows, categories, s);
    }
    SameSums(s => Count(rows, s), s => SumCategories(rows, categories, s), SUMMARY_STATUSES);
  }

  lemma {:induction false} SameSums(f: string -> nat, g: string -> nat, statuses: seq<string>)
    requires forall s :: f(s) == g(s)
    ensures SumStatuses(f, statuses) == SumStatuses(g, statuses)
  {
    if statuses != [] {
      SameSums(f, g, statuses[1..]);
    }
  }

  lemma {:induction false} ActiveStatusesAreSummarized(status: string)
    ensures status in ACTIVE_STATUSES || status == DEPRECATED ==> status in SUMMARY_STATUSES
  {
  }

  lemma {:induction false} SummaryStatusesDiffer()
    ensures Distinct(SUMMARY_STATUSES)
  {
    assert "implemented"[1] == 'm' && "intentionally_omitted"[1] == 'n' && "edition_gated"[0] == 'e';
    assert "deferred"[2] == 'f' && "deprecated"[2] == 'p' && "superseded"[0] == 's';
  }
}
