/** What the figures and orders of the coverage ledger mean, said of positions and characters. */
module CoverageFigures {
  import opened Sorting
  import opened Coverage

  /** The positions of a list that meet a condition, below `n`. */
  function Positions(n: nat, meets: nat -> bool): set<nat> {
    set k: nat | k < n && meets(k)
  }

  lemma {:induction false} OneMorePosition(n: nat, meets: nat -> bool)
    ensures |Positions(n + 1, meets)| == |Positions(n, meets)| + (if meets(n) then 1 else 0)
  {
    assert n !in Positions(n, meets);
    assert Positions(n + 1, meets) == Positions(n, meets) + (if meets(n) then {n} else {});
  }

  lemma {:induction false} SamePositions(n: nat, f: nat -> bool, g: nat -> bool)
    requires forall k: nat :: k < n ==> (f(k) <==> g(k))
    ensures Positions(n, f) == Positions(n, g)
  {
  }

  lemma {:induction false} ActiveOneMore(endpoints: seq<Endpoint>, e: Endpoint)
    ensures ActiveCount(endpoints + [e]) == ActiveCount(endpoints) + (if e.deprecated then 0 else 1)
  {
    if endpoints == [] {
      assert endpoints + [e] == [e] && [e][1..] == [];
    } else {
      assert (endpoints + [e])[1..] == endpoints[1..] + [e];
      ActiveOneMore(endpoints[1..], e);
    }
  }

  /** The active endpoints are the ones that are not deprecated, each counted once. */
  lemma {:induction false} ActiveCountIsExact(endpoints: seq<Endpoint>)
    ensures ActiveCount(endpoints) == |set k: nat | k < |endpoints| && !endpoints[k].deprecated|
  {
    var n := |endpoints|;
    var active := (k: nat) => k < |endpoints| && !endpoints[k].deprecated;
    assert (set k: nat | k < n && !endpoints[k].deprecated) == Positions(n, active);
    if n > 0 {
      var init := endpoints[..n - 1];
      assert endpoints == init + [endpoints[n - 1]];
      ActiveCountIsExact(init);
      ActiveOneMore(init, endpoints[n - 1]);
      assert (set k: nat | k < n - 1 && !init[k].deprecated) == Positions(n - 1, active);
      OneMorePosition(n - 1, active);
    }
  }

  /** A counter of the summary is the number of rows of that category and status. */
  lemma {:induction false} CountInIsExact(rows: seq<Row>, category: string, status: string)
    ensures CountIn(rows, category, status)
         == |set k: nat | k < |rows| && rows[k].status == status && CategoryOf(rows[k]) == category|
  {
    var n := |rows|;
    var counted := (k: nat) => k < |rows| && rows[k].status == status && CategoryOf(rows[k]) == category;
    assert (set k: nat | k < n && rows[k].status == status && CategoryOf(rows[k]) == category) == Positions(n, counted);
    if n > 0 {
      var init := rows[..n - 1];
      CountInIsExact(init, category, status);
      assert (set k: nat | k < n - 1 && init[k].status == status && CategoryOf(init[k]) == category)
          == Positions(n - 1, counted);
      OneMorePosition(n - 1, counted);
    }
  }

  /** And a total the number of rows of that status. */
  lemma {:induction false} CountIsExact(rows: seq<Row>, status: string)
    ensures Count(rows, status) == |set k: nat | k < |rows| && rows[k].status == status|
  {
    var n := |rows|;
    var counted := (k: nat) => k < |rows| && rows[k].status == status;
    assert (set k: nat | k < n && rows[k].status == status) == Positions(n, counted);
    if n > 0 {
      var init := rows[..n - 1];
      CountIsExact(init, status);
      assert (set k: nat | k < n - 1 && init[k].status == status) == Positions(n - 1, counted);
      OneMorePosition(n - 1, counted);
    }
  }

  /** The category of a document is all of it before the first slash. */
  lemma {:induction false} CategoryIff(document: string, category: string)
    ensures Category(document) == category <==>
            && '/' !in category
            && (document == category || (|category| < |document| && document[..|category| + 1] == category + "/"))
  {
    if document != "" {
      if document[0] == '/' {
        if category == "" {
          assert document[..1] == "/";
        } else if |category| < |document| && document[..|category| + 1] == category + "/" {
          assert (category + "/")[0] == category[0] == document[0];
        }
      } else if category != "" {
        var rest, tail := document[1..], category[1..];
        CategoryIff(rest, tail);
        assert category == [category[0]] + tail && document == [document[0]] + rest;
        if |category| < |document| {
          assert document[..|category| + 1] == [document[0]] + rest[..|tail| + 1];
          assert category + "/" == [category[0]] + (tail + "/");
        }
      } else {
        assert document[..1] == [document[0]] && category + "/" == "/";
      }
    }
  }

  lemma {:induction false} DeprecatedDocuments(document: string)
    ensures Category(document) == "deprecated" <==> document == "deprecated" || "deprecated/" <= document
  {
    CategoryIff(document, "deprecated");
    assert |"deprecated"| == 10 && "deprecated" + "/" == "deprecated/";
    assert forall k :: 0 <= k < 10 ==> "deprecated"[k] != '/';
    assert 10 < |document| && document[..11] == "deprecated/" <==> "deprecated/" <= document;
  }

  /** The summary's category of a row: the document's, save that deprecated documents are renamed. */
  lemma {:induction false} RowCategory(row: Row)
    ensures CategoryOf(row) == if row.document == "deprecated" || "deprecated/" <= row.document
                               then "deprecated endpoint documents" else Category(row.document)
  {
    DeprecatedDocuments(row.document);
  }

  /** The texts agree up to `k`, where the first has the smaller character. */
  ghost predicate LessAt(a: string, b: string, k: nat) {
    k < |a| && k < |b| && a[..k] == b[..k] && a[k] < b[k]
  }

  lemma {:induction false} LessAtTail(a: string, b: string, k: nat)
    requires a != "" && b != "" && a[0] == b[0]
    ensures LessAt(a[1..], b[1..], k) <==> LessAt(a, b, k + 1)
  {
    if k < |a| - 1 && k < |b| - 1 {
      assert a[..k + 1] == [a[0]] + a[1..][..k] && b[..k + 1] == [b[0]] + b[1..][..k];
    }
  }

  lemma {:induction false} LessAtHead(a: string, b: string, k: nat)
    requires LessAt(a, b, k) && 0 < k
    ensures a[0] == b[0]
  {
    assert a[..k][0] == b[..k][0];
  }

  /** A text ends with a suffix exactly when it is something followed by it. */
  lemma {:induction false} EndsWithIff(s: string, suffix: string)
    ensures EndsWith(s, suffix) <==> exists front :: s == front + suffix
  {
    if EndsWith(s, suffix) {
      assert s == s[..|s| - |suffix|] + suffix;
    }
  }

  /** Texts compare at the first character where they differ, a prefix being smaller. */
  lemma {:induction false} TextLeIff(a: string, b: string)
    ensures TextLe(a, b) <==> a <= b || exists k: nat :: LessAt(a, b, k)
  {
    if a != "" && b != "" {
      assert a == [a[0]] + a[1..] && b == [b[0]] + b[1..];
      if a[0] == b[0] {
        TextLeIff(a[1..], b[1..]);
        assert a <= b <==> a[1..] <= b[1..];
        if k: nat :| LessAt(a[1..], b[1..], k) {
          LessAtTail(a, b, k);
        }
        if k: nat :| LessAt(a, b, k) {
          LessAtTail(a, b, k - 1);
        }
      } else {
        if a[0] < b[0] {
          assert LessAt(a, b, 0);
        }
        if k: nat :| LessAt(a, b, k) && 0 < k {
          LessAtHead(a, b, k);
        }
      }
    }
  }

  /** The counts and the source a snapshot has to state. */
  lemma {:induction false} SnapshotFigures(endpoints: seq<Endpoint>, version: string, commit: string)
    ensures
      var counts := CountsOf(endpoints);
      && counts.total == |endpoints|
      && counts.active == |set k: nat | k < |endpoints| && !endpoints[k].deprecated|
      && counts.active + counts.deprecated == |endpoints|
      && counts.topLevelCategories == |set k | 0 <= k < |endpoints| :: Category(endpoints[k].document)|
    ensures SourceOf(version, commit)
         == Source(commit, "docs/api-reference/endpoints", "https://github.com/Infisical/infisical", "v" + version)
  {
    ActiveCountIsExact(endpoints);
    assert Categories(endpoints) == set k | 0 <= k < |endpoints| :: Category(endpoints[k].document);
  }
}
