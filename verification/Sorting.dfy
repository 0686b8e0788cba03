/** Sorted copies and what their neighbours say about the original list. */
module Sorting {
  /** Any two entries compare, and consistently; entries with equal keys need not be equal. */
  ghost predicate KeyOrder<T(!new)>(le: (T, T) -> bool) {
    && (forall a, b :: le(a, b) || le(b, a))
    && (forall a, b, c :: le(a, b) && le(b, c) ==> le(a, c))
  }

  ghost predicate TotalOrder<T(!new)>(le: (T, T) -> bool) {
    KeyOrder(le) && forall a, b :: le(a, b) && le(b, a) ==> a == b
  }

  predicate Sorted<T>(s: seq<T>, le: (T, T) -> bool) {
    forall j, k :: 0 <= j < k < |s| ==> le(s[j], s[k])
  }

  predicate Distinct<T(==)>(s: seq<T>) {
    forall j, k :: 0 <= j < k < |s| ==> s[j] != s[k]
  }

  /** Two equal entries next to each other. */
  predicate NeighboursEqual<T(==)>(s: seq<T>) {
    exists k :: 0 <= k < |s| - 1 && s[k] == s[k + 1]
  }

  function Insert<T>(x: T, s: seq<T>, le: (T, T) -> bool): seq<T> {
    if s == [] || le(x, s[0]) then [x] + s else [s[0]] + Insert(x, s[1..], le)
  }

  /** The arrangement the library's stable sort returns. */
  function Sort<T>(s: seq<T>, le: (T, T) -> bool): seq<T> {
    if s == [] then [] else Insert(s[0], Sort(s[1..], le), le)
  }

  lemma {:induction false} InsertKeepsElements<T>(x: T, s: seq<T>, le: (T, T) -> bool)
    ensures multiset(Insert(x, s, le)) == multiset(s) + multiset{x}
  {
    if s != [] && !le(x, s[0]) {
      InsertKeepsElements(x, s[1..], le);
      assert s == [s[0]] + s[1..];
    }
  }

  lemma {:induction false} InsertKeepsOrder<T(!new)>(x: T, s: seq<T>, le: (T, T) -> bool)
    requires KeyOrder(le) && Sorted(s, le)
    ensures Sorted(Insert(x, s, le), le)
  {
    if s != [] && !le(x, s[0]) {
      InsertKeepsOrder(x, s[1..], le);
      var rest := Insert(x, s[1..], le);
      InsertKeepsElements(x, s[1..], le);
      forall k | 0 <= k < |rest|
        ensures le(s[0], rest[k])
      {
        assert rest[k] in multiset(rest);
        assert rest[k] == x || rest[k] in s[1..];
      }
    }
  }

  lemma {:induction false} SortSorts<T(!new)>(s: seq<T>, le: (T, T) -> bool)
    requires KeyOrder(le)
    ensures Sorted(Sort(s, le), le) && multiset(Sort(s, le)) == multiset(s) && |Sort(s, le)| == |s|
  {
    if s != [] {
      SortSorts(s[1..], le);
      InsertKeepsOrder(s[0], Sort(s[1..], le), le);
      InsertKeepsElements(s[0], Sort(s[1..], le), le);
      assert s == [s[0]] + s[1..];
      assert |multiset(Sort(s, le))| == |Sort(s, le)| && |multiset(s)| == |s|;
    }
  }

  /** A list equals its sorted arrangement exactly when it is in order. */
  lemma {:induction false} SortedIsFixed<T(!new)>(s: seq<T>, le: (T, T) -> bool)
    requires KeyOrder(le)
    ensures Sort(s, le) == s <==> Sorted(s, le)
  {
    SortSorts(s, le);
    if s != [] && Sorted(s, le) {
      var rest := s[1..];
      SortedIsFixed(rest, le);
      assert rest != [] ==> le(s[0], rest[0]);
      assert Insert(s[0], rest, le) == [s[0]] + rest;
      assert s == [s[0]] + rest;
    }
  }

  lemma {:induction false} DistinctCounts<T(!new)>(s: seq<T>)
    ensures Distinct(s) <==> forall x :: multiset(s)[x] <= 1
  {
    if s != [] {
      DistinctCounts(s[1..]);
      assert s == [s[0]] + s[1..];
      assert multiset(s) == multiset{s[0]} + multiset(s[1..]);
      if Distinct(s) {
        assert s[0] !in s[1..];
      } else if Distinct(s[1..]) {
        assert s[0] in s[1..];
        assert multiset(s)[s[0]] >= 2;
      } else {
        var x :| multiset(s[1..])[x] > 1;
        assert multiset(s)[x] > 1;
      }
    }
  }

  lemma {:induction false} PermutationsAgreeOnDistinct<T(!new)>(s: seq<T>, t: seq<T>)
    requires multiset(s) == multiset(t)
    ensures Distinct(s) <==> Distinct(t)
  {
    DistinctCounts(s);
    DistinctCounts(t);
  }

  /** In an ordered list, repeated entries are neighbours. */
  lemma {:induction false} SortedRepeatsAreNeighbours<T(!new)>(s: seq<T>, le: (T, T) -> bool)
    requires TotalOrder(le) && Sorted(s, le)
    ensures Distinct(s) <==> !NeighboursEqual(s)
  {
    if !Distinct(s) {
      var j, k :| 0 <= j < k < |s| && s[j] == s[k];
      assert le(s[j], s[j + 1]);
      assert j + 1 < k ==> le(s[j + 1], s[k]);
      assert s[j] == s[j + 1];
    }
  }

  /** Sorting and comparing neighbours decides pairwise distinctness, for lists of any length. */
  lemma {:induction false} NeighbourCheckIsExact<T(!new)>(s: seq<T>, le: (T, T) -> bool)
    requires TotalOrder(le)
    ensures NeighboursEqual(Sort(s, le)) <==> !Distinct(s)
  {
    SortSorts(s, le);
    SortedRepeatsAreNeighbours(Sort(s, le), le);
    PermutationsAgreeOnDistinct(s, Sort(s, le));
  }

  // ---------- two orders ----------

  predicate TextLe(a: string, b: string) {
    if a == "" then true
    else if b == "" then false
    else if a[0] == b[0] then TextLe(a[1..], b[1..])
    else a[0] < b[0]
  }

  lemma {:induction false} TextLeTotal(a: string, b: string)
    ensures TextLe(a, b) || TextLe(b, a)
    ensures TextLe(a, b) && TextLe(b, a) ==> a == b
  {
    if a != "" && b != "" && a[0] == b[0] {
      TextLeTotal(a[1..], b[1..]);
      assert a == [a[0]] + a[1..] && b == [b[0]] + b[1..];
    }
  }

  lemma {:induction false} TextLeTransitive(a: string, b: string, c: string)
    requires TextLe(a, b) && TextLe(b, c)
    ensures TextLe(a, c)
  {
    if a != "" && a[0] == b[0] == c[0] {
      TextLeTransitive(a[1..], b[1..], c[1..]);
    }
  }

  lemma {:induction false} TextOrder()
    ensures TotalOrder(TextLe)
  {
    forall a: string, b: string
      ensures TextLe(a, b) || TextLe(b, a)
      ensures TextLe(a, b) && TextLe(b, a) ==> a == b
    {
      TextLeTotal(a, b);
    }
    forall a: string, b: string, c: string | TextLe(a, b) && TextLe(b, c)
      ensures TextLe(a, c)
    {
      TextLeTransitive(a, b, c);
    }
  }

  predicate NumberLe(a: nat, b: nat) { a <= b }
}
