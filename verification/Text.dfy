/** Character classes and searches of text, at the level of Unicode scalar values. */
module TextTools {
  import opened Wrappers

  predicate IsDigit(c: char) { '0' <= c <= '9' }

  predicate IsLower(c: char) { 'a' <= c <= 'z' }

  predicate IsUpper(c: char) { 'A' <= c <= 'Z' }

  predicate IsAlphanumeric(c: char) { IsDigit(c) || IsLower(c) || IsUpper(c) }

  predicate IsHexDigit(c: char) { IsDigit(c) || 'a' <= c <= 'f' || 'A' <= c <= 'F' }

  function DigitValue(c: char): (d: nat)
    requires IsHexDigit(c)
    ensures d < 16
  {
    if IsDigit(c) then c as int - '0' as int
    else if IsLower(c) then c as int - 'a' as int + 10
    else c as int - 'A' as int + 10
  }

  predicate IsAscii(c: char) { c as int < 0x80 }

  predicate IsControl(c: char) {
    c as int < 0x20 || 0x7F <= c as int < 0xA0
  }

  /** The characters with the Unicode White_Space property. */
  predicate IsWhitespace(c: char) {
    var code := c as int;
    || 9 <= code <= 13 || 0x2000 <= code <= 0x200A
    || code in [0x20, 0x85, 0xA0, 0x1680, 0x2028, 0x2029, 0x202F, 0x205F, 0x3000]
  }

  function Utf8Width(c: char): nat {
    var code := c as int;
    if code < 0x80 then 1 else if code < 0x800 then 2 else if code < 0x1_0000 then 3 else 4
  }

  function Utf8Length(s: string): (n: nat)
    ensures |s| <= n
  {
    if s == "" then 0 else Utf8Width(s[0]) + Utf8Length(s[1..])
  }

  function LowerChar(c: char): char {
    if IsUpper(c) then (c as int + 32) as char else c
  }

  function LowerAscii(s: string): (r: string)
    ensures |r| == |s| && forall k :: 0 <= k < |s| ==> r[k] == LowerChar(s[k])
  {
    seq(|s|, k requires 0 <= k < |s| => LowerChar(s[k]))
  }

  predicate AllWhitespace(s: string) {
    forall k :: 0 <= k < |s| ==> IsWhitespace(s[k])
  }

  function LeadingFrom(s: string, k: nat): (n: nat)
    requires k <= |s|
    ensures n <= |s|
    decreases |s| - k
  {
    if k < |s| && IsWhitespace(s[k]) then LeadingFrom(s, k + 1) else k
  }

  function LeadingSpace(s: string): (n: nat)
    ensures n <= |s|
  {
    LeadingFrom(s, 0)
  }

  function TrimmedFrom(s: string, k: nat): (n: nat)
    requires k <= |s|
    ensures n <= |s|
  {
    if 0 < k && IsWhitespace(s[k - 1]) then TrimmedFrom(s, k - 1) else k
  }

  /** The length of `s` without the whitespace at its end. */
  function TrimmedEnd(s: string): (n: nat)
    ensures n <= |s|
  {
    TrimmedFrom(s, |s|)
  }

  function Trim(s: string): string {
    var rest := s[LeadingSpace(s)..];
    rest[..TrimmedEnd(rest)]
  }

  predicate BlankBetween(s: string, from: nat, to: nat) {
    forall k :: from <= k < to && k < |s| ==> IsWhitespace(s[k])
  }

  lemma {:induction false} LeadingFromIs(s: string, k: nat, n: nat)
    requires k <= n <= |s|
    requires BlankBetween(s, k, n) && (n < |s| ==> !IsWhitespace(s[n]))
    ensures LeadingFrom(s, k) == n
    decreases n - k
  {
    if k < n {
      LeadingFromIs(s, k + 1, n);
    }
  }

  lemma {:induction false} LeadingFromIsBlank(s: string, k: nat)
    requires k <= |s|
    ensures k <= LeadingFrom(s, k) && BlankBetween(s, k, LeadingFrom(s, k))
    decreases |s| - k
  {
    if k < |s| && IsWhitespace(s[k]) {
      LeadingFromIsBlank(s, k + 1);
    }
  }

  lemma {:induction false} TrimmedFromIs(s: string, k: nat, n: nat)
    requires n <= k <= |s|
    requires BlankBetween(s, n, k) && (0 < n ==> !IsWhitespace(s[n - 1]))
    ensures TrimmedFrom(s, k) == n
    decreases k - n
  {
    if n < k {
      TrimmedFromIs(s, k - 1, n);
    }
  }

  lemma {:induction false} TrimmedFromIsBlank(s: string, k: nat)
    requires k <= |s|
    ensures TrimmedFrom(s, k) <= k && BlankBetween(s, TrimmedFrom(s, k), k)
    ensures 0 < TrimmedFrom(s, k) ==> !IsWhitespace(s[TrimmedFrom(s, k) - 1])
  {
    if 0 < k && IsWhitespace(s[k - 1]) {
      TrimmedFromIsBlank(s, k - 1);
    }
  }

  lemma {:induction false} LeadingSpaceIsBlank(s: string)
    ensures AllWhitespace(s[..LeadingSpace(s)])
  {
    LeadingFromIsBlank(s, 0);
  }

  lemma {:induction false} TrimmedEndIsBlank(s: string)
    ensures AllWhitespace(s[TrimmedEnd(s)..])
    ensures 0 < TrimmedEnd(s) ==> !IsWhitespace(s[TrimmedEnd(s) - 1])
  {
    TrimmedFromIsBlank(s, |s|);
  }

  /** Padding around a text that has none of its own is exactly what trimming removes. */
  lemma {:induction false} TrimPadded(left: string, core: string, right: string)
    requires AllWhitespace(left) && AllWhitespace(right)
    requires core != "" && !IsWhitespace(core[0]) && !IsWhitespace(core[|core| - 1])
    ensures LeadingSpace(left + (core + right)) == |left|
    ensures TrimmedEnd(core + right) == |core|
    ensures Trim(left + (core + right)) == core
  {
    var t := core + right;
    var s := left + t;
    CutAfter(left, t, 0);
    CutAfter(core, right, 0);
    LeadingFromIs(s, 0, |left|);
    TrimmedFromIs(t, |t|, |core|);
  }

  /** Trimming leaves a text alone exactly when neither end is white space. */
  lemma {:induction false} TrimmedIff(s: string)
    requires s != ""
    ensures Trim(s) == s <==> !IsWhitespace(s[0]) && !IsWhitespace(s[|s| - 1])
  {
    if Trim(s) == s {
      var rest := s[LeadingSpace(s)..];
      assert |s| == TrimmedEnd(rest) <= |rest| == |s| - LeadingSpace(s);
      assert rest == s;
      TrimmedEndIsBlank(s);
      if IsWhitespace(s[0]) {
        LeadingFromIsBlank(s, 1);
      }
    }
    if !IsWhitespace(s[0]) && !IsWhitespace(s[|s| - 1]) {
      TrimPadded("", s, "");
      assert s + "" == s && "" + s == s;
    }
  }

  predicate MatchesAt(s: string, pattern: string, k: nat) {
    k + |pattern| <= |s| && forall j :: 0 <= j < |pattern| ==> s[k + j] == pattern[j]
  }

  function FindFrom(s: string, pattern: string, k: nat): (found: Option<nat>)
    ensures found.Some? ==> found.value + |pattern| <= |s|
    decreases |s| - k
  {
    if |s| < k + |pattern| then None
    else if MatchesAt(s, pattern, k) then Some(k)
    else if k == |s| then None
    else FindFrom(s, pattern, k + 1)
  }

  /** The first place a pattern occurs. */
  function Find(s: string, pattern: string): (found: Option<nat>)
    ensures found.Some? ==> found.value + |pattern| <= |s|
  {
    FindFrom(s, pattern, 0)
  }

  lemma {:induction false} FindFromIsFirst(s: string, pattern: string, k: nat)
    ensures
      match FindFrom(s, pattern, k)
      case Some(found) =>
        && k <= found && MatchesAt(s, pattern, found)
        && forall j: nat :: k <= j < found ==> !MatchesAt(s, pattern, j)
      case None => forall j: nat :: k <= j ==> !MatchesAt(s, pattern, j)
    decreases |s| - k
  {
    if k < |s| {
      FindFromIsFirst(s, pattern, k + 1);
    }
  }

  lemma {:induction false} FindIsFirst(s: string, pattern: string)
    ensures
      match Find(s, pattern)
      case Some(found) => MatchesAt(s, pattern, found) && forall j: nat :: j < found ==> !MatchesAt(s, pattern, j)
      case None => forall j: nat :: !MatchesAt(s, pattern, j)
  {
    FindFromIsFirst(s, pattern, 0);
  }

  lemma {:induction false} FindIs(s: string, pattern: string, k: nat)
    requires MatchesAt(s, pattern, k)
    requires forall j: nat :: j < k ==> !MatchesAt(s, pattern, j)
    ensures Find(s, pattern) == Some(k)
  {
    FindIsFirst(s, pattern);
  }

  lemma {:induction false} MatchIsLocal(s: string, tail: string, pattern: string, k: nat)
    requires k + |pattern| <= |s|
    ensures MatchesAt(s + tail, pattern, k) <==> MatchesAt(s, pattern, k)
  {
  }

  /** Where a pattern is found does not depend on what comes after it. */
  lemma {:induction false} FindIsLocal(s: string, tail: string, pattern: string, k: nat)
    requires k + |pattern| <= |s|
    ensures Find(s + tail, pattern) == Some(k) <==> Find(s, pattern) == Some(k)
  {
    forall j: nat | j <= k
      ensures MatchesAt(s + tail, pattern, j) <==> MatchesAt(s, pattern, j)
    {
      MatchIsLocal(s, tail, pattern, j);
    }
    FindIsFirst(s, pattern);
    FindIsFirst(s + tail, pattern);
    if Find(s + tail, pattern) == Some(k) { FindIs(s, pattern, k); }
    if Find(s, pattern) == Some(k) { FindIs(s + tail, pattern, k); }
  }

  /** A pattern preceded by text without the pattern's first character is found right after it, and
      is not found where it does not follow. */
  lemma {:induction false} FindAfter(text: string, pattern: string, tail: string)
    requires pattern != "" && forall k :: 0 <= k < |text| ==> text[k] != pattern[0]
    ensures Find(text + (pattern + tail), pattern) == Some(|text|)
    ensures Find(text, pattern) == None
  {
    var s := text + (pattern + tail);
    assert MatchesAt(s, pattern, |text|);
    forall k: nat | k < |text|
      ensures !MatchesAt(s, pattern, k) && !MatchesAt(text, pattern, k)
    {
      assert s[k + 0] == text[k + 0] != pattern[0];
    }
    FindIs(s, pattern, |text|);
    FindIsFirst(text, pattern);
  }

  lemma {:induction false} Reassociate<T>(a: seq<T>, b: seq<T>, c: seq<T>)
    ensures a + (b + c) == (a + b) + c
  {
  }

  /** Cutting a text in two and then dropping a part of the front half, or the same part of the whole. */
  lemma {:induction false} CutAfter(front: string, tail: string, n: nat)
    requires n <= |front|
    ensures (front + tail)[n..] == front[n..] + tail
    ensures (front + tail)[..|front|] == front && (front + tail)[|front|..] == tail
  {
  }

  lemma {:induction false} CutJoins(s: string, n: nat)
    requires n <= |s|
    ensures s[..n] + s[n..] == s
  {
  }

  lemma {:induction false} PrefixOfCut(prefix: string, s: string, n: nat)
    requires prefix <= s && |prefix| <= n <= |s|
    ensures prefix <= s[..n] && s == s[..n] + s[n..]
  {
  }

  lemma {:induction false} MatchSplits(s: string, pattern: string, k: nat)
    requires MatchesAt(s, pattern, k)
    ensures s == s[..k] + (pattern + s[k + |pattern|..])
    ensures s[k..] == pattern + s[k + |pattern|..]
  {
    assert s[k..k + |pattern|] == pattern;
    assert s[k..] == s[k..k + |pattern|] + s[k + |pattern|..];
    assert s == s[..k] + s[k..];
  }

  /** The text before the first occurrence of a mark, and the text after it. */
  function Cut(s: string, mark: string): (r: Option<(string, string)>)
    ensures r.Some? ==> |r.value.0| + |mark| + |r.value.1| == |s|
  {
    match Find(s, mark)
    case None => None
    case Some(k) => Some((s[..k], s[k + |mark|..]))
  }

  lemma {:induction false} CutRejoins(s: string, mark: string)
    requires Cut(s, mark).Some?
    ensures Cut(s, mark).value.0 + (mark + Cut(s, mark).value.1) == s
  {
    FindIsFirst(s, mark);
    MatchSplits(s, mark, Find(s, mark).value);
  }

  /** Text free of a mark's first character, then the mark, is cut right there. */
  lemma {:induction false} CutAtMark(text: string, mark: string, after: string)
    requires mark != "" && forall k :: 0 <= k < |text| ==> text[k] != mark[0]
    ensures Cut(text + (mark + after), mark) == Some((text, after))
    ensures Cut(text, mark) == None
  {
    FindAfter(text, mark, after);
    CutAfter(text, mark + after, 0);
    assert text + (mark + after) == (text + mark) + after;
    CutAfter(text + mark, after, 0);
  }

  lemma {:induction false} PrefixSplit(prefix: string, s: string)
    requires prefix <= s
    ensures s == prefix + s[|prefix|..]
  {
  }
}
