/** "METHOD /route" texts, split at their first gap as the scripting language splits them. */
module OperationText {
  import opened Wrappers
  import opened TextTools

  /** The characters its `split` treats as blank: white space and the four separator controls. */
  predicate Blank(c: char) {
    IsWhitespace(c) || 0x1C <= c as int <= 0x1F
  }

  /** They are these 29 code points. */
  lemma {:induction false} BlankCodes(c: char)
    ensures Blank(c) <==>
            c as int in {0x09, 0x0A, 0x0B, 0x0C, 0x0D, 0x1C, 0x1D, 0x1E, 0x1F, 0x20, 0x85, 0xA0, 0x1680,
                         0x2000, 0x2001, 0x2002, 0x2003, 0x2004, 0x2005, 0x2006, 0x2007, 0x2008, 0x2009, 0x200A,
                         0x2028, 0x2029, 0x202F, 0x205F, 0x3000}
  {
  }

  predicate AllBlank(s: string) {
    forall k :: 0 <= k < |s| ==> Blank(s[k])
  }

  predicate NoBlank(s: string) {
    forall k :: 0 <= k < |s| ==> !Blank(s[k])
  }

  /** The end of the run of blanks, or of other characters, that starts at `k`. */
  function RunEnd(s: string, blank: bool, k: nat): (n: nat)
    requires k <= |s|
    ensures k <= n <= |s|
    decreases |s| - k
  {
    if k < |s| && Blank(s[k]) == blank then RunEnd(s, blank, k + 1) else k
  }

  lemma {:induction false} RunIsUniform(s: string, blank: bool, k: nat)
    requires k <= |s|
    ensures forall j :: k <= j < RunEnd(s, blank, k) ==> Blank(s[j]) == blank
    ensures RunEnd(s, blank, k) < |s| ==> Blank(s[RunEnd(s, blank, k)]) != blank
    decreases |s| - k
  {
    if k < |s| && Blank(s[k]) == blank {
      RunIsUniform(s, blank, k + 1);
    }
  }

  lemma {:induction false} RunEndIs(s: string, blank: bool, k: nat, n: nat)
    requires k <= n <= |s| && forall j :: k <= j < n ==> Blank(s[j]) == blank
    requires n < |s| ==> Blank(s[n]) != blank
    ensures RunEnd(s, blank, k) == n
    decreases n - k
  {
    if k < n {
      RunEndIs(s, blank, k + 1, n);
    }
  }

  /** The first word and what follows the gap after it; nothing when either is missing. */
  function SplitOnce(s: string): Option<(string, string)> {
    var start := RunEnd(s, true, 0);
    var end := RunEnd(s, false, start);
    var next := RunEnd(s, true, end);
    if start == |s| || next == |s| then None else Some((s[start..end], s[next..]))
  }

  /** Blanks, a word, a gap, and text that begins at its end. */
  ghost predicate Splits(s: string, before: string, word: string, gap: string, rest: string) {
    && s == before + (word + (gap + rest))
    && AllBlank(before) && AllBlank(gap) && gap != ""
    && NoBlank(word) && word != "" && rest != "" && !Blank(rest[0])
  }

  lemma {:induction false} SplitOnceIs(s: string, before: string, word: string, gap: string, rest: string)
    requires Splits(s, before, word, gap, rest)
    ensures SplitOnce(s) == Some((word, rest))
  {
    var start := |before|;
    var end := start + |word|;
    var next := end + |gap|;
    assert forall j :: 0 <= j < |before| ==> s[j] == before[j];
    assert forall j :: 0 <= j < |word| ==> s[start + j] == word[j];
    assert forall j :: 0 <= j < |gap| ==> s[end + j] == gap[j];
    assert s[next] == rest[0] && s[start] == word[0] && s[end] == gap[0];
    RunEndIs(s, true, 0, start);
    RunEndIs(s, false, start, end);
    RunEndIs(s, true, end, next);
    CutAfter(before, word + (gap + rest), 0);
    assert s[start..end] == word && s[next..] == rest;
  }

  lemma {:induction false} FourParts(s: string, a: nat, b: nat, c: nat)
    requires a <= b <= c <= |s|
    ensures s == s[..a] + (s[a..b] + (s[b..c] + s[c..]))
  {
    assert s[b..] == s[b..c] + s[c..];
    assert s[a..] == s[a..b] + s[b..];
  }

  lemma {:induction false} PartsAreBlankAndWord(s: string, start: nat, end: nat, next: nat)
    requires start == RunEnd(s, true, 0) && end == RunEnd(s, false, start) && next == RunEnd(s, true, end)
    requires start <= end <= next <= |s|
    ensures AllBlank(s[..start]) && NoBlank(s[start..end]) && AllBlank(s[end..next])
  {
    RunIsUniform(s, true, 0);
    RunIsUniform(s, false, start);
    RunIsUniform(s, true, end);
  }

  lemma {:induction false} PartsAreThere(s: string, start: nat, end: nat, next: nat)
    requires start == RunEnd(s, true, 0) && end == RunEnd(s, false, start) && next == RunEnd(s, true, end)
    requires start <= end <= next <= |s| && start < |s| && next < |s|
    ensures start < end < next && !Blank(s[next])
  {
    RunIsUniform(s, true, 0);
    RunIsUniform(s, false, start);
    RunIsUniform(s, true, end);
  }

  lemma {:induction false} SplitOnceSplits(s: string)
    requires SplitOnce(s).Some?
    ensures exists before, gap :: Splits(s, before, SplitOnce(s).value.0, gap, SplitOnce(s).value.1)
  {
    var start := RunEnd(s, true, 0);
    var end := RunEnd(s, false, start);
    var next := RunEnd(s, true, end);
    PartsAreBlankAndWord(s, start, end, next);
    PartsAreThere(s, start, end, next);
    FourParts(s, start, end, next);
    assert Splits(s, s[..start], s[start..end], s[end..next], s[next..]);
  }

  /** Splitting gives a word and a rest exactly when the text is made up of them in that way. */
  lemma {:induction false} SplitOnceIsExact(s: string, word: string, rest: string)
    ensures SplitOnce(s) == Some((word, rest)) <==> exists before, gap :: Splits(s, before, word, gap, rest)
  {
    if SplitOnce(s).Some? {
      SplitOnceSplits(s);
    }
    forall before, gap | Splits(s, before, word, gap, rest)
      ensures SplitOnce(s) == Some((word, rest))
    {
      SplitOnceIs(s, before, word, gap, rest);
    }
  }
}
