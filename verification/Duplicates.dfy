/** The checks that reject repeated entries, and the password policy that uses one of them. */
module Duplicates {
  import opened Wrappers
  import opened TextTools
  import opened Sorting

  const MAX_GITHUB_SELECTED_REPOSITORIES := 1_000
  const MAX_GOVERNANCE_ITEMS := 100

  datatype Visibility = AllRepositories | PrivateRepositories | Selected

  /** The repository part of an organization destination. */
  function RepositoriesAccepted(visibility: Visibility, ids: Option<seq<nat>>): bool {
    match (visibility, ids)
    case (Selected, Some(list)) =>
      && list != [] && |list| <= MAX_GITHUB_SELECTED_REPOSITORIES && 0 !in list
      && !NeighboursEqual(Sort(list, NumberLe))
    case (Selected, None) => false
    case (_, Some(list)) => list == []
    case (_, None) => true
  }

  /** Selected repositories are accepted exactly as a nonempty bounded list of pairwise distinct
      nonzero ids; any other visibility admits no id at all. */
  lemma {:induction false} RepositoriesAcceptedIff(visibility: Visibility, ids: Option<seq<nat>>)
    ensures RepositoriesAccepted(visibility, ids) <==>
            if visibility.Selected?
            then
              && ids.Some? && 1 <= |ids.value| <= 1000
              && 0 !in ids.value && Distinct(ids.value)
            else ids.Some? ==> ids.value == []
  {
    if ids.Some? {
      NeighbourCheckIsExact(ids.value, NumberLe);
    }
  }

  predicate IdentifiersAccepted(ids: seq<string>) {
    |ids| <= MAX_GOVERNANCE_ITEMS && !NeighboursEqual(Sort(ids, TextLe))
  }

  lemma {:induction false} IdentifiersAcceptedIff(ids: seq<string>)
    ensures IdentifiersAccepted(ids) <==> |ids| <= 100 && Distinct(ids)
  {
    TextOrder();
    NeighbourCheckIsExact(ids, TextLe);
  }

  function Lowered(ids: seq<string>): (r: seq<string>)
    ensures |r| == |ids| && forall k :: 0 <= k < |r| ==> r[k] == LowerAscii(ids[k])
  {
    seq(|ids|, k requires 0 <= k < |ids| => LowerAscii(ids[k]))
  }

  /** One text is the other with ASCII letters in either case. */
  predicate SameIgnoringCase(a: string, b: string) {
    && |a| == |b|
    && forall k :: 0 <= k < |a| ==>
         || a[k] == b[k]
         || ('A' <= a[k] <= 'Z' && b[k] as int == a[k] as int + 32)
         || ('A' <= b[k] <= 'Z' && a[k] as int == b[k] as int + 32)
  }

  lemma {:induction false} LoweredAlike(a: string, b: string)
    ensures LowerAscii(a) == LowerAscii(b) <==> SameIgnoringCase(a, b)
  {
    forall k | 0 <= k < |a| && k < |b|
      ensures LowerAscii(a)[k] == LowerAscii(b)[k] <==>
              || a[k] == b[k]
              || ('A' <= a[k] <= 'Z' && b[k] as int == a[k] as int + 32)
              || ('A' <= b[k] <= 'Z' && a[k] as int == b[k] as int + 32)
    {
    }
    if SameIgnoringCase(a, b) {
      assert LowerAscii(a) == LowerAscii(b);
    } else if |a| == |b| {
      var k :| 0 <= k < |a| && LowerAscii(a)[k] != LowerAscii(b)[k];
    }
  }

  ghost predicate DistinctIgnoringCase(ids: seq<string>) {
    forall j, k :: 0 <= j < k < |ids| ==> !SameIgnoringCase(ids[j], ids[k])
  }

  /** Effective members are compared by lower-cased id, so theirs must differ by more than case. */
  lemma {:induction false} LoweredIdentifiersAcceptedIff(ids: seq<string>)
    ensures IdentifiersAccepted(Lowered(ids)) <==> |ids| <= 100 && DistinctIgnoringCase(ids)
  {
    IdentifiersAcceptedIff(Lowered(ids));
    forall j, k | 0 <= j < k < |ids|
      ensures Lowered(ids)[j] == Lowered(ids)[k] <==> SameIgnoringCase(ids[j], ids[k])
    {
      LoweredAlike(ids[j], ids[k]);
    }
  }

  /** The two ways of comparing part exactly on bounded lists of different ids of which two differ
      only in case: as sent, like the ids of memberships, they pass; lower-cased they do not. */
  lemma {:induction false} CaseDecidesMemberChecks(ids: seq<string>)
    ensures IdentifiersAccepted(Lowered(ids)) ==> IdentifiersAccepted(ids)
    ensures IdentifiersAccepted(ids) && !IdentifiersAccepted(Lowered(ids)) <==>
            |ids| <= 100 && Distinct(ids) && !DistinctIgnoringCase(ids)
  {
    IdentifiersAcceptedIff(ids);
    LoweredIdentifiersAcceptedIff(ids);
  }

  // ---------- the symbol table ----------

  predicate IsGraphic(c: char) { '!' <= c <= '~' }

  predicate IsPunctuation(c: char) {
    '!' <= c <= '/' || ':' <= c <= '@' || '[' <= c <= '`' || '{' <= c <= '~'
  }

  lemma {:induction false} PunctuationIff(c: char)
    ensures IsPunctuation(c) <==> IsGraphic(c) && !IsAlphanumeric(c)
  {
  }

  predicate SoundSymbols(value: string) {
    value != "" && (forall k :: 0 <= k < |value| ==> IsPunctuation(value[k])) && Distinct(value)
  }

  predicate Occurs(code: int, value: string) {
    exists j :: 0 <= j < |value| && value[j] as int == code
  }

  lemma {:induction false} OneMoreSymbol(value: string, k: nat)
    requires k < |value| && Distinct(value[..k])
    ensures forall code :: Occurs(code, value[..k + 1]) <==> Occurs(code, value[..k]) || code == value[k] as int
    ensures Distinct(value[..k + 1]) <==> !Occurs(value[k] as int, value[..k])
  {
    var before, after := value[..k], value[..k + 1];
    assert after == before + [value[k]];
    forall code
      ensures Occurs(code, after) <==> Occurs(code, before) || code == value[k] as int
    {
      assert after[k] == value[k];
      if Occurs(code, before) {
        var j :| 0 <= j < |before| && before[j] as int == code;
        assert after[j] as int == code;
      }
    }
    if Occurs(value[k] as int, before) {
      var j :| 0 <= j < |before| && before[j] as int == value[k] as int;
      assert after[j] == after[k];
    }
  }

  lemma {:induction false} RepeatedSymbol(value: string, k: nat)
    requires k < |value| && Occurs(value[k] as int, value[..k])
    ensures !Distinct(value)
  {
    var j :| 0 <= j < k && value[..k][j] as int == value[k] as int;
    assert value[j] == value[k];
  }

  /** One pass with a table of 128 flags: accepts exactly nonempty lists of distinct punctuation. */
  method AllowedSymbolsAreValid(value: string) returns (ok: bool)
    ensures ok <==> SoundSymbols(value)
  {
    if value == "" || exists k :: 0 <= k < |value| && !IsAscii(value[k]) {
      return false;
    }
    var seen := new bool[128](_ => false);
    for k := 0 to |value|
      invariant forall j :: 0 <= j < k ==> IsPunctuation(value[j])
      invariant Distinct(value[..k])
      invariant forall c :: 0 <= c < 128 ==> (seen[c] <==> Occurs(c, value[..k]))
    {
      var c := value[k];
      PunctuationIff(c);
      if !IsGraphic(c) || IsAlphanumeric(c) || seen[c as int] {
        if IsPunctuation(c) {
          RepeatedSymbol(value, k);
        }
        return false;
      }
      seen[c as int] := true;
      OneMoreSymbol(value, k);
    }
    assert value[..|value|] == value;
    return true;
  }

  predicate Between(low: char, c: char, high: char) { low <= c <= high }

  function Run(low: char, high: char): set<char> {
    set c: char | Between(low, c, high)
  }

  lemma {:induction false} RunSize(low: char, high: char)
    requires low <= high < 0x80 as char
    ensures |Run(low, high)| == high as int - low as int + 1
    decreases high as int
  {
    if low == high {
      assert Run(low, high) == {low};
    } else {
      var previous := (high as int - 1) as char;
      RunSize(low, previous);
      assert Run(low, high) == Run(low, previous) + {high};
    }
  }

  function Both(a: set<char>, b: set<char>): (r: set<char>)
    ensures r == a + b && |r| <= |a| + |b|
  {
    assert |a + b| == |a| + |b - a| && b - a <= b && |b - a| == |b| - |a * b| by {
      assert a + b == a + (b - a) && a !! (b - a) && b == (b - a) + (a * b);
    }
    a + b
  }

  /** The four runs of punctuation in ASCII: 15, 7, 6 and 4 characters. */
  function Punctuation(): (r: set<char>)
    ensures |r| <= 32
    ensures forall c :: IsPunctuation(c) ==> c in r
  {
    RunSize('!', '/');
    RunSize(':', '@');
    RunSize('[', '`');
    RunSize('{', '~');
    Both(Both(Run('!', '/'), Run(':', '@')), Both(Run('[', '`'), Run('{', '~')))
  }

  lemma {:induction false} DistinctLength(s: string, r: set<char>)
    requires Distinct(s) && forall k :: 0 <= k < |s| ==> s[k] in r
    ensures |s| <= |r|
  {
    if s != "" {
      assert s[0] in r;
      DistinctLength(s[1..], r - {s[0]});
    }
  }

  /** With no length test of its own the table still admits at most 32 symbols. */
  lemma {:induction false} SymbolsArePigeonholed(value: string)
    requires SoundSymbols(value)
    ensures |value| <= 32
  {
    DistinctLength(value, Punctuation());
  }

  // ---------- password requirements ----------

  type u16 = n: nat | n < 0x1_0000

  datatype SqlClient = Postgres | MySql | Oracle | MsSql | SapAse | Vertica

  function CheckedAdd(a: Option<u16>, b: u16): Option<u16> {
    if a.Some? && a.value + b < 0x1_0000 then Some(a.value + b) else None
  }

  function MaximumLength(client: SqlClient): u16 { if client.Oracle? then 30 else 250 }

  datatype PasswordError = InvalidPasswordRequirements | InvalidAllowedSymbols

  /** Sixteen-bit sums never misjudge: the policy is accepted exactly when the true total of the
      required characters is between one and the length, and every symbol list is a sound one. */
  method NewPasswordRequirements(client: SqlClient, length: u16, lowercase: u16, uppercase: u16, digits: u16,
                                 symbols: u16, allowedSymbols: Option<string>)
    returns (r: Result<(), PasswordError>)
    ensures r == Failure(InvalidPasswordRequirements) <==>
            !(1 <= lowercase + uppercase + digits + symbols <= length <= if client == Oracle then 30 else 250)
    ensures r.Success? && allowedSymbols.Some? ==> SoundSymbols(allowedSymbols.value) && |allowedSymbols.value| <= 32
    ensures r == Failure(InvalidAllowedSymbols) ==> allowedSymbols.Some? && !SoundSymbols(allowedSymbols.value)
  {
    var total := CheckedAdd(CheckedAdd(CheckedAdd(Some(lowercase), uppercase), digits), symbols);
    if total.None? {
      return Failure(InvalidPasswordRequirements);
    }
    if !(1 <= length <= MaximumLength(client)) || total.value == 0 || total.value > length {
      return Failure(InvalidPasswordRequirements);
    }
    if allowedSymbols.Some? {
      var valid := AllowedSymbolsAreValid(allowedSymbols.value);
      if !valid {
        return Failure(InvalidAllowedSymbols);
      }
      SymbolsArePigeonholed(allowedSymbols.value);
    }
    return Success(());
  }
}
