/** The two template scanners, each proved to accept exactly the texts of its grammar. */
module SqlTemplates {
  import opened Wrappers
  import opened TextTools

  const MAX_SQL_STATEMENT_BYTES := 16_384

  datatype InputError = InvalidStatement | InvalidStatementTemplate

  /** Text, then for each placeholder `{{`, its padded name, `}}` and more text. */
  datatype Template = Plain(text: string) | Filled(text: string, padded: string, name: string, rest: Template)

  predicate HasBrace(s: string) {
    exists k :: 0 <= k < |s| && (s[k] == '{' || s[k] == '}')
  }

  /** What every documented placeholder name is: nonempty, unpadded and free of braces. */
  predicate PlainName(name: string) {
    name != "" && !HasBrace(name) && !IsWhitespace(name[0]) && !IsWhitespace(name[|name| - 1])
  }

  predicate PlainNames(allowed: seq<string>) {
    forall name :: name in allowed ==> PlainName(name)
  }

  /** The placeholder lists of creation, revocation, renewal and rotation statements meet what the
      scanner asks of them. */
  lemma {:induction false} DocumentedNamesArePlain()
    ensures PlainNames(["username", "password", "expiration", "database"])
    ensures PlainNames(["username", "database"]) && PlainNames(["username", "expiration", "database"])
    ensures PlainNames(["username", "password", "database"])
  {
    forall name | name in ["username", "password", "expiration", "database"]
      ensures PlainName(name)
    {
      assert "username"[7] == 'e' && "password"[7] == 'd' && "expiration"[9] == 'n' && "database"[7] == 'e';
    }
  }

  /** A name with optional blanks on either side. */
  ghost predicate Padded(padded: string, name: string) {
    exists left, right :: AllWhitespace(left) && AllWhitespace(right) && padded == left + (name + right)
  }

  function Print(t: Template): string {
    match t
    case Plain(text) => text
    case Filled(text, padded, _, rest) => text + ("{{" + (padded + ("}}" + Print(rest))))
  }

  ghost predicate Grammatical(t: Template, allowed: seq<string>) {
    && (forall k :: 0 <= k < |t.text| ==> t.text[k] != '{' && t.text[k] != '}')
    && (t.Filled? ==> Padded(t.padded, t.name) && t.name in allowed && Grammatical(t.rest, allowed))
  }

  function Names(t: Template): seq<string> {
    if t.Plain? then [] else [t.name] + Names(t.rest)
  }

  predicate BoundedMultiline(value: string, maxBytes: nat) {
    && value != "" && Utf8Length(value) <= maxBytes && Trim(value) == value
    && forall k :: 0 <= k < |value| ==> IsControl(value[k]) ==> value[k] in "\n\r\t"
  }

  /** At most 16384 bytes, neither empty nor padded, and no control character but tabs and line ends. */
  predicate FitsStatement(value: string) {
    && 0 < |value| && Utf8Length(value) <= 16384
    && !IsWhitespace(value[0]) && !IsWhitespace(value[|value| - 1])
    && forall k :: 0 <= k < |value| ==>
         value[k] in "\n\r\t" || (0x20 <= value[k] as int && !(0x7F <= value[k] as int <= 0x9F))
  }

  lemma {:induction false} FitsIff(value: string)
    ensures BoundedMultiline(value, MAX_SQL_STATEMENT_BYTES) <==> FitsStatement(value)
  {
    if value != "" {
      TrimmedIff(value);
    }
  }

  /** One left-to-right reading of a text. */
  function Scan(value: string, allowed: seq<string>): Option<Template>
    decreases |value|
  {
    match Cut(value, "{{")
    case None => if HasBrace(value) then None else Some(Plain(value))
    case Some((text, after)) =>
      if HasBrace(text) then None
      else
        match Cut(after, "}}")
        case None => None
        case Some((padded, tail)) =>
          if Trim(padded) !in allowed then None
          else
            match Scan(tail, allowed)
            case None => None
            case Some(rest) => Some(Filled(text, padded, Trim(padded), rest))
  }

  lemma {:induction false} TrimmedIsPadded(raw: string)
    ensures Padded(raw, Trim(raw))
  {
    var rest := raw[LeadingSpace(raw)..];
    LeadingSpaceIsBlank(raw);
    TrimmedEndIsBlank(rest);
    CutJoins(rest, TrimmedEnd(rest));
    CutJoins(raw, LeadingSpace(raw));
    assert raw == raw[..LeadingSpace(raw)] + (Trim(raw) + rest[TrimmedEnd(rest)..]);
  }

  lemma {:induction false} PaddedIsTrimmed(raw: string, name: string)
    requires Padded(raw, name) && PlainName(name)
    ensures Trim(raw) == name && !HasBrace(raw)
  {
    var left, right :| AllWhitespace(left) && AllWhitespace(right) && raw == left + (name + right);
    TrimPadded(left, name, right);
    JoinedHasNoBrace(name, right);
    JoinedHasNoBrace(left, name + right);
  }

  lemma {:induction false} JoinedHasNoBrace(a: string, b: string)
    requires (AllWhitespace(a) || !HasBrace(a)) && (AllWhitespace(b) || !HasBrace(b))
    ensures !HasBrace(a + b)
  {
    forall k | 0 <= k < |a + b|
      ensures (a + b)[k] != '{' && (a + b)[k] != '}'
    {
      assert (a + b)[k] == if k < |a| then a[k] else b[k - |a|];
    }
  }

  lemma {:induction false} ScanPrintsBack(value: string, allowed: seq<string>)
    requires Scan(value, allowed).Some?
    ensures Print(Scan(value, allowed).value) == value
    decreases |value|
  {
    if Cut(value, "{{").Some? {
      var (text, after) := Cut(value, "{{").value;
      var (padded, tail) := Cut(after, "}}").value;
      ScanPrintsBack(tail, allowed);
      CutRejoins(value, "{{");
      CutRejoins(after, "}}");
    }
  }

  lemma {:induction false} ScanIsGrammatical(value: string, allowed: seq<string>)
    requires Scan(value, allowed).Some?
    ensures Grammatical(Scan(value, allowed).value, allowed)
    decreases |value|
  {
    if Cut(value, "{{").Some? {
      var (text, after) := Cut(value, "{{").value;
      var (padded, tail) := Cut(after, "}}").value;
      ScanIsGrammatical(tail, allowed);
      TrimmedIsPadded(padded);
    }
  }

  /** What is read is grammatical and prints back to the text it was read from. */
  lemma {:induction false} ScanIsSound(value: string, allowed: seq<string>)
    ensures Scan(value, allowed).Some? ==>
              Print(Scan(value, allowed).value) == value && Grammatical(Scan(value, allowed).value, allowed)
  {
    if Scan(value, allowed).Some? {
      ScanPrintsBack(value, allowed);
      ScanIsGrammatical(value, allowed);
    }
  }

  lemma {:induction false} PlainIsScanned(text: string, allowed: seq<string>)
    requires !HasBrace(text)
    ensures Scan(text, allowed) == Some(Plain(text))
  {
    CutAtMark(text, "{{", "");
  }

  lemma {:induction false} FilledIsScanned(text: string, padded: string, name: string, tail: string,
                                           allowed: seq<string>)
    requires !HasBrace(text) && Padded(padded, name) && PlainName(name) && name in allowed
    requires Scan(tail, allowed).Some?
    ensures Scan(text + ("{{" + (padded + ("}}" + tail))), allowed)
         == Some(Filled(text, padded, name, Scan(tail, allowed).value))
  {
    PaddedIsTrimmed(padded, name);
    CutAtMark(text, "{{", padded + ("}}" + tail));
    CutAtMark(padded, "}}", tail);
  }

  /** Every grammatical template is read back from its printed form. */
  lemma {:induction false} ScanIsComplete(t: Template, allowed: seq<string>)
    requires PlainNames(allowed) && Grammatical(t, allowed)
    ensures Scan(Print(t), allowed) == Some(t)
  {
    match t
    case Plain(text) => PlainIsScanned(text, allowed);
    case Filled(text, padded, name, rest) =>
      ScanIsComplete(rest, allowed);
      FilledIsScanned(text, padded, name, Print(rest), allowed);
  }

  /** A text has at most one reading: text and placeholders, their padding included, are determined. */
  lemma {:induction false} DecompositionIsUnique(a: Template, b: Template, allowed: seq<string>)
    requires PlainNames(allowed) && Grammatical(a, allowed) && Grammatical(b, allowed)
    requires Print(a) == Print(b)
    ensures a == b
  {
    ScanIsComplete(a, allowed);
    ScanIsComplete(b, allowed);
  }

  ghost predicate IsStatement(value: string, allowed: seq<string>, required: seq<string>, t: Template) {
    && Grammatical(t, allowed) && Print(t) == value
    && forall name :: name in required ==> name in Names(t)
  }

  /** The placeholders of the whole text are those already seen and those of what remains. */
  ghost predicate Continues(whole: Option<Template>, observed: seq<string>, remaining: Option<Template>) {
    && (whole.Some? <==> remaining.Some?)
    && (whole.Some? ==> Names(whole.value) == observed + Names(remaining.value))
  }

  lemma {:induction false} ContinuesPastSlot(whole: Option<Template>, observed: seq<string>, remainder: string,
                                             allowed: seq<string>)
    requires Continues(whole, observed, Scan(remainder, allowed)) && Cut(remainder, "{{").Some?
    ensures
      var (text, after) := Cut(remainder, "{{").value;
      var slot := Cut(after, "}}");
      if HasBrace(text) || slot.None? || Trim(slot.value.0) !in allowed then whole.None?
      else Continues(whole, observed + [Trim(slot.value.0)], Scan(slot.value.1, allowed))
  {
    var slot := Cut(Cut(remainder, "{{").value.1, "}}");
    if whole.Some? {
      Reassociate(observed, [Trim(slot.value.0)], Names(Scan(slot.value.1, allowed).value));
    }
  }

  lemma {:induction false} ContinuesPastFound(whole: Option<Template>, observed: seq<string>, remainder: string,
                                              allowed: seq<string>)
    requires Continues(whole, observed, Scan(remainder, allowed)) && Find(remainder, "{{").Some?
    ensures
      var start := Find(remainder, "{{").value;
      var after := remainder[start + 2..];
      var end := Find(after, "}}");
      if HasBrace(remainder[..start]) || end.None? || Trim(after[..end.value]) !in allowed then whole.None?
      else Continues(whole, observed + [Trim(after[..end.value])], Scan(after[end.value + 2..], allowed))
  {
    var start := Find(remainder, "{{").value;
    var after := remainder[start + 2..];
    assert Cut(remainder, "{{") == Some((remainder[..start], after));
    var slot := Cut(after, "}}");
    assert slot.Some? ==> slot == Some((after[..Find(after, "}}").value], after[Find(after, "}}").value + 2..]));
    ContinuesPastSlot(whole, observed, remainder, allowed);
  }

  lemma {:induction false} ContinuesToEnd(whole: Option<Template>, observed: seq<string>, remainder: string,
                                          allowed: seq<string>)
    requires Continues(whole, observed, Scan(remainder, allowed)) && Find(remainder, "{{").None?
    ensures if HasBrace(remainder) then whole.None? else whole.Some? && Names(whole.value) == observed
  {
  }

  /** Accepts exactly the bounded texts with a reading that uses every required placeholder. */
  method ValidateSqlTemplate(value: string, allowed: seq<string>, required: seq<string>)
    returns (r: Result<(), InputError>)
    requires PlainNames(allowed)
    ensures r.Success? <==>
            FitsStatement(value) && exists t :: IsStatement(value, allowed, required, t)
    ensures r == Failure(InvalidStatement) <==> !FitsStatement(value)
  {
    FitsIff(value);
    if !BoundedMultiline(value, MAX_SQL_STATEMENT_BYTES) {
      return Failure(InvalidStatement);
    }
    var ok := ReadsTemplate(value, allowed, required);
    return if ok then Success(()) else Failure(InvalidStatementTemplate);
  }

  /** The reading loop, which collects the placeholders it passes. */
  method ReadsTemplate(value: string, allowed: seq<string>, required: seq<string>) returns (ok: bool)
    requires PlainNames(allowed)
    ensures ok <==> exists t :: IsStatement(value, allowed, required, t)
  {
    ReadingDecides(value, allowed, required);
    ghost var whole := Scan(value, allowed);
    var remainder := value;
    var observed := [];
    var start := Find(remainder, "{{");
    while start.Some?
      invariant start == Find(remainder, "{{")
      invariant Continues(whole, observed, Scan(remainder, allowed))
      decreases |remainder|
    {
      ContinuesPastFound(whole, observed, remainder, allowed);
      if HasBrace(remainder[..start.value]) {
        return false;
      }
      var afterStart := remainder[start.value + 2..];
      var end := Find(afterStart, "}}");
      if end.None? {
        return false;
      }
      var expression := Trim(afterStart[..end.value]);
      if expression !in allowed {
        return false;
      }
      observed := observed + [expression];
      remainder := afterStart[end.value + 2..];
      start := Find(remainder, "{{");
    }
    ContinuesToEnd(whole, observed, remainder, allowed);
    if HasBrace(remainder) || exists name :: name in required && name !in observed {
      return false;
    }
    return true;
  }

  lemma {:induction false} ReadingDecides(value: string, allowed: seq<string>, required: seq<string>)
    requires PlainNames(allowed)
    ensures (exists t :: IsStatement(value, allowed, required, t)) <==>
            Scan(value, allowed).Some? && forall name :: name in required ==> name in Names(Scan(value, allowed).value)
  {
    ScanIsSound(value, allowed);
    forall t | IsStatement(value, allowed, required, t)
      ensures Scan(value, allowed) == Some(t)
    {
      ScanIsComplete(t, allowed);
    }
    if Scan(value, allowed).Some? && forall name :: name in required ==> name in Names(Scan(value, allowed).value) {
      assert IsStatement(value, allowed, required, Scan(value, allowed).value);
    }
  }
}

module KeySchemas {
  import opened Wrappers
  import opened TextTools

  const MAX_GITHUB_KEY_SCHEMA_BYTES := 2_048
  const SECRET_KEY := "{{secretKey}}"
  const ENVIRONMENT := "{{environment}}"

  datatype Token = SecretKey | Environment | Literal(c: char)

  predicate LiteralChar(c: char) {
    IsAlphanumeric(c) || c in "_-/"
  }

  function Spell(token: Token): string {
    match token
    case SecretKey => "{{secretKey}}"
    case Environment => "{{environment}}"
    case Literal(c) => [c]
  }

  function Print(tokens: seq<Token>): string {
    if tokens == [] then "" else Spell(tokens[0]) + Print(tokens[1..])
  }

  predicate Ordinary(c: char) {
    '0' <= c <= '9' || 'a' <= c <= 'z' || 'A' <= c <= 'Z' || c == '_' || c == '-' || c == '/'
  }

  predicate Grammatical(tokens: seq<Token>) {
    forall k :: 0 <= k < |tokens| && tokens[k].Literal? ==> Ordinary(tokens[k].c)
  }

  function SecretKeys(tokens: seq<Token>): nat {
    if tokens == [] then 0 else (if tokens[0].SecretKey? then 1 else 0) + SecretKeys(tokens[1..])
  }

  function Next(s: string): Option<Token>
    requires s != ""
  {
    if SECRET_KEY <= s then Some(SecretKey)
    else if ENVIRONMENT <= s then Some(Environment)
    else if LiteralChar(s[0]) then Some(Literal(s[0]))
    else None
  }

  function Scan(s: string): Option<seq<Token>>
    decreases |s|
  {
    if s == "" then Some([])
    else
      match Next(s)
      case None => None
      case Some(token) =>
        assert Spell(token) <= s;
        match Scan(s[|Spell(token)|..])
        case None => None
        case Some(rest) => Some([token] + rest)
  }

  lemma {:induction false} ScanIsSound(s: string)
    ensures Scan(s).Some? ==> Print(Scan(s).value) == s && Grammatical(Scan(s).value)
    decreases |s|
  {
    if s != "" && Next(s).Some? {
      var token := Next(s).value;
      assert Spell(token) <= s;
      var tail := s[|Spell(token)|..];
      ScanIsSound(tail);
      PrefixSplit(Spell(token), s);
    }
  }

  lemma {:induction false} NextSpelled(token: Token, tail: string)
    requires token.Literal? ==> LiteralChar(token.c)
    ensures
      var s := Spell(token) + tail;
      s != "" && Next(s) == Some(token) && s[|Spell(token)|..] == tail
  {
    var head := Spell(token);
    var s := head + tail;
    assert s[0] == head[0];
    assert s[|head|..] == tail;
    match token
    case SecretKey => assert SECRET_KEY <= s;
    case Environment =>
      assert ENVIRONMENT <= s;
      assert s[2] == ENVIRONMENT[2] == 'e' && SECRET_KEY[2] == 's';
    case Literal(c) =>
      assert SECRET_KEY[0] == '{' && ENVIRONMENT[0] == '{';
  }

  lemma {:induction false} GrammaticalTail(tokens: seq<Token>)
    requires Grammatical(tokens) && tokens != []
    ensures Grammatical(tokens[1..]) && (tokens[0].Literal? ==> LiteralChar(tokens[0].c))
  {
  }

  lemma {:induction false} ScanIsComplete(tokens: seq<Token>)
    requires Grammatical(tokens)
    ensures Scan(Print(tokens)) == Some(tokens)
  {
    if tokens != [] {
      GrammaticalTail(tokens);
      ScanIsComplete(tokens[1..]);
      NextSpelled(tokens[0], Print(tokens[1..]));
      assert tokens == [tokens[0]] + tokens[1..];
    }
  }

  /** The tokens of an accepted key schema are determined by its text. */
  lemma {:induction false} DecompositionIsUnique(a: seq<Token>, b: seq<Token>)
    requires Grammatical(a) && Grammatical(b) && Print(a) == Print(b)
    ensures a == b
  {
    ScanIsComplete(a);
    ScanIsComplete(b);
  }

  ghost predicate IsKeySchema(value: string, tokens: seq<Token>) {
    Grammatical(tokens) && Print(tokens) == value && OneSecretKey(tokens)
  }

  predicate OnlyAt(tokens: seq<Token>, k: nat) {
    k < |tokens| && forall j: nat :: j < |tokens| ==> (tokens[j] == SecretKey <==> j == k)
  }

  /** The secret key occurs at one position and no other. */
  ghost predicate OneSecretKey(tokens: seq<Token>) {
    exists k: nat :: OnlyAt(tokens, k)
  }

  lemma {:induction false} NoSecretKeys(tokens: seq<Token>)
    ensures SecretKeys(tokens) == 0 <==> forall k :: 0 <= k < |tokens| ==> tokens[k] != SecretKey
  {
    if tokens != [] {
      var rest := tokens[1..];
      NoSecretKeys(rest);
      assert forall k :: 0 <= k < |rest| ==> rest[k] == tokens[k + 1];
      assert forall k :: 1 <= k < |tokens| ==> tokens[k] == rest[k - 1];
    }
  }

  lemma {:induction false} OnlyInTail(tokens: seq<Token>, k: nat)
    requires tokens != [] && tokens[0] != SecretKey
    ensures OnlyAt(tokens[1..], k) <==> OnlyAt(tokens, k + 1)
  {
    var rest := tokens[1..];
    if OnlyAt(rest, k) {
      forall j: nat | j < |tokens|
        ensures tokens[j] == SecretKey <==> j == k + 1
      {
        assert 0 < j ==> tokens[j] == rest[j - 1];
      }
    }
    if OnlyAt(tokens, k + 1) {
      forall j: nat | j < |rest|
        ensures rest[j] == SecretKey <==> j == k
      {
        assert rest[j] == tokens[j + 1];
      }
    }
  }

  lemma {:induction false} OneSecretKeyInTail(tokens: seq<Token>)
    requires tokens != [] && tokens[0] != SecretKey
    ensures OneSecretKey(tokens) <==> OneSecretKey(tokens[1..])
  {
    if k: nat :| OnlyAt(tokens[1..], k) {
      OnlyInTail(tokens, k);
    }
    if k: nat :| OnlyAt(tokens, k) {
      OnlyInTail(tokens, k - 1);
    }
  }

  lemma {:induction false} OneSecretKeyInFront(tokens: seq<Token>)
    requires tokens != [] && tokens[0] == SecretKey
    ensures OneSecretKey(tokens) <==> forall k :: 0 <= k < |tokens[1..]| ==> tokens[1..][k] != SecretKey
  {
    var rest := tokens[1..];
    assert forall k :: 0 <= k < |rest| ==> rest[k] == tokens[k + 1];
    assert forall k :: 1 <= k < |tokens| ==> tokens[k] == rest[k - 1];
    if forall k :: 0 <= k < |rest| ==> rest[k] != SecretKey {
      assert OnlyAt(tokens, 0);
    }
  }

  lemma {:induction false} CountsSecretKeys(tokens: seq<Token>)
    ensures SecretKeys(tokens) == 1 <==> OneSecretKey(tokens)
  {
    if tokens != [] {
      if tokens[0].SecretKey? {
        NoSecretKeys(tokens[1..]);
        OneSecretKeyInFront(tokens);
      } else {
        CountsSecretKeys(tokens[1..]);
        OneSecretKeyInTail(tokens);
      }
    }
  }

  lemma {:induction false} ReadingDecides(value: string)
    ensures (exists tokens :: IsKeySchema(value, tokens)) <==> Scan(value).Some? && SecretKeys(Scan(value).value) == 1
  {
    ScanIsSound(value);
    forall tokens | IsKeySchema(value, tokens)
      ensures Scan(value) == Some(tokens) && SecretKeys(tokens) == 1
    {
      ScanIsComplete(tokens);
      CountsSecretKeys(tokens);
    }
    if Scan(value).Some? {
      CountsSecretKeys(Scan(value).value);
    }
    if Scan(value).Some? && SecretKeys(Scan(value).value) == 1 {
      assert IsKeySchema(value, Scan(value).value);
    }
  }

  /** Accepts exactly the bounded texts with one secret key in their reading. The counter saturates
      at 255, which cannot turn any other count into one. */
  method ValidateGithubKeySchema(value: string) returns (ok: bool)
    ensures ok <==> 0 < Utf8Length(value) <= 2048 && exists tokens :: IsKeySchema(value, tokens)
  {
    if value == "" || Utf8Length(value) > MAX_GITHUB_KEY_SCHEMA_BYTES {
      return false;
    }
    ReadingDecides(value);
    var count := 0;
    ghost var total := 0;
    var remainder := value;
    while remainder != ""
      invariant Scan(value).Some? <==> Scan(remainder).Some?
      invariant Scan(value).Some? ==> SecretKeys(Scan(value).value) == total + SecretKeys(Scan(remainder).value)
      invariant 0 <= total && count == (if total < 255 then total else 255)
      decreases |remainder|
    {
      if SECRET_KEY <= remainder {
        count := if count == 255 then 255 else count + 1;
        total := total + 1;
        remainder := remainder[|SECRET_KEY|..];
      } else if ENVIRONMENT <= remainder {
        remainder := remainder[|ENVIRONMENT|..];
      } else {
        if !LiteralChar(remainder[0]) {
          return false;
        }
        remainder := remainder[1..];
      }
    }
    return count == 1;
  }
}
