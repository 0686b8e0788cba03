/** JSON Pointers in the fragment of a reference (section 6 of RFC 6901): percent escapes are undone
    first, then the text is split at its slashes, then each token is unescaped. */
module Fragments {
  import opened Wrappers
  import opened TextTools
  import opened JsonPointer

  // ---------- percent escapes ----------

  /** The byte an escape at the head of the text stands for. */
  function HeadByte(s: string): Option<nat> {
    if 3 <= |s| && s[0] == '%' && IsHexDigit(s[1]) && IsHexDigit(s[2])
    then Some(16 * DigitValue(s[1]) + DigitValue(s[2]))
    else None
  }

  /** The six bits of a continuation byte. */
  function HeadBits(s: string): Option<nat> {
    match HeadByte(s)
    case Some(b) => if 0x80 <= b < 0xC0 then Some(b - 0x80) else None
    case None => None
  }

  function Scalar(code: nat, least: nat): Option<char> {
    if least <= code && (code < 0xD800 || 0xE000 <= code < 0x11_0000) then Some(code as char) else None
  }

  function TwoBytes(lead: nat, s: string): Option<char> {
    match HeadBits(s)
    case Some(bits) => Scalar(lead * 0x40 + bits, 0x80)
    case None => None
  }

  function ThreeBytes(lead: nat, s: string): Option<char>
    requires 3 <= |s|
  {
    match (HeadBits(s), HeadBits(s[3..]))
    case (Some(first), Some(second)) => Scalar((lead * 0x40 + first) * 0x40 + second, 0x800)
    case _ => None
  }

  function FourBytes(lead: nat, s: string): Option<char>
    requires 6 <= |s|
  {
    match (HeadBits(s), HeadBits(s[3..]), HeadBits(s[6..]))
    case (Some(first), Some(second), Some(third)) =>
      Scalar(((lead * 0x40 + first) * 0x40 + second) * 0x40 + third, 0x1_0000)
    case _ => None
  }

  /** The character that a run of escapes spells in UTF-8, and the length of the run. */
  function HeadChar(s: string): (r: Option<(char, nat)>)
    ensures r.Some? ==> 3 <= r.value.1 <= |s|
  {
    match HeadByte(s)
    case None => None
    case Some(b) =>
      var tail := s[3..];
      if b < 0x80 then Some((b as char, 3))
      else if 0xC0 <= b < 0xE0 && 3 <= |tail| then WithLength(TwoBytes(b - 0xC0, tail), 6)
      else if 0xE0 <= b < 0xF0 && 6 <= |tail| then WithLength(ThreeBytes(b - 0xE0, tail), 9)
      else if 0xF0 <= b < 0xF8 && 9 <= |tail| then WithLength(FourBytes(b - 0xF0, tail), 12)
      else None
  }

  function WithLength(c: Option<char>, length: nat): Option<(char, nat)> {
    if c.Some? then Some((c.value, length)) else None
  }

  function PercentDecode(s: string): Option<string>
    decreases |s|
  {
    if s == "" then Some("")
    else if s[0] != '%' then Prepend(s[0], PercentDecode(s[1..]))
    else
      match HeadChar(s)
      case None => None
      case Some((c, length)) => Prepend(c, PercentDecode(s[length..]))
  }

  function Prepend(c: char, rest: Option<string>): Option<string> {
    if rest.Some? then Some([c] + rest.value) else None
  }

  predicate NoPercent(s: string) {
    forall k :: 0 <= k < |s| ==> s[k] != '%'
  }

  lemma {:induction false} NothingToDecode(s: string, tail: string)
    requires NoPercent(s)
    ensures PercentDecode(s + tail) == match PercentDecode(tail) case Some(d) => Some(s + d) case None => None
  {
    if s == "" {
      assert s + tail == tail;
      assert PercentDecode(tail).Some? ==> s + PercentDecode(tail).value == PercentDecode(tail).value;
    } else {
      assert (s + tail)[1..] == s[1..] + tail;
      NothingToDecode(s[1..], tail);
      if PercentDecode(tail).Some? {
        assert [s[0]] + (s[1..] + PercentDecode(tail).value) == s + PercentDecode(tail).value;
      }
    }
  }

  // ---------- unescaping, one token in one pass ----------

  function Unescape(token: string): Option<string> {
    if token == "" then Some("")
    else if token[0] == '/' then None
    else if token[0] != '~' then Prepend(token[0], Unescape(token[1..]))
    else if 2 <= |token| && token[1] == '0' then Prepend('~', Unescape(token[2..]))
    else if 2 <= |token| && token[1] == '1' then Prepend('/', Unescape(token[2..]))
    else None
  }

  lemma {:induction false} UnescapeInverts(token: string)
    ensures Unescape(token).Some? <==> Escaped(token)
    ensures Unescape(token).Some? ==> Escape(Unescape(token).value) == token
  {
    if token != "" && token[0] != '/' {
      if token[0] != '~' {
        UnescapeInverts(token[1..]);
        if Unescape(token[1..]).Some? {
          assert ([token[0]] + Unescape(token[1..]).value)[1..] == Unescape(token[1..]).value;
        }
      } else if 2 <= |token| && (token[1] == '0' || token[1] == '1') {
        UnescapeInverts(token[2..]);
        assert token == token[..2] + token[2..];
        if Unescape(token[2..]).Some? {
          var key := Unescape(token).value;
          assert key[1..] == Unescape(token[2..]).value;
          assert Escape(key) == token[..2] + token[2..];
        }
      }
    }
  }

  /** The two passes of text replacement agree with unescaping wherever that is defined. */
  lemma {:induction false} DecodeUnescapes(token: string)
    ensures Unescape(token).Some? ==> Decode(token) == Unescape(token).value
  {
    UnescapeInverts(token);
    if Unescape(token).Some? {
      DecodeEscape(Unescape(token).value);
    }
  }

  function UnescapeAll(tokens: seq<string>): (r: Option<seq<string>>)
    ensures r.Some? ==> |r.value| == |tokens|
    ensures r.Some? ==> forall k :: 0 <= k < |tokens| ==> Unescape(tokens[k]) == Some(r.value[k])
  {
    if tokens == [] then Some([])
    else
      match (Unescape(tokens[0]), UnescapeAll(tokens[1..]))
      case (Some(key), Some(rest)) => Some([key] + rest)
      case _ => None
  }

  /** The keys that the fragment of a reference within the document names, if it is a pointer. */
  function Pointer(text: string): Option<seq<string>> {
    if text == "" || text[0] != '#' then None
    else
      match PercentDecode(text[1..])
      case None => None
      case Some(fragment) =>
        if fragment == "" then Some([])
        else if fragment[0] != '/' then None
        else UnescapeAll(Split(fragment[1..]))
  }

  // ---------- references to definitions ----------

  const LOCAL := "#/$defs/"

  /** What follows `#/$defs/` is one properly escaped token and holds no percent sign. */
  predicate PlainToken(token: string) {
    Escaped(token) && NoPercent(token)
  }

  function Under(name: string, rest: Option<seq<string>>): Option<seq<string>> {
    if rest.Some? then Some([name] + rest.value) else None
  }

  /** The keys of a token that may still hold slashes and escapes. */
  function TokenKeys(token: string): Option<seq<string>> {
    match PercentDecode(token)
    case None => None
    case Some(d) => UnescapeAll(Split(d))
  }

  lemma {:induction false} PointerUnder(name: string, token: string)
    requires forall k :: 0 <= k < |name| ==> name[k] != '%' && name[k] != '~' && name[k] != '/'
    ensures Pointer("#" + ("/" + (name + ("/" + token)))) == Under(name, TokenKeys(token))
  {
    var slashed := "/" + (name + "/");
    var text := "#" + ("/" + (name + ("/" + token)));
    assert text[1..] == slashed + token;
    NothingToDecode(slashed, token);
    if PercentDecode(token).Some? {
      var d := PercentDecode(token).value;
      assert (slashed + d)[0] == '/' && (slashed + d)[1..] == name + ("/" + d);
      SplitAtSlash(name, d);
      NothingToUnescape(name);
      assert ([name] + Split(d))[1..] == Split(d);
    }
  }

  lemma {:induction false} PointerOfLocal(token: string)
    ensures Pointer(LOCAL + token) == Under("$defs", TokenKeys(token))
  {
    LocalText(token);
    PointerUnder("$defs", token);
  }

  lemma {:induction false} LocalText(token: string)
    ensures LOCAL + token == "#" + ("/" + ("$defs" + ("/" + token)))
  {
    Reassociate("$defs", "/", token);
    Reassociate("/", "$defs" + "/", token);
    Reassociate("#", "/" + ("$defs" + "/"), token);
    assert LOCAL == "#" + ("/" + ("$defs" + "/"));
  }

  lemma {:induction false} NothingToUnescape(token: string)
    requires forall k :: 0 <= k < |token| ==> token[k] != '~' && token[k] != '/'
    ensures Unescape(token) == Some(token)
  {
    if token != "" {
      NothingToUnescape(token[1..]);
      assert [token[0]] + token[1..] == token;
    }
  }

  // ---------- percent escapes cannot go unnoticed ----------

  /** How many characters are percent signs or twos: neither kind of unescaping of a token touches
      those, while undoing a percent escape always loses one. */
  function Weight(s: string): nat {
    if s == "" then 0 else (if s[0] == '%' || s[0] == '2' then 1 else 0) + Weight(s[1..])
  }

  lemma {:induction false} WeightOfSum(a: string, b: string)
    ensures Weight(a + b) == Weight(a) + Weight(b)
  {
    if a == "" {
      assert a + b == b;
    } else {
      assert (a + b)[1..] == a[1..] + b;
      WeightOfSum(a[1..], b);
    }
  }

  lemma {:induction false} WeightOfTail(s: string, n: nat)
    requires n <= |s|
    ensures Weight(s[n..]) <= Weight(s)
  {
    WeightOfSum(s[..n], s[n..]);
    assert s[..n] + s[n..] == s;
  }

  lemma {:induction false} EscapeWeighsMore(s: string)
    requires HeadChar(s).Some?
    ensures Weight([HeadChar(s).value.0]) + Weight(s[HeadChar(s).value.1..]) < Weight(s)
  {
    var (c, length) := HeadChar(s).value;
    var b := HeadByte(s).value;
    assert s[1..][1..] == s[2..] && s[2..][1..] == s[3..];
    assert Weight(s) == 1 + Weight(s[1..]);
    assert Weight(s[1..]) == (if s[1] == '2' then 1 else if s[1] == '%' then 1 else 0) + Weight(s[2..]);
    assert Weight(s[2..]) == (if s[2] == '2' then 1 else if s[2] == '%' then 1 else 0) + Weight(s[3..]);
    assert Weight([c]) == if c == '%' || c == '2' then 1 else 0;
    if b < 0x80 {
      EscapeOfWeighty(s);
    } else {
      WeightOfTail(s[3..], length - 3);
      assert s[3..][length - 3..] == s[length..];
    }
  }

  /** The escapes of a percent sign and of a two are "%25" and "%32". */
  lemma {:induction false} EscapeOfWeighty(s: string)
    requires HeadByte(s).Some? && HeadByte(s).value < 0x80
    ensures HeadByte(s).value as char in "%2" ==> s[1] == '2' || s[2] == '2'
  {
  }

  lemma {:induction false} DecodedWeighsLess(s: string)
    requires PercentDecode(s).Some?
    ensures Weight(PercentDecode(s).value) <= Weight(s)
    ensures !NoPercent(s) ==> Weight(PercentDecode(s).value) < Weight(s)
    decreases |s|
  {
    if s != "" && s[0] != '%' {
      DecodedWeighsLess(s[1..]);
      WeightOfSum([s[0]], PercentDecode(s[1..]).value);
      assert [s[0]][1..] == "";
      assert !NoPercent(s) ==> !NoPercent(s[1..]);
    } else if s != "" {
      var (c, length) := HeadChar(s).value;
      DecodedWeighsLess(s[length..]);
      WeightOfSum([c], PercentDecode(s[length..]).value);
      EscapeWeighsMore(s);
    }
  }

  lemma {:induction false} ReplacingKeepsWeight(s: string, b: char, to: char)
    requires b in "01" && to in "/~"
    ensures Weight(ReplacePair(s, '~', b, to)) == Weight(s)
  {
    if |s| < 2 {
    } else if s[0] == '~' && s[1] == b {
      ReplacingKeepsWeight(s[2..], b, to);
      assert ([to] + ReplacePair(s[2..], '~', b, to))[1..] == ReplacePair(s[2..], '~', b, to);
      assert s[1..][1..] == s[2..];
    } else {
      ReplacingKeepsWeight(s[1..], b, to);
      assert ([s[0]] + ReplacePair(s[1..], '~', b, to))[1..] == ReplacePair(s[1..], '~', b, to);
    }
  }

  lemma {:induction false} DecodingKeepsWeight(token: string)
    ensures Weight(Decode(token)) == Weight(token)
  {
    ReplacingKeepsWeight(token, '1', '/');
    ReplacingKeepsWeight(ReplacePair(token, '~', '1', '/'), '0', '~');
  }

  // ---------- where the first token ends ----------

  lemma {:induction false} FirstPart(s: string)
    ensures |Split(s)| == 1 ==> Split(s)[0] == s
    ensures |Split(s)| > 1 ==> exists rest :: s == Split(s)[0] + ("/" + rest)
  {
    if s != "" {
      FirstPart(s[1..]);
      var parts := Split(s[1..]);
      assert s == [s[0]] + s[1..];
      if s[0] == '/' {
        assert s == "" + ("/" + s[1..]);
      } else if |parts| > 1 {
        var rest :| s[1..] == parts[0] + ("/" + rest);
        Reassociate([s[0]], parts[0], "/" + rest);
      }
    }
  }

  lemma {:induction false} FirstPartWeighsLess(s: string)
    ensures Weight(Split(s)[0]) <= Weight(s)
  {
    FirstPart(s);
    if |Split(s)| > 1 {
      var rest :| s == Split(s)[0] + ("/" + rest);
      WeightOfSum(Split(s)[0], "/" + rest);
    }
  }

  lemma {:induction false} ReplacingKeepsHead(c: char, rest: string, x: char, to: char)
    requires !(c == '~' && rest != "" && rest[0] == x)
    ensures ReplacePair([c] + rest, '~', x, to) == [c] + ReplacePair(rest, '~', x, to)
  {
    var s := [c] + rest;
    assert s[1..] == rest;
  }

  lemma {:induction false} ReplacingTakesPair(rest: string, x: char, to: char)
    ensures ReplacePair(['~', x] + rest, '~', x, to) == [to] + ReplacePair(rest, '~', x, to)
  {
    var s := ['~', x] + rest;
    assert s[2..] == rest;
  }

  /** Replacing in `a`, a slash and `b` is replacing in `a` and in `b`. */
  ghost predicate StopsAtSlash(a: string, b: string, x: char, to: char) {
    ReplacePair(a + ("/" + b), '~', x, to) == ReplacePair(a, '~', x, to) + ("/" + ReplacePair(b, '~', x, to))
  }

  lemma {:induction false} HeadThenSlash(c: char, a: string, b: string, x: char, to: char)
    requires x in "01" && StopsAtSlash(a, b, x, to) && !(c == '~' && a != "" && a[0] == x)
    ensures StopsAtSlash([c] + a, b, x, to)
  {
    var tail := a + ("/" + b);
    assert tail[0] == if a == "" then '/' else a[0];
    ReplacingKeepsHead(c, a, x, to);
    ReplacingKeepsHead(c, tail, x, to);
    Reassociate([c], a, "/" + b);
    Reassociate([c], ReplacePair(a, '~', x, to), "/" + ReplacePair(b, '~', x, to));
  }

  lemma {:induction false} PairThenSlash(a: string, b: string, x: char, to: char)
    requires StopsAtSlash(a, b, x, to)
    ensures StopsAtSlash(['~', x] + a, b, x, to)
  {
    ReplacingTakesPair(a, x, to);
    ReplacingTakesPair(a + ("/" + b), x, to);
    Reassociate(['~', x], a, "/" + b);
    Reassociate([to], ReplacePair(a, '~', x, to), "/" + ReplacePair(b, '~', x, to));
  }

  lemma {:induction false} ReplacingStopsAtSlash(a: string, b: string, x: char, to: char)
    requires x in "01"
    ensures StopsAtSlash(a, b, x, to)
  {
    if a == "" {
      ReplacingKeepsHead('/', b, x, to);
      assert a + ("/" + b) == ['/'] + b;
      assert ReplacePair(a, '~', x, to) + ("/" + ReplacePair(b, '~', x, to)) == ['/'] + ReplacePair(b, '~', x, to);
    } else if 2 <= |a| && a[0] == '~' && a[1] == x {
      ReplacingStopsAtSlash(a[2..], b, x, to);
      PairThenSlash(a[2..], b, x, to);
      assert a == ['~', x] + a[2..];
    } else {
      ReplacingStopsAtSlash(a[1..], b, x, to);
      HeadThenSlash(a[0], a[1..], b, x, to);
      assert a == [a[0]] + a[1..];
    }
  }

  lemma {:induction false} DecodingStopsAtSlash(a: string, b: string)
    ensures Decode(a + ("/" + b)) == Decode(a) + ("/" + Decode(b))
  {
    ReplacingStopsAtSlash(a, b, '1', '/');
    ReplacingStopsAtSlash(ReplacePair(a, '~', '1', '/'), ReplacePair(b, '~', '1', '/'), '0', '~');
  }

  // ---------- when one decoded token is the whole pointer ----------

  /** A plain token's JSON Pointer selects the definition of the decoded key, and nothing inside it. */
  lemma {:induction false} PlainTokenIsRead(token: string)
    requires PlainToken(token)
    ensures Pointer(LOCAL + token) == Some(["$defs", Decode(token)])
  {
    PointerOfLocal(token);
    NothingToDecode(token, "");
    assert token + "" == token;
    EscapedHasNoSlash(token);
    SplitPlain(token);
    UnescapeInverts(token);
    DecodeUnescapes(token);
    var none: seq<string> := [];
    assert [token][1..] == none && UnescapeAll(none) == Some(none);
    assert [Decode(token)] + none == [Decode(token)];
    assert UnescapeAll([token]) == Some([Decode(token)]);
    assert ["$defs"] + [Decode(token)] == ["$defs", Decode(token)];
  }

  /** For any other token its JSON Pointer, if there is one, enters a definition of another key. */
  lemma {:induction false} OtherTokensAreMisread(token: string)
    requires !PlainToken(token) && Pointer(LOCAL + token).Some?
    ensures
      var keys := Pointer(LOCAL + token).value;
      2 <= |keys| && keys[0] == "$defs" && keys[1] != Decode(token)
  {
    PointerOfLocal(token);
    var d := PercentDecode(token).value;
    var first := Split(d)[0];
    var key := UnescapeAll(Split(d)).value[0];
    assert Pointer(LOCAL + token).value[1] == key;
    FirstPart(d);
    DecodeUnescapes(first);
    if !NoPercent(token) {
      DecodedWeighsLess(token);
      FirstPartWeighsLess(d);
      DecodingKeepsWeight(first);
      DecodingKeepsWeight(token);
    } else {
      NothingToDecode(token, "");
      assert token + "" == token && d == token;
      if |Split(d)| == 1 {
        UnescapeInverts(token);
      } else {
        var rest :| d == first + ("/" + rest);
        DecodingStopsAtSlash(first, rest);
      }
    }
  }

  /** Taking all that follows `#/$defs/` for one escaped key reads its JSON Pointer correctly exactly when
      it is a single token in which every tilde starts an escape, and no percent sign occurs. */
  lemma {:induction false} KeyIsThePointerIff(token: string)
    ensures Pointer(LOCAL + token) == Some(["$defs", Decode(token)]) <==> PlainToken(token)
  {
    if PlainToken(token) {
      PlainTokenIsRead(token);
    } else if Pointer(LOCAL + token).Some? {
      OtherTokensAreMisread(token);
    }
  }

  // ---------- when splitting and decoding every token is the whole pointer ----------

  function TotalWeight(parts: seq<string>): nat {
    if parts == [] then 0 else Weight(parts[0]) + TotalWeight(parts[1..])
  }

  lemma {:induction false} SplittingKeepsWeight(s: string)
    ensures TotalWeight(Split(s)) == Weight(s)
  {
    if s != "" {
      SplittingKeepsWeight(s[1..]);
      var parts := Split(s[1..]);
      if s[0] == '/' {
        assert ([""] + parts)[1..] == parts;
      } else {
        var first := [s[0]] + parts[0];
        assert first[1..] == parts[0];
        assert ([first] + parts[1..])[1..] == parts[1..];
      }
    }
  }

  lemma {:induction false} DecodingAllKeepsWeight(tokens: seq<string>)
    ensures TotalWeight(MapDecode(tokens)) == TotalWeight(tokens)
  {
    if tokens != [] {
      DecodingKeepsWeight(tokens[0]);
      DecodingAllKeepsWeight(tokens[1..]);
    }
  }

  /** Unescaping all tokens is decoding them all, where it is defined: when each is properly escaped. */
  lemma {:induction false} AllUnescaped(tokens: seq<string>)
    ensures UnescapeAll(tokens).Some? <==> forall k :: 0 <= k < |tokens| ==> Escaped(tokens[k])
    ensures UnescapeAll(tokens).Some? ==> UnescapeAll(tokens).value == MapDecode(tokens)
  {
    if tokens != [] {
      UnescapeInverts(tokens[0]);
      DecodeUnescapes(tokens[0]);
      AllUnescaped(tokens[1..]);
      if UnescapeAll(tokens[1..]).Some? && Escaped(tokens[0]) {
        forall k | 0 <= k < |tokens|
          ensures Escaped(tokens[k])
        {
          assert k > 0 ==> tokens[k] == tokens[1..][k - 1];
        }
      } else if !Escaped(tokens[0]) {
        assert !Escaped(tokens[0]);
      } else {
        var k :| 0 <= k < |tokens[1..]| && !Escaped(tokens[1..][k]);
        assert tokens[k + 1] == tokens[1..][k];
      }
    }
  }

  predicate AllEscaped(tokens: seq<string>) {
    forall k :: 0 <= k < |tokens| ==> Escaped(tokens[k])
  }

  lemma {:induction false} PointerOfRoot(rest: string)
    ensures Pointer("#/" + rest) == TokenKeys(rest)
  {
    assert ("#/" + rest)[1..] == "/" + rest;
    NothingToDecode("/", rest);
    if PercentDecode(rest).Some? {
      assert ("/" + PercentDecode(rest).value)[1..] == PercentDecode(rest).value;
    }
  }

  /** Splitting what follows `#/` at its slashes and decoding every token gives the keys of its JSON Pointer
      exactly when every token is properly escaped and no percent sign occurs. */
  lemma {:induction false} SplitKeysAreThePointerIff(rest: string)
    ensures Pointer("#/" + rest) == Some(MapDecode(Split(rest))) <==> NoPercent(rest) && AllEscaped(Split(rest))
  {
    PointerOfRoot(rest);
    AllUnescaped(Split(rest));
    if NoPercent(rest) {
      NothingToDecode(rest, "");
      assert rest + "" == rest;
    } else if PercentDecode(rest).Some? {
      var d := PercentDecode(rest).value;
      AllUnescaped(Split(d));
      DecodedWeighsLess(rest);
      SplittingKeepsWeight(rest);
      SplittingKeepsWeight(d);
      DecodingAllKeepsWeight(Split(rest));
      DecodingAllKeepsWeight(Split(d));
    }
  }
}
