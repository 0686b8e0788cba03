/** JSON Pointer reference tokens (sections 3 and 4 of RFC 6901) as both scripts decode them. */
module JsonPointer {
  /** Text replacement of a two-character pattern, leftmost matches first. */
  function ReplacePair(s: string, a: char, b: char, to: char): (r: string)
    ensures |r| <= |s|
  {
    if |s| < 2 then s
    else if s[0] == a && s[1] == b then [to] + ReplacePair(s[2..], a, b, to)
    else [s[0]] + ReplacePair(s[1..], a, b, to)
  }

  function Decode(token: string): string {
    ReplacePair(ReplacePair(token, '~', '1', '/'), '~', '0', '~')
  }

  function Escape(key: string): string {
    if key == "" then ""
    else (if key[0] == '~' then "~0" else if key[0] == '/' then "~1" else [key[0]]) + Escape(key[1..])
  }

  /** Only the tilde escaped: what undoing the slash escapes of an escaped key leaves. */
  function EscapeTilde(key: string): string {
    if key == "" then ""
    else (if key[0] == '~' then "~0" else [key[0]]) + EscapeTilde(key[1..])
  }

  /** A token as section 3 writes it: every tilde starts an escape, and no slash is left. */
  predicate Escaped(token: string) {
    token == "" ||
    (if token[0] == '~' then 1 < |token| && token[1] in "01" && Escaped(token[2..])
     else token[0] != '/' && Escaped(token[1..]))
  }

  lemma {:induction false} SlashesFirst(key: string)
    ensures ReplacePair(Escape(key), '~', '1', '/') == EscapeTilde(key)
  {
    if key != "" {
      SlashesFirst(key[1..]);
      var head := if key[0] == '~' then "~0" else if key[0] == '/' then "~1" else [key[0]];
      var rest := Escape(key[1..]);
      assert Escape(key) == head + rest;
      if key[0] == '~' {
        assert (head + rest)[1..] == ['0'] + rest;
        assert (['0'] + rest)[1..] == rest;
      } else if key[0] == '/' {
        assert (head + rest)[2..] == rest;
      } else {
        assert (head + rest)[1..] == rest;
      }
    }
  }

  lemma {:induction false} TildesSecond(key: string)
    ensures ReplacePair(EscapeTilde(key), '~', '0', '~') == key
  {
    if key != "" {
      TildesSecond(key[1..]);
      var rest := EscapeTilde(key[1..]);
      if key[0] == '~' {
        assert ("~0" + rest)[2..] == rest;
      } else {
        assert ([key[0]] + rest)[1..] == rest;
      }
    }
  }

  /** Decoding undoes escaping for every key. */
  lemma {:induction false} DecodeEscape(key: string)
    ensures Decode(Escape(key)) == key
  {
    SlashesFirst(key);
    TildesSecond(key);
  }

  lemma {:induction false} EscapeIsEscaped(key: string)
    ensures Escaped(Escape(key))
  {
    if key != "" {
      EscapeIsEscaped(key[1..]);
      var rest := Escape(key[1..]);
      if key[0] == '~' || key[0] == '/' {
        assert Escape(key)[2..] == rest;
      } else {
        assert Escape(key)[1..] == rest;
      }
    }
  }

  /** Every properly escaped token is the escape of one key, namely the one it decodes to. */
  lemma {:induction false} EscapeDecode(token: string)
    requires Escaped(token)
    ensures Escape(Decode(token)) == token
  {
    var key := KeyOf(token);
    DecodeEscape(key);
  }

  ghost function KeyOf(token: string): (key: string)
    requires Escaped(token)
    ensures Escape(key) == token
  {
    if token == "" then ""
    else if token[0] == '~' then
      var rest := KeyOf(token[2..]);
      var key := [if token[1] == '0' then '~' else '/'] + rest;
      assert key[1..] == rest && token == token[..2] + token[2..];
      key
    else
      var rest := KeyOf(token[1..]);
      var key := [token[0]] + rest;
      assert key[1..] == rest && token == [token[0]] + token[1..];
      key
  }

  /** Undoing the tilde escapes first, against section 4, breaks keys that hold "~1". */
  lemma {:induction false} OrderMatters()
    ensures
      var key := "~1";
      && ReplacePair(ReplacePair(Escape(key), '~', '0', '~'), '~', '1', '/') == "/"
      && Decode(Escape(key)) == key
  {
    assert Escape("~1") == "~0" + Escape("1");
    assert Escape("1") == "1" + Escape("");
    assert Escape("~1") == "~01";
    assert "~01"[2..] == "1";
    assert ReplacePair("~01", '~', '0', '~') == "~1";
    assert "~1"[2..] == "";
    DecodeEscape("~1");
  }

  // ---------- whole pointers ----------

  function Split(s: string): (parts: seq<string>)
    ensures 0 < |parts|
  {
    if s == "" then [""]
    else
      var rest := Split(s[1..]);
      if s[0] == '/' then [""] + rest else [[s[0]] + rest[0]] + rest[1..]
  }

  function Join(parts: seq<string>): string
    requires 0 < |parts|
  {
    if |parts| == 1 then parts[0] else parts[0] + ("/" + Join(parts[1..]))
  }

  function MapEscape(keys: seq<string>): (tokens: seq<string>)
    ensures |tokens| == |keys|
  {
    if keys == [] then [] else [Escape(keys[0])] + MapEscape(keys[1..])
  }

  function MapDecode(tokens: seq<string>): (keys: seq<string>)
    ensures |keys| == |tokens|
  {
    if tokens == [] then [] else [Decode(tokens[0])] + MapDecode(tokens[1..])
  }

  lemma {:induction false} EscapedHasNoSlash(token: string)
    requires Escaped(token)
    ensures NoSlash(token)
  {
    if token != "" {
      if token[0] == '~' {
        EscapedHasNoSlash(token[2..]);
        assert token == [token[0], token[1]] + token[2..];
      } else {
        EscapedHasNoSlash(token[1..]);
        assert token == [token[0]] + token[1..];
      }
    }
  }

  predicate NoSlash(part: string) {
    forall k :: 0 <= k < |part| ==> part[k] != '/'
  }

  lemma {:induction false} SplitPlain(part: string)
    requires NoSlash(part)
    ensures Split(part) == [part]
  {
    if part != "" {
      SplitPlain(part[1..]);
      assert part == [part[0]] + part[1..];
    }
  }

  lemma {:induction false} SplitAtSlash(part: string, tail: string)
    requires NoSlash(part)
    ensures Split(part + ("/" + tail)) == [part] + Split(tail)
  {
    var s := part + ("/" + tail);
    if part == "" {
      assert s[1..] == tail;
    } else {
      SplitAtSlash(part[1..], tail);
      assert s[1..] == part[1..] + ("/" + tail);
      assert ([part[1..]] + Split(tail))[1..] == Split(tail);
      assert part == [part[0]] + part[1..];
    }
  }

  lemma {:induction false} SplitJoin(parts: seq<string>)
    requires parts != [] && forall k :: 0 <= k < |parts| ==> NoSlash(parts[k])
    ensures Split(Join(parts)) == parts
  {
    if |parts| == 1 {
      SplitPlain(parts[0]);
    } else {
      SplitJoin(parts[1..]);
      SplitAtSlash(parts[0], Join(parts[1..]));
    }
  }

  lemma {:induction false} TokensDecode(keys: seq<string>)
    ensures MapDecode(MapEscape(keys)) == keys
    ensures forall k :: 0 <= k < |keys| ==> NoSlash(MapEscape(keys)[k])
  {
    if keys != [] {
      TokensDecode(keys[1..]);
      EscapeIsEscaped(keys[0]);
      EscapedHasNoSlash(Escape(keys[0]));
      DecodeEscape(keys[0]);
      var tokens := MapEscape(keys);
      assert tokens[0] == Escape(keys[0]) && tokens[1..] == MapEscape(keys[1..]);
    }
  }

  /** A pointer written by escaping and joining any nonempty list of keys is taken apart into exactly
      those keys. */
  lemma {:induction false} PointerRoundTrip(keys: seq<string>)
    requires keys != []
    ensures MapDecode(Split(Join(MapEscape(keys)))) == keys
  {
    TokensDecode(keys);
    SplitJoin(MapEscape(keys));
  }
}
