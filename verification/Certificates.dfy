/** PEM bundles and serial numbers as text (sections 2, 3 and 5 of RFC 7468; section 4.1.2.2 of RFC 5280). */
module Certificates {
  import opened Wrappers
  import opened TextTools

  type Der = seq<int>

  /** The decoder of a single block: its label and content, or nothing. */
  type BlockDecoder = string -> Option<(string, Der)>

  datatype Markers = Markers(begin: string, end: string, kind: string, decode: BlockDecoder)

  /** What a block looks like; nothing below depends on the spelling of the markers. */
  type Format = m: Markers | m.end != "" witness Markers("", " ", "", _ => None)

  function CertificateFormat(decode: BlockDecoder): Format {
    Markers("-----BEGIN CERTIFICATE-----", "-----END CERTIFICATE-----", "CERTIFICATE", decode)
  }

  /** A certificate block: the opening marker, a body in which the closing marker does not begin, and
      the closing marker; the decoder reads it as a certificate. */
  ghost predicate IsBlock(format: Format, block: string, der: Der) {
    && |format.begin| + |format.end| <= |block| && format.begin <= block
    && Find(block[|format.begin|..], format.end) == Some(|block| - |format.begin| - |format.end|)
    && format.decode(block) == Some((format.kind, der))
  }

  /** Blocks separated by single line endings, with nothing else anywhere. */
  datatype Bundle = Last(block: string) | More(block: string, crlf: bool, rest: Bundle)

  function LineEnd(crlf: bool): string { if crlf then "\r\n" else "\n" }

  function Print(b: Bundle): string {
    match b
    case Last(block) => block
    case More(block, crlf, rest) => block + (LineEnd(crlf) + Print(rest))
  }

  ghost predicate IsBundle(format: Format, b: Bundle, ders: seq<Der>) {
    && ders != []
    && IsBlock(format, b.block, ders[0])
    && (if b.Last? then |ders| == 1 else IsBundle(format, b.rest, ders[1..]))
  }

  /** The leading block of a text, with what follows it. */
  function TakeBlock(format: Format, s: string): Option<(string, Der, string)> {
    if !(format.begin <= s) then None
    else
      match Find(s[|format.begin|..], format.end)
      case None => None
      case Some(offset) =>
        var length := |format.begin| + offset + |format.end|;
        match format.decode(s[..length])
        case None => None
        case Some((kind, der)) => if kind != format.kind then None else Some((s[..length], der, s[length..]))
  }

  function SkipLineEnd(s: string): Option<(bool, string)> {
    if "\r\n" <= s then Some((true, s[2..]))
    else if "\n" <= s then Some((false, s[1..]))
    else None
  }

  function Scan(format: Format, s: string): (r: Option<(Bundle, seq<Der>)>)
    decreases |s|
  {
    match TakeBlock(format, s)
    case None => None
    case Some((block, der, rest)) =>
      if rest == "" then Some((Last(block), [der]))
      else
        match SkipLineEnd(rest)
        case None => None
        case Some((crlf, next)) =>
          match Scan(format, next)
          case None => None
          case Some((b, ders)) => Some((More(block, crlf, b), [der] + ders))
  }

  /** Where a block's body ends does not depend on what follows the block. */
  lemma {:induction false} BlockIsLocal(format: Format, block: string, rest: string, offset: nat)
    requires |format.begin| + offset + |format.end| == |block|
    ensures Find((block + rest)[|format.begin|..], format.end) == Some(offset)
       <==> Find(block[|format.begin|..], format.end) == Some(offset)
  {
    var body := block[|format.begin|..];
    CutAfter(block, rest, |format.begin|);
    FindIsLocal(body, rest, format.end, offset);
  }

  lemma {:induction false} TakenBlockIsBlock(format: Format, s: string)
    requires TakeBlock(format, s).Some?
    ensures
      var (block, der, rest) := TakeBlock(format, s).value;
      IsBlock(format, block, der) && s == block + rest
  {
    var offset := Find(s[|format.begin|..], format.end).value;
    var length := |format.begin| + offset + |format.end|;
    PrefixOfCut(format.begin, s, length);
    BlockIsLocal(format, s[..length], s[length..], offset);
  }

  lemma {:induction false} BlockIsTaken(format: Format, block: string, der: Der, rest: string)
    requires IsBlock(format, block, der)
    ensures TakeBlock(format, block + rest) == Some((block, der, rest))
  {
    BlockIsLocal(format, block, rest, |block| - |format.begin| - |format.end|);
    CutAfter(block, rest, 0);
  }

  lemma {:induction false} LineEndIsSkipped(crlf: bool, rest: string)
    ensures LineEnd(crlf) + rest != "" && SkipLineEnd(LineEnd(crlf) + rest) == Some((crlf, rest))
  {
    assert "\n"[0] != "\r\n"[0];
    assert (LineEnd(crlf) + rest)[|LineEnd(crlf)|..] == rest;
    assert (LineEnd(crlf) + rest)[0] == LineEnd(crlf)[0];
  }

  lemma {:induction false} ScanIsSound(format: Format, s: string)
    requires Scan(format, s).Some?
    ensures Print(Scan(format, s).value.0) == s && IsBundle(format, Scan(format, s).value.0, Scan(format, s).value.1)
    decreases |s|
  {
    TakenBlockIsBlock(format, s);
    var (block, der, rest) := TakeBlock(format, s).value;
    if rest != "" {
      var (crlf, next) := SkipLineEnd(rest).value;
      ScanIsSound(format, next);
      PrefixSplit(LineEnd(crlf), rest);
    }
  }

  lemma {:induction false} LastBlockIsScanned(format: Format, block: string, der: Der)
    requires IsBlock(format, block, der)
    ensures Scan(format, block) == Some((Last(block), [der]))
  {
    BlockIsTaken(format, block, der, "");
    assert block + "" == block;
  }

  lemma {:induction false} LeadingBlockIsScanned(format: Format, block: string, der: Der, crlf: bool, text: string)
    requires IsBlock(format, block, der) && Scan(format, text).Some?
    ensures
      var (b, ders) := Scan(format, text).value;
      Scan(format, block + (LineEnd(crlf) + text)) == Some((More(block, crlf, b), [der] + ders))
  {
    var rest := LineEnd(crlf) + text;
    BlockIsTaken(format, block, der, rest);
    LineEndIsSkipped(crlf, text);
  }

  lemma {:induction false} ScanIsComplete(format: Format, b: Bundle, ders: seq<Der>)
    requires IsBundle(format, b, ders)
    ensures Scan(format, Print(b)) == Some((b, ders))
  {
    assert ders == [ders[0]] + ders[1..];
    match b
    case Last(block) =>
      LastBlockIsScanned(format, block, ders[0]);
      assert ders == [ders[0]];
    case More(block, crlf, rest) =>
      ScanIsComplete(format, rest, ders[1..]);
      LeadingBlockIsScanned(format, block, ders[0], crlf, Print(rest));
  }

  /** The certificates of the whole text are those already read and those of what remains. */
  ghost predicate Continues(whole: Option<(Bundle, seq<Der>)>, certificates: seq<Der>,
                            remaining: Option<(Bundle, seq<Der>)>) {
    && (whole.Some? <==> remaining.Some?)
    && (whole.Some? ==> whole.value.1 == certificates + remaining.value.1)
  }

  lemma {:induction false} ContinuesPastBlock(format: Format, whole: Option<(Bundle, seq<Der>)>, certificates: seq<Der>,
                                              remaining: string, block: string, der: Der, rest: string)
    requires Continues(whole, certificates, Scan(format, remaining))
    requires TakeBlock(format, remaining) == Some((block, der, rest))
    ensures rest == "" ==> whole.Some? && whole.value.1 == certificates + [der]
    ensures rest != "" && SkipLineEnd(rest).None? ==> whole.None?
    ensures rest != "" && SkipLineEnd(rest).Some? ==>
              Continues(whole, certificates + [der], Scan(format, SkipLineEnd(rest).value.1))
  {
    if rest != "" && whole.Some? {
      Reassociate(certificates, [der], Scan(format, SkipLineEnd(rest).value.1).value.1);
    }
  }

  /** Splits a bundle; it accepts exactly the bundles of the grammar and returns their certificates. */
  method CertificateBundleDer(decode: BlockDecoder, value: string) returns (r: Option<seq<Der>>)
    ensures
      var format := Markers("-----BEGIN CERTIFICATE-----", "-----END CERTIFICATE-----", "CERTIFICATE", decode);
      forall ders :: Accepts(format, value, ders) <==> r == Some(ders)
  {
    r := SplitBundle(CertificateFormat(decode), value);
  }

  method SplitBundle(format: Format, value: string) returns (r: Option<seq<Der>>)
    ensures forall ders :: Accepts(format, value, ders) <==> r == Some(ders)
  {
    ScanDecides(format, value);
    ghost var whole := Scan(format, value);
    var remaining := value;
    var certificates := [];
    while true
      invariant Continues(whole, certificates, Scan(format, remaining))
      decreases |remaining|
    {
      if !(format.begin <= remaining) {
        return None;
      }
      var afterBegin := remaining[|format.begin|..];
      var endOffset := Find(afterBegin, format.end);
      if endOffset.None? {
        return None;
      }
      var blockLength := |format.begin| + endOffset.value + |format.end|;
      var decoded := format.decode(remaining[..blockLength]);
      if decoded.None? || decoded.value.0 != format.kind {
        return None;
      }
      ContinuesPastBlock(format, whole, certificates, remaining,
                         remaining[..blockLength], decoded.value.1, remaining[blockLength..]);
      certificates := certificates + [decoded.value.1];
      remaining := remaining[blockLength..];
      if remaining == "" {
        return Some(certificates);
      }
      if "\r\n" <= remaining {
        remaining := remaining[2..];
      } else if "\n" <= remaining {
        remaining := remaining[1..];
      } else {
        return None;
      }
    }
  }

  ghost predicate Accepts(format: Format, value: string, ders: seq<Der>) {
    exists b :: IsBundle(format, b, ders) && Print(b) == value
  }

  lemma {:induction false} ScanDecides(format: Format, value: string)
    ensures forall ders :: Accepts(format, value, ders) <==>
              Scan(format, value).Some? && Scan(format, value).value.1 == ders
  {
    if Scan(format, value).Some? {
      ScanIsSound(format, value);
    }
    forall ders | Accepts(format, value, ders)
      ensures Scan(format, value).Some? && Scan(format, value).value.1 == ders
    {
      var b :| IsBundle(format, b, ders) && Print(b) == value;
      ScanIsComplete(format, b, ders);
    }
  }

  /** One text is the print of at most one bundle, with one list of certificates. */
  lemma {:induction false} BundleIsUnique(format: Format, a: Bundle, aDers: seq<Der>, b: Bundle, bDers: seq<Der>)
    requires IsBundle(format, a, aDers) && IsBundle(format, b, bDers) && Print(a) == Print(b)
    ensures a == b && aDers == bDers
  {
    ScanIsComplete(format, a, aDers);
    ScanIsComplete(format, b, bDers);
  }

  function JoinLines(blocks: seq<string>): string
    requires blocks != []
  {
    if |blocks| == 1 then blocks[0] else blocks[0] + ("\n" + JoinLines(blocks[1..]))
  }

  function Encoded(encode: Der -> string, ders: seq<Der>): (blocks: seq<string>)
    ensures |blocks| == |ders|
  {
    if ders == [] then [] else [encode(ders[0])] + Encoded(encode, ders[1..])
  }

  /** Splitting the newline-joined encodings of any nonempty list of certificates returns that list,
      for any encoder whose blocks the decoder reads back. */
  lemma {:induction false} BundleRoundTrip(format: Format, encode: Der -> string, ders: seq<Der>)
    requires ders != [] && forall der :: der in ders ==> IsBlock(format, encode(der), der)
    ensures Scan(format, JoinLines(Encoded(encode, ders))).Some?
    ensures Scan(format, JoinLines(Encoded(encode, ders))).value.1 == ders
  {
    var blocks := Encoded(encode, ders);
    assert ders == [ders[0]] + ders[1..];
    if |ders| == 1 {
      assert ders == [ders[0]];
      LastBlockIsScanned(format, blocks[0], ders[0]);
    } else {
      BundleRoundTrip(format, encode, ders[1..]);
      assert blocks[1..] == Encoded(encode, ders[1..]);
      LeadingBlockIsScanned(format, blocks[0], ders[0], false, JoinLines(blocks[1..]));
    }
  }

  /** A block as the encoder writes it: the markers around a body without dashes. */
  function Framed(format: Format, body: string): string {
    format.begin + (body + format.end)
  }

  lemma {:induction false} FramedIsBlock(format: Format, body: string, der: Der)
    requires forall k :: 0 <= k < |body| ==> body[k] != format.end[0]
    requires format.decode(Framed(format, body)) == Some((format.kind, der))
    ensures IsBlock(format, Framed(format, body), der)
  {
    var block := Framed(format, body);
    CutAfter(format.begin, body + format.end, 0);
    assert body + format.end == body + (format.end + "");
    FindAfter(body, format.end, "");
  }

  function FramedBy(decode: BlockDecoder, body: Der -> string): Der -> string {
    der => Framed(CertificateFormat(decode), body(der))
  }

  /** For the certificate markers nothing needs to be assumed of where the closing marker can begin:
      the bodies are free of dashes, as Base64 and line endings are, and the decoder undoes the
      encoder. Then the newline-joined encodings of any nonempty list of certificates are split
      into that list. */
  lemma {:induction false} EncodedBundleRoundTrip(decode: BlockDecoder, body: Der -> string, ders: seq<Der>)
    requires ders != []
    requires forall der, k :: der in ders && 0 <= k < |body(der)| ==> body(der)[k] != '-'
    requires forall der :: der in ders ==>
               decode(Framed(CertificateFormat(decode), body(der))) == Some(("CERTIFICATE", der))
    ensures
      var text := JoinLines(Encoded(FramedBy(decode, body), ders));
      && Scan(CertificateFormat(decode), text).Some?
      && Scan(CertificateFormat(decode), text).value.1 == ders
  {
    var format := CertificateFormat(decode);
    assert format.end[0] == '-';
    forall der | der in ders
      ensures IsBlock(format, FramedBy(decode, body)(der), der)
    {
      FramedIsBlock(format, body(der), der);
    }
    BundleRoundTrip(format, FramedBy(decode, body), ders);
  }

  // ---------- one optional final line ending ----------

  function WithoutFinalLineEnd(value: string): string {
    if |value| >= 2 && value[|value| - 2] == '\r' && value[|value| - 1] == '\n' then value[..|value| - 2]
    else if |value| >= 1 && value[|value| - 1] == '\n' then value[..|value| - 1]
    else value
  }

  function NormalizePem(value: string): Option<string> {
    var normalized := WithoutFinalLineEnd(value);
    if normalized != "" && Trim(normalized) == normalized then Some(normalized) else None
  }

  lemma {:induction false} StripKeepsText(text: string)
    requires text != "" && Trim(text) == text
    ensures WithoutFinalLineEnd(text) == text
    ensures WithoutFinalLineEnd(text + "\n") == text
    ensures WithoutFinalLineEnd(text + "\r\n") == text
  {
    UnpaddedEnds(text);
    var lf, crlf := text + "\n", text + "\r\n";
    assert lf[..|text|] == text && crlf[..|text|] == text;
  }

  lemma {:induction false} StripTakesOneLineEnd(value: string)
    ensures
      var text := WithoutFinalLineEnd(value);
      value == text || value == text + "\n" || value == text + "\r\n"
  {
    if |value| >= 2 && value[|value| - 2] == '\r' && value[|value| - 1] == '\n' {
      assert value == value[..|value| - 2] + "\r\n";
    } else if |value| >= 1 && value[|value| - 1] == '\n' {
      assert value == value[..|value| - 1] + "\n";
    }
  }

  /** Normalizing accepts exactly an unpadded text with at most one line ending after it, and doing
      it again changes nothing. */
  lemma {:induction false} NormalizePemExact(value: string, text: string)
    ensures NormalizePem(value) == Some(text) <==>
            && text != "" && Trim(text) == text
            && (value == text || value == text + "\n" || value == text + "\r\n")
    ensures NormalizePem(value).Some? ==> NormalizePem(NormalizePem(value).value) == NormalizePem(value)
  {
    StripTakesOneLineEnd(value);
    if text != "" && Trim(text) == text {
      StripKeepsText(text);
    }
    if NormalizePem(value).Some? {
      StripKeepsText(NormalizePem(value).value);
    }
  }

  lemma {:induction false} UnpaddedEnds(text: string)
    requires text != "" && Trim(text) == text
    ensures !IsWhitespace(text[|text| - 1])
  {
    var rest := text[LeadingSpace(text)..];
    TrimmedEndIsBlank(rest);
    assert |rest[..TrimmedEnd(rest)]| == |text|;
    assert rest == text && TrimmedEnd(rest) == |text|;
  }

  // ---------- serial numbers ----------

  predicate HexText(s: string) {
    forall k :: 0 <= k < |s| ==> IsHexDigit(s[k])
  }

  function HexValue(s: string): nat
    requires HexText(s)
  {
    if s == "" then 0 else HexValue(s[..|s| - 1]) * 16 + DigitValue(s[|s| - 1])
  }

  function TrimZeros(s: string): (r: string)
    ensures r != "" ==> r[0] != '0'
    ensures HexText(s) ==> HexText(r)
  {
    if s != "" && s[0] == '0' then TrimZeros(s[1..]) else s
  }

  function Canonical(s: string): string {
    if TrimZeros(s) == "" then "0" else TrimZeros(s)
  }

  predicate EqualsIgnoringCase(a: string, b: string) {
    |a| == |b| && forall k :: 0 <= k < |a| ==> LowerChar(a[k]) == LowerChar(b[k])
  }

  predicate SerialValuesMatch(left: string, right: string) {
    EqualsIgnoringCase(Canonical(left), Canonical(right))
  }

  lemma {:induction false} LeadingZeroIsWorthless(s: string)
    requires HexText(s) && s != "" && s[0] == '0'
    ensures HexValue(s[1..]) == HexValue(s)
  {
    if |s| > 1 {
      var init := s[..|s| - 1];
      LeadingZeroIsWorthless(init);
      assert s[1..][..|s| - 2] == init[1..];
    } else {
      assert s[..0] == "" && s[1..] == "";
    }
  }

  lemma {:induction false} TrimZerosKeepsValue(s: string)
    requires HexText(s)
    ensures HexValue(TrimZeros(s)) == HexValue(s)
  {
    if s != "" && s[0] == '0' {
      LeadingZeroIsWorthless(s);
      TrimZerosKeepsValue(s[1..]);
    }
  }

  lemma {:induction false} DigitsMatch(a: char, b: char)
    requires IsHexDigit(a) && IsHexDigit(b)
    ensures DigitValue(a) == DigitValue(b) <==> LowerChar(a) == LowerChar(b)
  {
  }

  lemma {:induction false} CaseKeepsValue(a: string, b: string)
    requires HexText(a) && HexText(b) && EqualsIgnoringCase(a, b)
    ensures HexValue(a) == HexValue(b)
  {
    if a != "" {
      DigitsMatch(a[|a| - 1], b[|b| - 1]);
      CaseKeepsValue(a[..|a| - 1], b[..|b| - 1]);
    }
  }

  lemma {:induction false} TrimmedIsPositive(s: string)
    requires HexText(s) && s != "" && s[0] != '0'
    ensures 0 < HexValue(s)
  {
    if |s| > 1 {
      TrimmedIsPositive(s[..|s| - 1]);
    }
  }

  /** Without leading zeros, equal values are spelled alike up to case. */
  lemma {:induction false} ValueKeepsDigits(a: string, b: string)
    requires HexText(a) && HexText(b) && HexValue(a) == HexValue(b)
    requires (a != "" ==> a[0] != '0') && (b != "" ==> b[0] != '0')
    ensures EqualsIgnoringCase(a, b)
  {
    if a != "" { TrimmedIsPositive(a); }
    if b != "" { TrimmedIsPositive(b); }
    if a != "" && b != "" {
      var x, y := a[..|a| - 1], b[..|b| - 1];
      QuotientsMatch(HexValue(x), DigitValue(a[|a| - 1]), HexValue(y), DigitValue(b[|b| - 1]));
      DigitsMatch(a[|a| - 1], b[|b| - 1]);
      ValueKeepsDigits(x, y);
      forall k | 0 <= k < |a|
        ensures LowerChar(a[k]) == LowerChar(b[k])
      {
        if k < |a| - 1 { assert a[k] == x[k] && b[k] == y[k]; }
      }
    }
  }

  lemma {:induction false} QuotientsMatch(q: nat, d: nat, r: nat, e: nat)
    requires d < 16 && e < 16 && q * 16 + d == r * 16 + e
    ensures q == r && d == e
  {
  }

  /** Two hexadecimal serials of any length match exactly when they denote the same integer. */
  lemma {:induction false} SerialMatchIsNumeric(left: string, right: string)
    requires HexText(left) && HexText(right)
    ensures SerialValuesMatch(left, right) <==> HexValue(left) == HexValue(right)
  {
    TrimZerosKeepsValue(left);
    TrimZerosKeepsValue(right);
    var a, b := TrimZeros(left), TrimZeros(right);
    if HexValue(left) == HexValue(right) {
      ValueKeepsDigits(a, b);
    }
    if SerialValuesMatch(left, right) {
      assert HexValue("0") == 0 by { assert "0"[..0] == ""; }
      CaseKeepsValue(Canonical(left), Canonical(right));
    }
  }
}
