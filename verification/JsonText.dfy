// Strings as text: codePointToUTF8, valueToQuotedString, and the decoding of string
// tokens with their escapes.

module JsonText {
  import opened Common
  import opened JsonValue

  // ------------------------------------------------------------------ UTF-8

  // codePointToUTF8; masks and shifts are written as remainders and quotients.
  function CodePointToUtf8(cp: nat): string {
    if cp <= 0x7F then [cp as char]
    else if cp <= 0x7FF then
      [(0xC0 + cp / 0x40 % 0x20) as char, (0x80 + cp % 0x40) as char]
    else if cp <= 0xFFFF then
      [(0xE0 + cp / 0x1000 % 0x10) as char, (0x80 + cp / 0x40 % 0x40) as char, (0x80 + cp % 0x40) as char]
    else if cp <= 0x10FFFF then
      [(0xF0 + cp / 0x4_0000 % 8) as char, (0x80 + cp / 0x1000 % 0x40) as char,
       (0x80 + cp / 0x40 % 0x40) as char, (0x80 + cp % 0x40) as char]
    else ""
  }

  predicate IsScalar(cp: nat) {
    cp <= 0x10FFFF && !(0xD800 <= cp <= 0xDFFF)
  }

  predicate Tail(c: char) { 0x80 <= c as int <= 0xBF }

  // Decoder for one character after section 3 of RFC 3629: shortest form only, no
  // surrogates. It returns the code point and the number of octets used.
  function Utf8Decode(s: string): Option<(nat, nat)> {
    if s == "" then None
    else
      var b := s[0] as int;
      if b <= 0x7F then Some((b, 1))
      else if 0xC2 <= b <= 0xDF && |s| >= 2 && Tail(s[1]) then
        Some(((b - 0xC0) * 0x40 + (s[1] as int - 0x80), 2))
      else if 0xE0 <= b <= 0xEF && |s| >= 3 && Tail(s[1]) && Tail(s[2])
              && (b == 0xE0 ==> s[1] as int >= 0xA0) && (b == 0xED ==> s[1] as int <= 0x9F) then
        Some(((b - 0xE0) * 0x1000 + (s[1] as int - 0x80) * 0x40 + (s[2] as int - 0x80), 3))
      else if 0xF0 <= b <= 0xF4 && |s| >= 4 && Tail(s[1]) && Tail(s[2]) && Tail(s[3])
              && (b == 0xF0 ==> s[1] as int >= 0x90) && (b == 0xF4 ==> s[1] as int <= 0x8F) then
        Some(((b - 0xF0) * 0x4_0000 + (s[1] as int - 0x80) * 0x1000
              + (s[2] as int - 0x80) * 0x40 + (s[3] as int - 0x80), 4))
      else None
  }

  // The code point that the payload bits of an encoding spell, with no validity check.
  function Payload(s: string): int
    requires 1 <= |s| <= 4
  {
    if |s| == 1 then s[0] as int
    else if |s| == 2 then (s[0] as int - 0xC0) * 0x40 + (s[1] as int - 0x80)
    else if |s| == 3 then
      (s[0] as int - 0xE0) * 0x1000 + (s[1] as int - 0x80) * 0x40 + (s[2] as int - 0x80)
    else
      (s[0] as int - 0xF0) * 0x4_0000 + (s[1] as int - 0x80) * 0x1000
      + (s[2] as int - 0x80) * 0x40 + (s[3] as int - 0x80)
  }

  // Splitting a code point into groups of six bits.
  lemma SixBitGroups(cp: nat)
    ensures cp == cp / 0x40 * 0x40 + cp % 0x40
    ensures cp / 0x40 == cp / 0x1000 * 0x40 + cp / 0x40 % 0x40
    ensures cp / 0x1000 == cp / 0x4_0000 * 0x40 + cp / 0x1000 % 0x40
  {
    var q := cp / 0x40;
    assert q / 0x40 == cp / 0x1000;
    assert cp / 0x1000 / 0x40 == cp / 0x4_0000;
  }

  lemma PayloadOfEncoding(cp: nat)
    requires cp <= 0x10FFFF
    ensures 1 <= |CodePointToUtf8(cp)| <= 4 && Payload(CodePointToUtf8(cp)) == cp
  {
    SixBitGroups(cp);
    if cp <= 0x7F {
    } else if cp <= 0x7FF {
      assert cp / 0x40 % 0x20 == cp / 0x40 by { assert cp / 0x40 < 0x20; }
    } else if cp <= 0xFFFF {
      assert cp / 0x1000 % 0x10 == cp / 0x1000 by { assert cp / 0x1000 < 0x10; }
    } else {
      assert cp / 0x4_0000 % 8 == cp / 0x4_0000 by { assert cp / 0x4_0000 < 8; }
    }
  }

  // The encoding of a code point is decodable by RFC 3629, in any context and back to the
  // code point, exactly when the code point is a scalar value.
  lemma Utf8RoundTripIffScalar(cp: nat, rest: string)
    requires cp <= 0x10FFFF
    ensures
      IsScalar(cp) <==> Utf8Decode(CodePointToUtf8(cp) + rest) == Some((cp, |CodePointToUtf8(cp)|))
    ensures !IsScalar(cp) ==> Utf8Decode(CodePointToUtf8(cp) + rest).None?
  {
    var e := CodePointToUtf8(cp);
    var s := e + rest;
    PayloadOfEncoding(cp);
    assert forall k :: 0 <= k < |e| ==> s[k] == e[k];
    DecodeIsPayload(s, e);
  }

  // On the octets of an encoding the RFC decoder returns the payload.
  lemma DecodeIsPayload(s: string, e: string)
    requires 1 <= |e| <= 4 && e <= s
    requires 0 <= Payload(e) <= 0x10FFFF && e == CodePointToUtf8(Payload(e))
    ensures
      var cp := Payload(e);
      Utf8Decode(s) == if IsScalar(cp) then Some((cp, |e|)) else None
  {
    var cp := Payload(e);
    var b := e[0] as int;
    assert s[0] == e[0];
    if |e| == 2 {
      assert s[1] == e[1];
    } else if |e| == 3 {
      assert s[1] == e[1] && s[2] == e[2];
      assert 0xE0 <= b <= 0xEF && Tail(s[1]) && Tail(s[2]);
    } else if |e| == 4 {
      assert s[1] == e[1] && s[2] == e[2] && s[3] == e[3];
      assert 0xF0 <= b <= 0xF7 && Tail(s[1]) && Tail(s[2]) && Tail(s[3]);
    }
  }

  // Two code points never share an encoding, surrogates included.
  lemma Utf8Injective(a: nat, b: nat)
    requires a <= 0x10FFFF && b <= 0x10FFFF
    requires CodePointToUtf8(a) == CodePointToUtf8(b)
    ensures a == b
  {
    PayloadOfEncoding(a);
    PayloadOfEncoding(b);
  }

  // ---------------------------------------------------------------- escapes

  // The texts that addError is called with.
  datatype Message =
    | ValueExpected | MissingName | MissingColon | MissingCommaInObject | MissingCommaInArray | BadRoot
    | NotANumber(text: string)
    | EmptyEscape | BadEscape | FourDigitsExpected | HexDigitExpected | NoSecondHalf | BadSecondHalf

  // Success with a value, or the message and position of the error.
  datatype Result<+T> = Ok(value: T) | Fail(message: Message, at: nat)

  function HexValue(c: char): Option<nat> {
    if '0' <= c <= '9' then Some(c as int - '0' as int)
    else if 'a' <= c <= 'f' then Some(c as int - 'a' as int + 10)
    else if 'A' <= c <= 'F' then Some(c as int - 'A' as int + 10)
    else None
  }

  // The digit loop of decodeUnicodeEscapeSequence, up to position `stop`.
  function DecodeHex(doc: string, cur: nat, stop: nat, acc: nat): Result<nat>
    requires cur <= stop <= |doc|
    decreases stop - cur
  {
    if cur == stop then Ok(acc)
    else
      match HexValue(doc[cur])
      case None => Fail(HexDigitExpected, cur + 1)
      case Some(d) => DecodeHex(doc, cur + 1, stop, acc * 16 + d)
  }

  // decodeUnicodeEscapeSequence: four digits at `cur`
  function DecodeEscape(doc: string, cur: nat, end: nat): Result<nat>
    requires cur <= end <= |doc|
  {
    if end - cur < 4 then Fail(FourDigitsExpected, cur) else DecodeHex(doc, cur, cur + 4, 0)
  }

  predicate IsHighSurrogate(u: nat) { 0xD800 <= u <= 0xDBFF }

  // 0x10000 + ((high & 0x3FF) << 10) + (low & 0x3FF)
  function Combine(high: nat, low: nat): nat {
    0x1_0000 + high % 0x400 * 0x400 + low % 0x400
  }

  // decodeUnicodeCodePoint: the code point and the position after its escape. The second
  // half of a pair is not required to be a low surrogate.
  function DecodeCodePoint(doc: string, cur: nat, end: nat): (r: Result<(nat, nat)>)
    requires cur <= end <= |doc|
    ensures r.Ok? ==> cur + 4 <= r.value.1 <= end
  {
    match DecodeEscape(doc, cur, end)
    case Fail(m, at) => Fail(m, at)
    case Ok(u) =>
      var c := cur + 4;
      if !IsHighSurrogate(u) then Ok((u, c))
      else if end - c < 6 then Fail(NoSecondHalf, c)
      else if doc[c] != '\\' then Fail(BadSecondHalf, c + 1)
      else if doc[c + 1] != 'u' then Fail(BadSecondHalf, c + 2)
      else
        match DecodeEscape(doc, c + 2, end)
        case Fail(m, at) => Fail(m, at)
        case Ok(low) => Ok((Combine(u, low), c + 6))
  }

  // The single-character escapes.
  function SimpleEscape(e: char): Option<char> {
    match e
    case '"' => Some('"')
    case '/' => Some('/')
    case '\\' => Some('\\')
    case 'b' => Some(8 as char)
    case 'f' => Some(12 as char)
    case 'n' => Some('\n')
    case 'r' => Some('\r')
    case 't' => Some('\t')
    case _ => None
  }

  function Prepend(s: string, r: Result<string>): Result<string> {
    match r
    case Ok(t) => Ok(s + t)
    case Fail(m, at) => r
  }

  // One step of the loop of decodeString: the bytes it appends and the next position.
  function DecodeOne(doc: string, cur: nat, end: nat): (r: Result<(string, nat)>)
    requires cur < end <= |doc|
    ensures r.Ok? ==> cur < r.value.1 <= end
  {
    var c := doc[cur];
    if c != '\\' then Ok(([c], cur + 1))
    else if cur + 1 == end then Fail(EmptyEscape, end)
    else if doc[cur + 1] == 'u' then
      match DecodeCodePoint(doc, cur + 2, end)
      case Fail(m, at) => Fail(m, at)
      case Ok((cp, next)) => Ok((CodePointToUtf8(cp), next))
    else
      match SimpleEscape(doc[cur + 1])
      case None => Fail(BadEscape, cur + 2)
      case Some(x) => Ok(([x], cur + 2))
  }

  // decodeString on the body of a string token, which a quote also ends.
  function DecodeBody(doc: string, cur: nat, end: nat): Result<string>
    requires cur <= end <= |doc|
    decreases end - cur
  {
    if cur == end || doc[cur] == '"' then Ok("")
    else
      match DecodeOne(doc, cur, end)
      case Fail(m, at) => Fail(m, at)
      case Ok((s, next)) => Prepend(s, DecodeBody(doc, next, end))
  }

  // 16 to the power of k
  function HexScale(k: nat): nat
    requires k <= 4
  {
    if k == 0 then 1 else if k == 1 then 16 else if k == 2 then 0x100 else if k == 3 then 0x1000 else 0x1_0000
  }

  lemma {:induction false} DecodeHexBound(doc: string, cur: nat, stop: nat, acc: nat)
    requires cur <= stop <= |doc| && stop - cur <= 4
    ensures
      var r, scale := DecodeHex(doc, cur, stop, acc), HexScale(stop - cur);
      r.Ok? ==> r.value < acc * scale + scale
    decreases stop - cur
  {
    if cur < stop && HexValue(doc[cur]).Some? {
      DecodeHexBound(doc, cur + 1, stop, acc * 16 + HexValue(doc[cur]).value);
    }
  }

  // Every escape that is accepted denotes a code point, so it emits one to four bytes.
  lemma DecodedCodePointInRange(doc: string, cur: nat, end: nat)
    requires cur <= end <= |doc|
    requires DecodeCodePoint(doc, cur, end).Ok?
    ensures
      var cp := DecodeCodePoint(doc, cur, end).value.0;
      cp <= 0x10FFFF && 1 <= |CodePointToUtf8(cp)| <= 4
  {
    if cur + 4 <= end { DecodeHexBound(doc, cur, cur + 4, 0); }
    PayloadOfEncoding(DecodeCodePoint(doc, cur, end).value.0);
  }

  function HexDigit(d: nat): char
    requires d < 16
  {
    if d < 10 then ('0' as int + d) as char else ('A' as int + d - 10) as char
  }

  // "\uXXXX", with upper-case digits
  function EscapeOf(u: nat): string
    requires u < 0x1_0000
  {
    ['\\', 'u', HexDigit(u / 0x1000), HexDigit(u / 0x100 % 16), HexDigit(u / 16 % 16), HexDigit(u % 16)]
  }

  lemma HexDigitValue(d: nat)
    requires d < 16
    ensures HexValue(HexDigit(d)) == Some(d)
  {
  }

  lemma HexGroups(u: nat)
    requires u < 0x1_0000
    ensures u / 0x1000 < 16
    ensures ((u / 0x1000 * 16 + u / 0x100 % 16) * 16 + u / 16 % 16) * 16 + u % 16 == u
  {
    var q := u / 16;
    assert u / 0x100 == q / 16 && u / 0x1000 == u / 0x100 / 16;
  }

  lemma DecodeEscapeOf(doc: string, cur: nat, end: nat, u: nat)
    requires u < 0x1_0000 && cur + 6 <= end <= |doc|
    requires doc[cur..cur + 6] == EscapeOf(u)
    ensures doc[cur] == '\\' && doc[cur + 1] == 'u'
    ensures DecodeEscape(doc, cur + 2, end) == Ok(u)
  {
    HexGroups(u);
    var a, b, c, d := u / 0x1000, u / 0x100 % 16, u / 16 % 16, u % 16;
    var e := doc[cur..cur + 6];
    assert e[0] == doc[cur] && e[1] == doc[cur + 1] && e[2] == doc[cur + 2];
    assert e[3] == doc[cur + 3] && e[4] == doc[cur + 4] && e[5] == doc[cur + 5];
    HexDigitValue(a);
    HexDigitValue(b);
    HexDigitValue(c);
    HexDigitValue(d);
    FourHexDigits(doc, cur + 2, a, b, c, d);
  }

  lemma FourHexDigits(doc: string, cur: nat, a: nat, b: nat, c: nat, d: nat)
    requires cur + 4 <= |doc|
    requires HexValue(doc[cur]) == Some(a) && HexValue(doc[cur + 1]) == Some(b)
    requires HexValue(doc[cur + 2]) == Some(c) && HexValue(doc[cur + 3]) == Some(d)
    ensures DecodeHex(doc, cur, cur + 4, 0) == Ok(((a * 16 + b) * 16 + c) * 16 + d)
  {
    var stop := cur + 4;
    calc {
      DecodeHex(doc, cur, stop, 0);
      DecodeHex(doc, cur + 1, stop, a);
      DecodeHex(doc, cur + 2, stop, a * 16 + b);
      DecodeHex(doc, cur + 3, stop, (a * 16 + b) * 16 + c);
      DecodeHex(doc, cur + 4, stop, ((a * 16 + b) * 16 + c) * 16 + d);
    }
  }

  // The two halves of section 2.1 of RFC 2781.
  function HighHalf(cp: nat): nat
    requires 0x1_0000 <= cp <= 0x10FFFF
  {
    0xD800 + (cp - 0x1_0000) / 0x400
  }

  function LowHalf(cp: nat): nat
    requires 0x1_0000 <= cp <= 0x10FFFF
  {
    0xDC00 + (cp - 0x1_0000) % 0x400
  }

  lemma HalvesCombine(cp: nat)
    requires 0x1_0000 <= cp <= 0x10FFFF
    ensures IsHighSurrogate(HighHalf(cp)) && 0xDC00 <= LowHalf(cp) <= 0xDFFF
    ensures Combine(HighHalf(cp), LowHalf(cp)) == cp
  {
    var q, r := (cp - 0x1_0000) / 0x400, (cp - 0x1_0000) % 0x400;
    assert q < 0x400 && (0xD800 + q) % 0x400 == q && (0xDC00 + r) % 0x400 == r;
  }

  // A supplementary code point comes back from its surrogate pair.
  lemma SurrogatePairDecodes(doc: string, cur: nat, end: nat, cp: nat)
    requires 0x1_0000 <= cp <= 0x10FFFF
    requires cur + 12 <= end <= |doc|
    requires doc[cur..cur + 12] == EscapeOf(HighHalf(cp)) + EscapeOf(LowHalf(cp))
    ensures DecodeCodePoint(doc, cur + 2, end) == Ok((cp, cur + 12))
    ensures DecodeOne(doc, cur, end) == Ok((CodePointToUtf8(cp), cur + 12))
  {
    HalvesCombine(cp);
    SliceSplit(doc, cur, EscapeOf(HighHalf(cp)), EscapeOf(LowHalf(cp)));
    DecodeEscapeOf(doc, cur, end, HighHalf(cp));
    DecodeEscapeOf(doc, cur + 6, end, LowHalf(cp));
  }

  // A slice that is a concatenation is two adjacent slices.
  lemma SliceSplit(doc: string, cur: nat, a: string, b: string)
    requires cur + |a| + |b| <= |doc|
    requires doc[cur..cur + |a| + |b|] == a + b
    ensures doc[cur..cur + |a|] == a && doc[cur + |a|..cur + |a| + |b|] == b
  {
    var s := doc[cur..cur + |a| + |b|];
    assert s[..|a|] == a && s[|a|..] == b;
  }

  // A single escape decodes to its own number, unless it opens a pair.
  lemma BasicEscapeDecodes(doc: string, cur: nat, end: nat, u: nat)
    requires u < 0x1_0000 && !IsHighSurrogate(u)
    requires cur + 6 <= end <= |doc| && doc[cur..cur + 6] == EscapeOf(u)
    ensures DecodeOne(doc, cur, end) == Ok((CodePointToUtf8(u), cur + 6))
  {
    DecodeEscapeOf(doc, cur, end, u);
  }

  // ---------------------------------------------------------------- quoting

  // isControlCharacter, on a signed char
  predicate IsControl(c: char) { 0 < c as int <= 0x1F }

  // The stream formatting of a control character: four upper-case hexadecimal digits.
  function ControlEscape(u: nat): string
    requires u <= 0x1F
  {
    ['\\', 'u', '0', '0'] + (if u < 16 then ['0', HexDigit(u)] else ['1', HexDigit(u - 16)])
  }

  lemma ControlEscapeIsEscape(u: nat)
    requires u <= 0x1F
    ensures ControlEscape(u) == EscapeOf(u)
  {
    assert u / 0x1000 == 0 && u / 0x100 == 0;
    assert u / 16 == if u < 16 then 0 else 1;
  }

  // What the loop of valueToQuotedString appends for one byte.
  function EscapeChar(c: char): string {
    if c == '"' then "\\\""
    else if c == '\\' then "\\\\"
    else if c as int == 8 then "\\b"
    else if c as int == 12 then "\\f"
    else if c == '\n' then "\\n"
    else if c == '\r' then "\\r"
    else if c == '\t' then "\\t"
    else if IsControl(c) then ControlEscape(c as int)
    else [c]
  }

  function EscapeAll(s: string): string {
    if s == "" then "" else EscapeChar(s[0]) + EscapeAll(s[1..])
  }

  predicate NeedsEscape(c: char) {
    c == '"' || c == '\\' || IsControl(c)
  }

  // Neither strpbrk nor containsControlCharacter finds anything.
  predicate NothingToEscape(s: string) {
    s != "" ==> !NeedsEscape(s[0]) && NothingToEscape(s[1..])
  }

  lemma {:induction false} EscapeAllOfPlain(s: string)
    requires NothingToEscape(s)
    ensures EscapeAll(s) == s
  {
    if s != "" {
      EscapeAllOfPlain(s[1..]);
      assert [s[0]] + s[1..] == s;
    }
  }

  // valueToQuotedString: the fast path writes what the loop would have written.
  function Quote(s: string): (q: string)
    ensures q == "\"" + EscapeAll(s) + "\""
  {
    if NothingToEscape(s) then
      EscapeAllOfPlain(s);
      "\"" + s + "\""
    else "\"" + EscapeAll(s) + "\""
  }

  // readString from just after the opening quote: the position after the token and
  // whether a closing quote was found.
  function ScanString(doc: string, cur: nat): (r: (nat, bool))
    requires cur <= |doc|
    ensures cur <= r.0 <= |doc|
    ensures r.1 ==> cur < r.0
    decreases |doc| - cur
  {
    if cur == |doc| then (cur, false)
    else if doc[cur] == '\\' then ScanString(doc, if cur + 1 < |doc| then cur + 2 else cur + 1)
    else if doc[cur] == '"' then (cur + 1, true)
    else ScanString(doc, cur + 1)
  }

  // One byte of a printed string is scanned over and decoded as a unit.
  lemma EscapedCharReads(doc: string, cur: nat, end: nat, c: char)
    requires c != '\0'
    requires cur + |EscapeChar(c)| <= end <= |doc|
    requires doc[cur..cur + |EscapeChar(c)|] == EscapeChar(c)
    ensures cur < end && doc[cur] != '"'
    ensures DecodeOne(doc, cur, end) == Ok(([c], cur + |EscapeChar(c)|))
    ensures ScanString(doc, cur) == ScanString(doc, cur + |EscapeChar(c)|)
  {
    var e := doc[cur..cur + |EscapeChar(c)|];
    assert forall k :: 0 <= k < |e| ==> e[k] == doc[cur + k];
    if IsControl(c) && |e| == 6 {
      ControlCharReads(doc, cur, end, c);
    } else {
      assert e[0] == doc[cur];
      if |e| == 2 { assert e[1] == doc[cur + 1]; }
    }
  }

  lemma ControlCharReads(doc: string, cur: nat, end: nat, c: char)
    requires IsControl(c) && cur + 6 <= end <= |doc|
    requires doc[cur..cur + 6] == ControlEscape(c as int)
    ensures doc[cur] != '"'
    ensures DecodeOne(doc, cur, end) == Ok(([c], cur + 6))
    ensures ScanString(doc, cur) == ScanString(doc, cur + 6)
  {
    ControlEscapeIsEscape(c as int);
    BasicEscapeDecodes(doc, cur, end, c as int);
    var e := doc[cur..cur + 6];
    assert forall k :: 0 <= k < 6 ==> e[k] == doc[cur + k];
    assert doc[cur] == '\\';
    assert PlainAt(doc, cur + 2) by { assert e[2] == doc[cur + 2]; }
    assert PlainAt(doc, cur + 3) by { assert e[3] == doc[cur + 3]; }
    assert PlainAt(doc, cur + 4) by { assert e[4] == doc[cur + 4]; }
    assert PlainAt(doc, cur + 5) by { assert e[5] == doc[cur + 5]; }
    calc {
      ScanString(doc, cur);
      ScanString(doc, cur + 2);
      ScanString(doc, cur + 3);
      ScanString(doc, cur + 4);
      ScanString(doc, cur + 5);
      ScanString(doc, cur + 6);
    }
  }

  // A byte that readString takes on its own.
  predicate PlainAt(doc: string, cur: nat) {
    cur < |doc| && doc[cur] != '"' && doc[cur] != '\\'
  }

  lemma CharStep(doc: string, cur: nat, next: nat, end: nat, c: char)
    requires c != '\0'
    requires cur <= next <= end <= |doc| && doc[cur..next] == EscapeChar(c)
    ensures ScanString(doc, cur) == ScanString(doc, next)
    ensures DecodeBody(doc, cur, end) == Prepend([c], DecodeBody(doc, next, end))
  {
    EscapedCharReads(doc, cur, end, c);
  }

  // A printed body at any offset is scanned up to its closing quote and decodes to the
  // original bytes.
  lemma {:induction false} EscapedBodyReads(doc: string, cur: nat, end: nat, s: string)
    requires NulFree(s) && cur <= end < |doc|
    requires doc[cur..end] == EscapeAll(s) && doc[end] == '"'
    ensures ScanString(doc, cur) == (end + 1, true)
    ensures DecodeBody(doc, cur, end) == Ok(s)
    decreases |s|
  {
    if s == "" {
      assert cur == end;
    } else {
      var c, rest := s[0], s[1..];
      var a, b := EscapeChar(c), EscapeAll(rest);
      var next := cur + |a|;
      assert doc[cur..end] == a + b && s == [c] + rest;
      SliceSplit(doc, cur, a, b);
      CharStep(doc, cur, next, end, c);
      EscapedBodyReads(doc, next, end, rest);
    }
  }

  // readString on valueToQuotedString output stops at the closing quote, wherever the
  // token stands, and decodeString gives the original bytes back.
  lemma QuotedStringReads(doc: string, start: nat, body: nat, close: nat, s: string)
    requires body == start + 1 && start <= close < |doc|
    requires NulFree(s) && doc[start..close + 1] == Quote(s)
    ensures body <= close && doc[start] == '"'
    ensures ScanString(doc, body) == (close + 1, true)
    ensures DecodeBody(doc, body, close) == Ok(s)
  {
    QuotedSlice(doc, start, close + 1, EscapeAll(s));
    EscapedBodyReads(doc, body, close, s);
  }

  lemma QuotedSlice(doc: string, start: nat, end: nat, e: string)
    requires start <= end <= |doc| && doc[start..end] == "\"" + e + "\""
    ensures start + 2 <= end && doc[start] == '"' && doc[end - 1] == '"'
    ensures doc[start + 1..end - 1] == e
  {
    var q := doc[start..end];
    assert |q| == |e| + 2;
    assert q[0] == doc[start] && q[|e| + 1] == doc[end - 1];
    assert q == "\"" + (e + "\"");
    SliceSplit(doc, start, "\"", e + "\"");
    SliceSplit(doc, start + 1, e, "\"");
  }
}
