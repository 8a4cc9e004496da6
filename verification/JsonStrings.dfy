// What a string token says, apart from how Json::Reader decodes it: a body is a row of
// units, each of which spells some bytes, and decoding finds exactly these.

module JsonStrings {
  import opened Common
  import opened JsonText

  const LOWER_DIGITS := "0123456789abcdef"
  const UPPER_DIGITS := "0123456789ABCDEF"

  // The letters of the single-character escapes, and the byte each of them stands for.
  const ESCAPES := "\"\\/bfnrt"
  const ESCAPED: seq<int> := [0x22, 0x5C, 0x2F, 0x08, 0x0C, 0x0A, 0x0D, 0x09]

  lemma HexValueIff(c: char, d: nat)
    ensures HexValue(c) == Some(d) <==> d < 16 && (c == LOWER_DIGITS[d] || c == UPPER_DIGITS[d])
  {
  }

  lemma SimpleEscapeIff(e: char, x: char)
    ensures SimpleEscape(e) == Some(x) <==> exists i :: 0 <= i < |ESCAPES| && e == ESCAPES[i] && x as int == ESCAPED[i]
  {
    if i :| 0 <= i < |ESCAPES| && e == ESCAPES[i] && x as int == ESCAPED[i] { assert i <= 7; }
    if SimpleEscape(e) == Some(x) {
      var i := if e == '"' then 0 else if e == '\\' then 1 else if e == '/' then 2 else if e == 'b' then 3
               else if e == 'f' then 4 else if e == 'n' then 5 else if e == 'r' then 6 else 7;
      assert e == ESCAPES[i] && x as int == ESCAPED[i];
    }
  }

  // A byte for itself, an escape, a code point in hexadecimal, or two that make one.
  datatype Unit =
    | Plain(c: char)
    | Simple(letter: char, byte: char)
    | Code(hex: string)
    | Surrogates(hex: string, low: string)

  predicate IsHex(h: string) {
    |h| == 4 && forall i :: 0 <= i < 4 ==> HexValue(h[i]).Some?
  }

  function HexNumber(h: string): nat
    requires IsHex(h)
  {
    0x1000 * HexValue(h[0]).value + 0x100 * HexValue(h[1]).value + 16 * HexValue(h[2]).value + HexValue(h[3]).value
  }

  predicate Proper(u: Unit) {
    match u
    case Plain(c) => c != '"' && c != '\\'
    case Simple(letter, byte) => SimpleEscape(letter) == Some(byte)
    case Code(hex) => IsHex(hex) && !(0xD800 <= HexNumber(hex) <= 0xDBFF)
    case Surrogates(hex, low) => IsHex(hex) && 0xD800 <= HexNumber(hex) <= 0xDBFF && IsHex(low)
  }

  function Spelling(u: Unit): string {
    match u
    case Plain(c) => [c]
    case Simple(letter, _) => ['\\', letter]
    case Code(hex) => ['\\', 'u'] + hex
    case Surrogates(hex, low) => (['\\', 'u'] + hex) + (['\\', 'u'] + low)
  }

  // Of the second number only the low ten bits count, whatever it is.
  function Meaning(u: Unit): string
    requires Proper(u)
  {
    match u
    case Plain(c) => [c]
    case Simple(_, byte) => [byte]
    case Code(hex) => CodePointToUtf8(HexNumber(hex))
    case Surrogates(hex, low) =>
      CodePointToUtf8(0x1_0000 + (HexNumber(hex) - 0xD800) * 0x400 + HexNumber(low) % 0x400)
  }

  predicate AllProper(us: seq<Unit>) {
    forall i :: 0 <= i < |us| ==> Proper(us[i])
  }

  function Spelled(us: seq<Unit>): string {
    if us == [] then "" else Spelling(us[0]) + Spelled(us[1..])
  }

  function Meant(us: seq<Unit>): string
    requires AllProper(us)
  {
    if us == [] then "" else Meaning(us[0]) + Meant(us[1..])
  }

  // ------------------------------------------------------------------ units

  lemma HexIff(doc: string, cur: nat)
    requires cur + 4 <= |doc|
    ensures var h, r := doc[cur..cur + 4], DecodeHex(doc, cur, cur + 4, 0);
            if IsHex(h) then r == Ok(HexNumber(h)) else r.Fail?
  {
    hide HexValue;
    var h := doc[cur..cur + 4];
    assert h[0] == doc[cur] && h[1] == doc[cur + 1] && h[2] == doc[cur + 2] && h[3] == doc[cur + 3];
    HexStep(doc, cur, cur + 4, 0);
    if HexValue(doc[cur]).Some? {
      var a := HexValue(doc[cur]).value;
      HexStep(doc, cur + 1, cur + 4, a);
      if HexValue(doc[cur + 1]).Some? {
        var b := a * 16 + HexValue(doc[cur + 1]).value;
        HexStep(doc, cur + 2, cur + 4, b);
        if HexValue(doc[cur + 2]).Some? {
          HexStep(doc, cur + 3, cur + 4, b * 16 + HexValue(doc[cur + 2]).value);
        }
      }
    }
  }

  lemma HexStep(doc: string, cur: nat, stop: nat, acc: nat)
    requires cur < stop <= |doc|
    ensures var r := DecodeHex(doc, cur, stop, acc);
            match HexValue(doc[cur])
            case None => r.Fail?
            case Some(d) => (cur + 1 < stop ==> r == DecodeHex(doc, cur + 1, stop, acc * 16 + d)) &&
                            (cur + 1 == stop ==> r == Ok(acc * 16 + d))
  {
    hide HexValue;
  }

  lemma CombineIs(high: nat, low: nat)
    requires 0xD800 <= high <= 0xDBFF
    ensures Combine(high, low) == 0x1_0000 + (high - 0xD800) * 0x400 + low % 0x400
  {
    assert high % 0x400 == high - 0xD800;
  }

  lemma At(doc: string, cur: nat, w: string)
    requires cur + |w| <= |doc| && doc[cur..cur + |w|] == w
    ensures forall i :: 0 <= i < |w| ==> doc[cur + i] == w[i]
  {
    forall i | 0 <= i < |w| ensures doc[cur + i] == w[i] { assert doc[cur..cur + |w|][i] == doc[cur + i]; }
  }

  // A unit is decoded as what it means, wherever it stands.
  lemma UnitReads(doc: string, cur: nat, end: nat, u: Unit)
    requires Proper(u) && cur + |Spelling(u)| <= end <= |doc|
    requires doc[cur..cur + |Spelling(u)|] == Spelling(u)
    ensures cur < end && doc[cur] != '"'
    ensures DecodeOne(doc, cur, end) == Ok((Meaning(u), cur + |Spelling(u)|))
  {
    hide HexValue, DecodeHex, DecodeEscape, CodePointToUtf8, Combine, HexNumber, IsHex;
    if u.Surrogates? {
      PairReads(doc, cur, end, u.hex, u.low);
    } else {
      At(doc, cur, Spelling(u));
      if u.Code? {
        HexLength(u.hex);
        CodeReads(doc, cur, end, u.hex);
      }
    }
  }

  lemma PairReads(doc: string, cur: nat, end: nat, hex: string, low: string)
    requires Proper(Surrogates(hex, low)) && cur + |Spelling(Surrogates(hex, low))| <= end <= |doc|
    requires doc[cur..cur + |Spelling(Surrogates(hex, low))|] == Spelling(Surrogates(hex, low))
    ensures |Spelling(Surrogates(hex, low))| == 12 && doc[cur] != '"'
    ensures DecodeOne(doc, cur, end) == Ok((Meaning(Surrogates(hex, low)), cur + 12))
  {
    hide HexValue, DecodeHex, DecodeEscape, CodePointToUtf8, Combine, HexNumber, IsHex;
    HexLength(hex);
    HexLength(low);
    SliceSplit(doc, cur, ['\\', 'u'] + hex, ['\\', 'u'] + low);
    CodeReads(doc, cur, end, hex);
    CodeReads(doc, cur + 6, end, low);
    CombineIs(HexNumber(hex), HexNumber(low));
  }

  lemma HexLength(h: string)
    requires IsHex(h)
    ensures |h| == 4
  {
  }

  lemma CodeReads(doc: string, cur: nat, end: nat, hex: string)
    requires IsHex(hex) && cur + 6 <= end <= |doc| && doc[cur..cur + 6] == ['\\', 'u'] + hex
    ensures doc[cur] == '\\' && doc[cur + 1] == 'u' && DecodeEscape(doc, cur + 2, end) == Ok(HexNumber(hex))
  {
    SliceSplit(doc, cur, ['\\', 'u'], hex);
    At(doc, cur, ['\\', 'u']);
    HexIff(doc, cur + 2);
    hide HexValue, DecodeHex;
  }

  // The converse: what is decoded is a unit that means it.
  lemma UnitFound(doc: string, cur: nat, end: nat) returns (u: Unit)
    requires cur < end <= |doc| && doc[cur] != '"' && DecodeOne(doc, cur, end).Ok?
    ensures Proper(u) && cur + |Spelling(u)| <= end && doc[cur..cur + |Spelling(u)|] == Spelling(u)
    ensures DecodeOne(doc, cur, end) == Ok((Meaning(u), cur + |Spelling(u)|))
  {
    hide HexValue, DecodeHex, CodePointToUtf8, Combine, HexNumber, IsHex;
    if doc[cur] != '\\' {
      u := Plain(doc[cur]);
      assert doc[cur..cur + 1] == [doc[cur]];
    } else if doc[cur + 1] != 'u' {
      u := Simple(doc[cur + 1], SimpleEscape(doc[cur + 1]).value);
      assert doc[cur..cur + 2] == ['\\', doc[cur + 1]];
    } else {
      var hex := CodeFound(doc, cur, end);
      if IsHighSurrogate(HexNumber(hex)) {
        var low := CodeFound(doc, cur + 6, end);
        u := Surrogates(hex, low);
        CombineIs(HexNumber(hex), HexNumber(low));
        assert doc[cur..cur + 12] == doc[cur..cur + 6] + doc[cur + 6..cur + 12];
      } else {
        u := Code(hex);
      }
    }
  }

  lemma CodeFound(doc: string, cur: nat, end: nat) returns (hex: string)
    requires cur + 2 <= end <= |doc| && doc[cur] == '\\' && doc[cur + 1] == 'u'
    requires DecodeEscape(doc, cur + 2, end).Ok?
    ensures IsHex(hex) && |hex| == 4 && cur + 6 <= end && doc[cur..cur + 6] == ['\\', 'u'] + hex
    ensures DecodeEscape(doc, cur + 2, end) == Ok(HexNumber(hex))
  {
    hide HexValue, DecodeHex;
    hex := doc[cur + 2..cur + 6];
    HexIff(doc, cur + 2);
    assert doc[cur..cur + 6] == doc[cur..cur + 2] + hex;
  }

  // Why an escape is refused: nothing follows the backslash, or a letter that is no escape;
  // or of a code point too few bytes are left, one of them is no digit, or its second half
  // is missing or is none.
  lemma UnitRefused(doc: string, cur: nat, end: nat)
    requires cur < end <= |doc| && DecodeOne(doc, cur, end).Fail?
    ensures doc[cur] == '\\'
    ensures var m, left := DecodeOne(doc, cur, end).message, end - cur;
            if left == 1 then m == EmptyEscape
            else if doc[cur + 1] != 'u' then m == BadEscape && doc[cur + 1] !in ESCAPES
            else if left < 6 then m == FourDigitsExpected
            else
              var hex := doc[cur + 2..cur + 6];
              if !IsHex(hex) then m == HexDigitExpected
              else
                && 0xD800 <= HexNumber(hex) <= 0xDBFF
                && if left < 12 then m == NoSecondHalf
                   else if doc[cur + 6] != '\\' || doc[cur + 7] != 'u' then m == BadSecondHalf
                   else m == HexDigitExpected && !IsHex(doc[cur + 8..cur + 12])
  {
    hide HexValue, DecodeHex, CodePointToUtf8, Combine, HexNumber, IsHex;
    if cur + 6 <= end { HexRefused(doc, cur + 2); }
    if cur + 12 <= end { HexRefused(doc, cur + 8); }
  }

  lemma HexRefused(doc: string, cur: nat)
    requires cur + 4 <= |doc|
    ensures var h, r := doc[cur..cur + 4], DecodeHex(doc, cur, cur + 4, 0);
            if IsHex(h) then r == Ok(HexNumber(h)) else r.Fail? && r.message == HexDigitExpected
  {
    HexIff(doc, cur);
    HexErrors(doc, cur, cur + 4, 0);
    hide DecodeHex, IsHex;
  }

  lemma {:induction false} HexErrors(doc: string, cur: nat, stop: nat, acc: nat)
    requires cur <= stop <= |doc|
    ensures DecodeHex(doc, cur, stop, acc).Fail? ==> DecodeHex(doc, cur, stop, acc).message == HexDigitExpected
    decreases stop - cur
  {
    if cur < stop && HexValue(doc[cur]).Some? {
      HexErrors(doc, cur + 1, stop, acc * 16 + HexValue(doc[cur]).value);
    }
    hide HexValue;
  }

  // ----------------------------------------------------------------- bodies

  // The units of a body up to its end, or to a quote in it.
  ghost predicate Says(doc: string, cur: nat, end: nat, us: seq<Unit>) {
    && AllProper(us) && cur + |Spelled(us)| <= end <= |doc| && doc[cur..cur + |Spelled(us)|] == Spelled(us)
    && (cur + |Spelled(us)| < end ==> doc[cur + |Spelled(us)|] == '"')
  }

  lemma {:induction false} BodyFound(doc: string, cur: nat, end: nat) returns (us: seq<Unit>)
    requires cur <= end <= |doc| && DecodeBody(doc, cur, end).Ok?
    ensures Says(doc, cur, end, us) && DecodeBody(doc, cur, end) == Ok(Meant(us))
    decreases end - cur
  {
    hide DecodeOne, Proper, Spelling, Meaning;
    us := [];
    if cur < end && doc[cur] != '"' {
      var u := UnitFound(doc, cur, end);
      var next := cur + |Spelling(u)|;
      var rest := BodyFound(doc, next, end);
      us := [u] + rest;
      assert us[1..] == rest;
      assert doc[cur..next + |Spelled(rest)|] == doc[cur..next] + doc[next..next + |Spelled(rest)|];
    }
  }

  lemma {:induction false} BodyReads(doc: string, cur: nat, end: nat, us: seq<Unit>)
    requires Says(doc, cur, end, us)
    ensures DecodeBody(doc, cur, end) == Ok(Meant(us))
    decreases |us|
  {
    hide DecodeOne, Proper, Spelling, Meaning;
    if us != [] {
      var u, rest := us[0], us[1..];
      SliceSplit(doc, cur, Spelling(u), Spelled(rest));
      UnitReads(doc, cur, end, u);
      BodyReads(doc, cur + |Spelling(u)|, end, rest);
    }
  }

  // A body decodes to a text exactly when it is spelled by units that mean that text.
  lemma DecodedIff(doc: string, cur: nat, end: nat, text: string)
    requires cur <= end <= |doc|
    ensures DecodeBody(doc, cur, end) == Ok(text) <==> exists us :: Says(doc, cur, end, us) && text == Meant(us)
  {
    if DecodeBody(doc, cur, end) == Ok(text) { var us := BodyFound(doc, cur, end); }
    forall us | Says(doc, cur, end, us) ensures DecodeBody(doc, cur, end) == Ok(Meant(us)) {
      BodyReads(doc, cur, end, us);
    }
    hide DecodeBody, Spelled, Meant;
  }
}
