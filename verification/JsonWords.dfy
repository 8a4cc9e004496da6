// The words of a document: which texts are tokens of which kind, said apart from how
// Json::Reader scans them, and that it finds exactly these.

module JsonWords {
  import opened JsonText
  import opened JsonLexer
  import JsonNumber

  predicate Blank(s: string) {
    forall i :: 0 <= i < |s| ==> s[i] in " \t\r\n"
  }

  // Between its quotes a string has no quote and no backslash, other than in pairs of a
  // backslash and any byte.
  predicate StringBody(s: string) {
    s == "" || (s[0] != '"' && s[0] != '\\' && StringBody(s[1..]))
    || (s[0] == '\\' && |s| >= 2 && StringBody(s[2..]))
  }

  predicate StringWord(s: string) {
    |s| >= 2 && s[0] == '"' && s[|s| - 1] == '"' && StringBody(s[1..|s| - 1])
  }

  // A sign or digit and any run of the bytes of numbers, whether or not it is one.
  predicate NumberWord(s: string) {
    s != "" && s[0] in "-0123456789" && forall i :: 1 <= i < |s| ==> s[i] in "0123456789.eE+-"
  }

  predicate EndsComment(s: string, k: nat)
    requires k + 1 < |s|
  {
    s[k] == '*' && s[k + 1] == '/'
  }

  predicate BlockComment(s: string) {
    && |s| >= 4 && s[0] == '/' && s[1] == '*' && EndsComment(s, |s| - 2)
    && forall k :: 2 <= k < |s| - 2 ==> !EndsComment(s, k)
  }

  predicate IsLineEnd(c: char) { c == '\r' || c == '\n' }

  // With the line end that closes it, if there is one.
  predicate LineComment(s: string) {
    |s| >= 2 && s[0] == '/' && s[1] == '/' && forall k :: 2 <= k < |s| - 1 ==> !IsLineEnd(s[k])
  }

  // A NUL stands for the end of the document as well.
  predicate IsWord(kind: TokenType, s: string) {
    match kind
    case EndOfStream => s == "" || s == ['\0']
    case ObjectBegin => s == "{"
    case ObjectEnd => s == "}"
    case ArrayBegin => s == "["
    case ArrayEnd => s == "]"
    case ArraySeparator => s == ","
    case MemberSeparator => s == ":"
    case TrueToken => s == "true"
    case FalseToken => s == "false"
    case NullToken => s == "null"
    case NumberToken => NumberWord(s)
    case StringToken => StringWord(s)
    case CommentToken => BlockComment(s) || LineComment(s)
    case ErrorToken => false
  }

  // Words that have no closing mark of their own go as far as they can.
  predicate GoesOn(kind: TokenType, s: string, next: char) {
    match kind
    case EndOfStream => s == ""
    case NumberToken => next in "0123456789.eE+-"
    case CommentToken => LineComment(s) && (|s| == 2 || !IsLineEnd(s[|s| - 1]))
    case _ => false
  }

  // After white space, the word of this kind that reaches from `start` to `end`.
  predicate WordAt(doc: string, pos: nat, kind: TokenType, start: nat, end: nat) {
    && pos <= start <= end <= |doc| && Blank(doc[pos..start]) && IsWord(kind, doc[start..end])
    && (end < |doc| ==> !GoesOn(kind, doc[start..end], doc[end]))
  }

  // ---------------------------------------------------------------- scanning

  lemma {:induction false} SpacesAre(doc: string, pos: nat, start: nat)
    requires pos <= |doc|
    ensures SkipSpaces(doc, pos) == start <==>
            pos <= start <= |doc| && Blank(doc[pos..start]) && (start < |doc| ==> !IsSpace(doc[start]))
    decreases |doc| - pos
  {
    if pos < start <= |doc| {
      assert doc[pos..start] == [doc[pos]] + doc[pos + 1..start];
      assert Blank(doc[pos..start]) <==> IsSpace(doc[pos]) && Blank(doc[pos + 1..start]);
    }
    if pos < |doc| && IsSpace(doc[pos]) { SpacesAre(doc, pos + 1, start); }
  }

  lemma {:induction false} StringEnds(doc: string, cur: nat, end: nat)
    requires cur <= |doc|
    ensures ScanString(doc, cur) == (end, true) <==>
            cur < end <= |doc| && doc[end - 1] == '"' && StringBody(doc[cur..end - 1])
    decreases |doc| - cur
  {
    if cur < |doc| {
      if doc[cur] == '\\' {
        if cur + 1 < |doc| { StringEnds(doc, cur + 2, end); }
        if cur + 2 < end <= |doc| { assert doc[cur..end - 1][2..] == doc[cur + 2..end - 1]; }
      } else if doc[cur] != '"' {
        StringEnds(doc, cur + 1, end);
        if cur + 1 < end <= |doc| { assert doc[cur..end - 1][1..] == doc[cur + 1..end - 1]; }
      }
    }
  }

  lemma {:induction false} NumberEnds(doc: string, cur: nat, end: nat)
    requires cur <= |doc|
    ensures ScanNumber(doc, cur) == end <==>
            && cur <= end <= |doc| && (forall k :: cur <= k < end ==> doc[k] in "0123456789.eE+-")
            && (end < |doc| ==> doc[end] !in "0123456789.eE+-")
    decreases |doc| - cur
  {
    if cur < |doc| { NumberChars(doc[cur]); }
    if cur < |doc| && IsNumberChar(doc[cur]) { NumberEnds(doc, cur + 1, end); }
  }

  lemma NumberChars(c: char)
    ensures IsNumberChar(c) <==> c in "0123456789.eE+-"
  {
  }

  lemma {:induction false} BlockEnds(doc: string, cur: nat, end: nat)
    requires cur <= |doc|
    ensures ScanCStyleComment(doc, cur) == (end, true) <==>
            && cur + 2 <= end <= |doc| && EndsComment(doc, end - 2)
            && forall k :: cur <= k < end - 2 ==> !EndsComment(doc, k)
    decreases |doc| - cur
  {
    if cur < |doc| {
      BlockEnds(doc, cur + 1, end);
      if cur + 1 < |doc| && EndsComment(doc, cur) {
        assert ScanCStyleComment(doc, cur) == (cur + 2, true);
      }
    }
  }

  lemma {:induction false} LineEnds(doc: string, cur: nat, end: nat)
    requires cur <= |doc|
    ensures ScanCppStyleComment(doc, cur) == end <==>
            && cur <= end <= |doc| && (forall k :: cur <= k < end - 1 ==> !IsLineEnd(doc[k]))
            && (end < |doc| ==> cur < end && IsLineEnd(doc[end - 1]))
    decreases |doc| - cur
  {
    if cur < |doc| { LineEnds(doc, cur + 1, end); }
  }

  // ------------------------------------------------------------------ tokens

  predicate Punctuation(kind: TokenType) {
    kind.ObjectBegin? || kind.ObjectEnd? || kind.ArrayBegin? || kind.ArrayEnd? || kind.ArraySeparator?
    || kind.MemberSeparator? || kind.EndOfStream?
  }

  lemma PunctuationIff(doc: string, start: nat, kind: TokenType, end: nat)
    requires start < |doc| && Punctuation(kind)
    ensures TokenAt(doc, start) == Token(kind, start, end) <==>
            start < end <= |doc| && IsWord(kind, doc[start..end])
  {
    hide ScanString, ScanComment, ScanNumber, Matches, StringWord, NumberWord, BlockComment, LineComment;
    if start < end <= |doc| { assert doc[start..end][0] == doc[start]; }
  }

  lemma Inside(doc: string, start: nat, end: nat)
    requires start + 2 <= end <= |doc|
    ensures var s := doc[start..end];
            s[0] == doc[start] && s[|s| - 1] == doc[end - 1] && s[1..|s| - 1] == doc[start + 1..end - 1]
  {
    var s, inside := doc[start..end], doc[start + 1..end - 1];
    forall k | 0 <= k < |inside| ensures s[1..|s| - 1][k] == inside[k] {
      assert s[k + 1] == doc[start + k + 1];
    }
    assert |s[1..|s| - 1]| == |inside|;
  }

  lemma StringIff(doc: string, start: nat, end: nat)
    requires start < |doc|
    ensures TokenAt(doc, start) == Token(StringToken, start, end) <==>
            start < end <= |doc| && StringWord(doc[start..end])
  {
    StringEnds(doc, start + 1, end);
    if start + 1 < end <= |doc| {
      Inside(doc, start, end);
    }
    hide ScanString, ScanComment, ScanNumber, Matches, StringBody;
  }

  lemma NumberIff(doc: string, start: nat, end: nat)
    requires start < |doc|
    ensures TokenAt(doc, start) == Token(NumberToken, start, end) <==>
            && start < end <= |doc| && NumberWord(doc[start..end])
            && (end < |doc| ==> !GoesOn(NumberToken, doc[start..end], doc[end]))
  {
    NumberEnds(doc, start + 1, end);
    if start < end <= |doc| {
      var s := doc[start..end];
      assert s[0] == doc[start];
      assert forall k :: start + 1 <= k < end ==> s[k - start] == doc[k];
      assert forall i :: 1 <= i < |s| ==> s[i] == doc[start + i];
    }
    hide ScanString, ScanComment, ScanNumber, Matches;
  }

  predicate IsLiteral(kind: TokenType) {
    kind.TrueToken? || kind.FalseToken? || kind.NullToken?
  }

  lemma LiteralIff(doc: string, start: nat, kind: TokenType, end: nat)
    requires start < |doc| && IsLiteral(kind)
    ensures TokenAt(doc, start) == Token(kind, start, end) <==>
            start < end <= |doc| && IsWord(kind, doc[start..end])
  {
    hide ScanString, ScanComment, ScanNumber, StringWord, NumberWord, BlockComment, LineComment;
    if start < end <= |doc| {
      var s := doc[start..end];
      assert s[0] == doc[start] && s[1..] == doc[start + 1..end];
    }
    LiteralTexts(doc, start);
  }

  lemma LiteralTexts(doc: string, start: nat)
    requires start < |doc|
    ensures doc[start] == 't' && Matches(doc, start + 1, "rue") <==>
            start + 4 <= |doc| && doc[start..start + 4] == "true"
    ensures doc[start] == 'f' && Matches(doc, start + 1, "alse") <==>
            start + 5 <= |doc| && doc[start..start + 5] == "false"
    ensures doc[start] == 'n' && Matches(doc, start + 1, "ull") <==>
            start + 4 <= |doc| && doc[start..start + 4] == "null"
  {
    if start + 4 <= |doc| {
      FirstAndRest(doc, start, "true");
      FirstAndRest(doc, start, "null");
    }
    if start + 5 <= |doc| { FirstAndRest(doc, start, "false"); }
  }

  lemma FirstAndRest(doc: string, start: nat, w: string)
    requires w != "" && start + |w| <= |doc|
    ensures doc[start..start + |w|] == w <==> doc[start] == w[0] && doc[start + 1..start + |w|] == w[1..]
  {
    var s := doc[start..start + |w|];
    assert s == [doc[start]] + doc[start + 1..start + |w|];
    assert w == [w[0]] + w[1..];
  }

  lemma BlockIff(doc: string, start: nat, end: nat)
    requires start + 1 < |doc| && doc[start] == '/' && doc[start + 1] == '*'
    ensures TokenAt(doc, start) == Token(CommentToken, start, end) <==>
            start < end <= |doc| && BlockComment(doc[start..end])
  {
    BlockEnds(doc, start + 2, end);
    if start + 4 <= end <= |doc| {
      var s := doc[start..end];
      assert s[0] == doc[start] && s[1] == doc[start + 1];
      assert forall k :: 2 <= k < |s| - 1 ==> (EndsComment(s, k) <==> EndsComment(doc, start + k));
      assert forall k :: start + 2 <= k < end - 1 ==> (EndsComment(doc, k) <==> EndsComment(s, k - start));
    }
    hide ScanString, ScanCStyleComment, ScanCppStyleComment, ScanNumber, Matches, EndsComment;
  }

  lemma LineIff(doc: string, start: nat, end: nat)
    requires start + 1 < |doc| && doc[start] == '/' && doc[start + 1] == '/'
    ensures TokenAt(doc, start) == Token(CommentToken, start, end) <==>
            && start < end <= |doc| && LineComment(doc[start..end])
            && (end < |doc| ==> !GoesOn(CommentToken, doc[start..end], doc[end]))
  {
    LineEnds(doc, start + 2, end);
    if start + 2 <= end <= |doc| {
      var s := doc[start..end];
      assert s[0] == doc[start] && s[1] == doc[start + 1];
      assert forall k :: 2 <= k < |s| ==> s[k] == doc[start + k];
      assert forall k :: start + 2 <= k < end ==> doc[k] == s[k - start];
    }
    hide ScanString, ScanCStyleComment, ScanCppStyleComment, ScanNumber, Matches, IsLineEnd;
  }

  lemma CommentIff(doc: string, start: nat, end: nat)
    requires start < |doc|
    ensures TokenAt(doc, start) == Token(CommentToken, start, end) <==>
            && start < end <= |doc| && IsWord(CommentToken, doc[start..end])
            && (end < |doc| ==> !GoesOn(CommentToken, doc[start..end], doc[end]))
  {
    if doc[start] == '/' && start + 1 < |doc| && doc[start + 1] == '*' {
      BlockIff(doc, start, end);
      if start + 1 < end <= |doc| { assert doc[start..end][1] == '*'; }
    } else if doc[start] == '/' && start + 1 < |doc| && doc[start + 1] == '/' {
      LineIff(doc, start, end);
      if start + 1 < end <= |doc| { assert doc[start..end][1] == '/'; }
    } else if start + 1 < end <= |doc| {
      assert doc[start..end][0] == doc[start] && doc[start..end][1] == doc[start + 1];
    }
    hide ScanString, ScanCStyleComment, ScanCppStyleComment, ScanNumber, Matches, EndsComment, IsLineEnd;
  }

  lemma TokenAtIff(doc: string, start: nat, kind: TokenType, end: nat)
    requires start < |doc| && kind != ErrorToken
    ensures TokenAt(doc, start) == Token(kind, start, end) <==>
            && start < end <= |doc| && IsWord(kind, doc[start..end])
            && (end < |doc| ==> !GoesOn(kind, doc[start..end], doc[end]))
  {
    hide TokenAt, StringWord, NumberWord, BlockComment, LineComment;
    match kind {
      case StringToken => StringIff(doc, start, end);
      case NumberToken => NumberIff(doc, start, end);
      case CommentToken => CommentIff(doc, start, end);
      case TrueToken => LiteralIff(doc, start, kind, end);
      case FalseToken => LiteralIff(doc, start, kind, end);
      case NullToken => LiteralIff(doc, start, kind, end);
      case _ => PunctuationIff(doc, start, kind, end);
    }
  }

  // A word does not begin with white space, and only the end of the document is empty.
  lemma WordStarts(kind: TokenType, s: string)
    requires IsWord(kind, s)
    ensures s == "" ==> kind == EndOfStream
    ensures s != "" ==> !IsSpace(s[0])
  {
  }

  lemma NothingEnds()
    ensures IsWord(EndOfStream, "")
  {
  }

  // The next token is of a kind exactly when a word of that kind stands next, and it is
  // that word.
  lemma TokenIff(doc: string, pos: nat, kind: TokenType, start: nat, end: nat)
    requires pos <= |doc| && kind != ErrorToken
    ensures ReadToken(doc, pos) == Token(kind, start, end) <==> WordAt(doc, pos, kind, start, end)
  {
    hide TokenAt, IsWord, IsSpace, Blank, SkipSpaces;
    var t := ReadToken(doc, pos);
    SpacesAre(doc, pos, start);
    SpacesAre(doc, pos, t.start);
    if t == Token(kind, start, end) {
      if start < |doc| {
        TokenAtIff(doc, start, kind, end);
      } else {
        NothingEnds();
        assert doc[start..end] == "";
      }
    }
    if WordAt(doc, pos, kind, start, end) {
      WordStarts(kind, doc[start..end]);
      if start < end { assert doc[start..end][0] == doc[start]; }
      if start < |doc| { TokenAtIff(doc, start, kind, end); }
    }
  }

  // It is an error exactly when no word stands next.
  lemma ErrorIff(doc: string, pos: nat)
    requires pos <= |doc|
    ensures ReadToken(doc, pos).kind == ErrorToken <==>
            forall kind, start, end :: !WordAt(doc, pos, kind, start, end)
  {
    hide ReadToken, WordAt;
    var t := ReadToken(doc, pos);
    if t.kind != ErrorToken { TokenIff(doc, pos, t.kind, t.start, t.end); }
    forall kind, start, end | t.kind == ErrorToken ensures !WordAt(doc, pos, kind, start, end) {
      if kind == ErrorToken { NoErrorWord(doc, pos, start, end); } else { TokenIff(doc, pos, kind, start, end); }
    }
  }

  lemma NoErrorWord(doc: string, pos: nat, start: nat, end: nat)
    ensures !WordAt(doc, pos, ErrorToken, start, end)
  {
  }

  // ---------------------------------------------------------------- numbers

  // Of the number words, those that are no integers are read as doubles, for whatever
  // mark; no number word is found not to be a number before sscanf looks at it.
  lemma NumberWordIs(s: string)
    requires NumberWord(s)
    ensures JsonNumber.LooksDouble(s) <==> !JsonNumber.IsIntegerText(s)
    ensures !JsonNumber.IsIntegerText(s) ==> JsonNumber.DecodeInteger(s) == JsonNumber.AsDouble
    ensures JsonNumber.DecodeInteger(s) != JsonNumber.NotNumber
  {
    if JsonNumber.IsIntegerText(s) {
      JsonNumber.IntegerTextNotDouble(s);
      DigitsAreRead(JsonNumber.Magnitude(s), 0, 0, JsonNumber.LimitFor(JsonNumber.Negative(s)));
    } else {
      var m := JsonNumber.Magnitude(s);
      var i :| 0 <= i < |m| && !JsonNumber.IsDigit(m[i]);
      var k := if JsonNumber.Negative(s) then i + 1 else i;
      assert s[k] == m[i];
      DigitsOrMark(s, k);
    }
    hide JsonNumber.DecodeDigits, JsonNumber.DoubleMark;
  }

  lemma DigitsOrMark(s: string, k: nat)
    requires NumberWord(s) && k < |s| && !JsonNumber.IsDigit(s[k]) && (k == 0 ==> s[0] != '-')
    ensures JsonNumber.DoubleMark(s, k)
  {
  }

  lemma {:induction false} DigitsAreRead(s: string, i: nat, value: nat, limit: JsonNumber.Limit)
    requires i <= |s| && JsonNumber.AllDigits(s)
    ensures JsonNumber.DecodeDigits(s, i, value, limit) != JsonNumber.BadDigit
    decreases |s| - i
  {
    if i < |s| {
      DigitsAreRead(s, i + 1, JsonNumber.ToUInt64(value * 10 + JsonNumber.DigitValue(s[i])), limit);
    }
  }
}
