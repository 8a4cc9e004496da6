// The token level of Json::Reader: where each token ends and what kind it is, on any
// byte sequence. Reading past the last byte yields NUL, as c_str() guarantees.

module JsonLexer {
  import opened JsonText

  datatype TokenType =
    | EndOfStream | ObjectBegin | ObjectEnd | ArrayBegin | ArrayEnd
    | StringToken | NumberToken | TrueToken | FalseToken | NullToken
    | ArraySeparator | MemberSeparator | CommentToken | ErrorToken

  datatype Token = Token(kind: TokenType, start: nat, end: nat)

  // *current_, with the terminator as sentinel
  function Peek(doc: string, cur: nat): char {
    if cur < |doc| then doc[cur] else '\0'
  }

  predicate IsSpace(c: char) { c == ' ' || c == '\t' || c == '\r' || c == '\n' }

  function SkipSpaces(doc: string, cur: nat): (r: nat)
    requires cur <= |doc|
    ensures cur <= r <= |doc|
    decreases |doc| - cur
  {
    if cur < |doc| && IsSpace(doc[cur]) then SkipSpaces(doc, cur + 1) else cur
  }

  // match: the rest of a literal name
  predicate Matches(doc: string, cur: nat, pattern: string)
    requires cur <= |doc|
  {
    cur + |pattern| <= |doc| && doc[cur..cur + |pattern|] == pattern
  }

  predicate IsNumberChar(c: char) {
    '0' <= c <= '9' || c == '.' || c == 'e' || c == 'E' || c == '+' || c == '-'
  }

  function ScanNumber(doc: string, cur: nat): (r: nat)
    requires cur <= |doc|
    ensures cur <= r <= |doc|
    decreases |doc| - cur
  {
    if cur < |doc| && IsNumberChar(doc[cur]) then ScanNumber(doc, cur + 1) else cur
  }

  function ScanCStyleComment(doc: string, cur: nat): (r: (nat, bool))
    requires cur <= |doc|
    ensures cur <= r.0 <= |doc|
    decreases |doc| - cur
  {
    if cur == |doc| then (cur, false)
    else if doc[cur] == '*' && Peek(doc, cur + 1) == '/' then (cur + 2, true)
    else ScanCStyleComment(doc, cur + 1)
  }

  function ScanCppStyleComment(doc: string, cur: nat): (r: nat)
    requires cur <= |doc|
    ensures cur <= r <= |doc|
    decreases |doc| - cur
  {
    if cur == |doc| then cur
    else if doc[cur] == '\r' || doc[cur] == '\n' then cur + 1
    else ScanCppStyleComment(doc, cur + 1)
  }

  // readComment, after its first slash
  function ScanComment(doc: string, cur: nat): (r: (nat, bool))
    requires cur <= |doc|
    ensures cur <= r.0 <= |doc|
  {
    if cur == |doc| then (cur, false)
    else if doc[cur] == '*' then ScanCStyleComment(doc, cur + 1)
    else if doc[cur] == '/' then (ScanCppStyleComment(doc, cur + 1), true)
    else (cur + 1, false)
  }

  function KindIf(ok: bool, kind: TokenType): TokenType {
    if ok then kind else ErrorToken
  }

  // The kind and end of the token whose first byte is at `start`.
  function TokenAt(doc: string, start: nat): (t: Token)
    requires start < |doc|
    ensures t.start == start && start < t.end <= |doc|
    ensures t.kind == StringToken ==> start + 2 <= t.end
  {
    var c, next := doc[start], start + 1;
    if c == '{' then Token(ObjectBegin, start, next)
    else if c == '}' then Token(ObjectEnd, start, next)
    else if c == '[' then Token(ArrayBegin, start, next)
    else if c == ']' then Token(ArrayEnd, start, next)
    else if c == '"' then
      var (end, ok) := ScanString(doc, next);
      Token(KindIf(ok, StringToken), start, end)
    else if c == '/' then
      var (end, ok) := ScanComment(doc, next);
      Token(KindIf(ok, CommentToken), start, end)
    else if '0' <= c <= '9' || c == '-' then Token(NumberToken, start, ScanNumber(doc, next))
    else if c == 't' then Literal(doc, start, "rue", TrueToken)
    else if c == 'f' then Literal(doc, start, "alse", FalseToken)
    else if c == 'n' then Literal(doc, start, "ull", NullToken)
    else if c == ',' then Token(ArraySeparator, start, next)
    else if c == ':' then Token(MemberSeparator, start, next)
    else if c == '\0' then Token(EndOfStream, start, next)
    else Token(ErrorToken, start, next)
  }

  function Literal(doc: string, start: nat, rest: string, kind: TokenType): (t: Token)
    requires start < |doc|
    ensures t.start == start && start < t.end <= |doc| && (t.kind == kind || t.kind == ErrorToken)
  {
    if Matches(doc, start + 1, rest) then Token(kind, start, start + 1 + |rest|)
    else Token(ErrorToken, start, start + 1)
  }

  // readToken: it takes at least one byte unless the document is exhausted.
  function ReadToken(doc: string, cur: nat): (t: Token)
    requires cur <= |doc|
    ensures cur <= t.start <= t.end <= |doc|
    ensures t.start < t.end || (t.kind == EndOfStream && t.end == |doc|)
    ensures t.kind == StringToken ==> t.start + 2 <= t.end
  {
    var start := SkipSpaces(doc, cur);
    if start == |doc| then Token(EndOfStream, start, start) else TokenAt(doc, start)
  }

  // The next token that is not a comment.
  function NextToken(doc: string, cur: nat): (t: Token)
    requires cur <= |doc|
    ensures cur <= t.start <= t.end <= |doc|
    ensures t.start < t.end || (t.kind == EndOfStream && t.end == |doc|)
    ensures t.kind != CommentToken
    ensures t.kind == StringToken ==> t.start + 2 <= t.end
    decreases |doc| - cur
  {
    var t := ReadToken(doc, cur);
    if t.kind == CommentToken then NextToken(doc, t.end) else t
  }

  // recoverFromError: tokens are dropped through the first `until` or end of stream.
  function SkipUntil(doc: string, cur: nat, until: TokenType): (r: nat)
    requires cur <= |doc|
    ensures cur <= r <= |doc|
    decreases |doc| - cur
  {
    var t := ReadToken(doc, cur);
    if t.kind == until || t.kind == EndOfStream then t.end else SkipUntil(doc, t.end, until)
  }
}
