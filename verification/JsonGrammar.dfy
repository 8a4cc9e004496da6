// What Json::Reader computes on any byte sequence, as functions of the document: the
// value left at a node, the errors recorded, the cursor, and whether reading succeeded.
// Comments are skipped; collecting them into the tree is not modelled.

module JsonGrammar {
  import opened Common
  import opened JsonValue
  import opened JsonText
  import opened JsonNumber
  import opened JsonLexer

  datatype Error = Error(message: Message, token: Token, extra: Option<nat>)

  datatype Features = Features(allowComments: bool, strictRoot: bool)

  // Reading one value: success, the cursor after it, the value of its node, new errors.
  datatype Reading = Reading(ok: bool, pos: nat, value: Value, errors: seq<Error>)

  // The part of a std::string that survives as a C string.
  function CStr(s: string): (r: string)
    ensures NulFree(r)
    ensures NulFree(s) ==> r == s
  {
    if s == "" || s[0] == '\0' then "" else [s[0]] + CStr(s[1..])
  }

  // It is all that comes before the first NUL, if there is one.
  lemma {:induction false} CStrIs(s: string)
    ensures CStr(s) <= s && '\0' !in CStr(s) && (CStr(s) != s ==> s[|CStr(s)|] == '\0')
  {
    if s != "" && s[0] != '\0' {
      CStrIs(s[1..]);
      assert s == [s[0]] + s[1..];
    }
  }

  // A document with the reader's settings. `scan` is sscanf's reading of a double.
  datatype Source = Source(doc: string, features: Features, scan: string -> Option<Double>) {

    function Text(t: Token): string
      requires t.start <= t.end <= |doc|
    {
      doc[t.start..t.end]
    }

    function SkipCommentTokens(cur: nat): (t: Token)
      requires cur <= |doc|
      ensures cur <= t.start <= t.end <= |doc|
      ensures t.start < t.end || (t.kind == EndOfStream && t.end == |doc|)
      ensures t.kind == StringToken ==> t.start + 2 <= t.end
    {
      if features.allowComments then NextToken(doc, cur) else ReadToken(doc, cur)
    }

    function DecodeDouble(t: Token): Result<Value>
      requires t.start <= t.end <= |doc|
    {
      match scan(Text(t))
      case Some(d) => Ok(Real(d))
      case None => Fail(NotANumber(Text(t)), t.end)
    }

    function DecodeNumber(t: Token): Result<Value>
      requires t.start <= t.end <= |doc|
    {
      match DecodeInteger(Text(t))
      case Integer(v) => Ok(v)
      case AsDouble => DecodeDouble(t)
      case NotNumber => Fail(NotANumber(Text(t)), t.end)
    }

    // decodeString: the bytes between the quotes of a string token
    function DecodeString(t: Token): Result<string>
      requires t.start + 2 <= t.end <= |doc|
    {
      DecodeBody(doc, t.start + 1, t.end - 1)
    }

    // addErrorAndRecover
    function Fails(message: Message, t: Token, until: TokenType, value: Value): (r: Reading)
      requires t.end <= |doc|
      ensures t.end <= r.pos <= |doc|
    {
      Reading(false, SkipUntil(doc, t.end, until), value, [Error(message, t, None)])
    }

    // readValue on a node that holds `cur`
    function ReadValue(pos: nat, cur: Value): (r: Reading)
      requires pos <= |doc|
      ensures pos <= r.pos <= |doc|
      ensures r.ok <==> r.errors == []
      decreases |doc| - pos, 0
    {
      var t := SkipCommentTokens(pos);
      match t.kind
      case ObjectBegin => ReadMembers(t.end, End, "")
      case ArrayBegin => ReadArray(t.end)
      case NumberToken =>
        (match DecodeNumber(t)
         case Ok(v) => Reading(true, t.end, v, [])
         case Fail(m, _) => Reading(false, t.end, cur, [Error(m, t, None)]))
      case StringToken =>
        (match DecodeString(t)
         case Ok(s) => Reading(true, t.end, Str(Chars(CStr(s))), [])
         case Fail(m, at) => Reading(false, t.end, cur, [Error(m, t, Some(at))]))
      case TrueToken => Reading(true, t.end, Bool(true), [])
      case FalseToken => Reading(true, t.end, Bool(false), [])
      case NullToken => Reading(true, t.end, Null, [])
      case _ => Reading(false, t.end, cur, [Error(ValueExpected, t, None)])
    }

    // The loop of readObject: `name` is the last member name, as a std::string.
    function ReadMembers(pos: nat, members: Entries, name: string): (r: Reading)
      requires pos <= |doc|
      ensures pos <= r.pos <= |doc|
      ensures r.ok <==> r.errors == []
      decreases |doc| - pos, 1
    {
      var t := NextToken(doc, pos);
      if t.kind == ObjectEnd && name == "" then Reading(true, t.end, Object(members), [])
      else if t.kind != StringToken then Fails(MissingName, t, ObjectEnd, Object(members))
      else
        match DecodeString(t)
        case Fail(m, at) =>
          Reading(false, SkipUntil(doc, t.end, ObjectEnd), Object(members), [Error(m, t, Some(at))])
        case Ok(name') =>
          var colon := ReadToken(doc, t.end);
          if colon.kind != MemberSeparator then Fails(MissingColon, colon, ObjectEnd, Object(members))
          else
            var key := Name(CStr(name'));
            var r := ReadValue(colon.end, Lookup(members, key));
            var members' := Put(members, key, r.value);
            if !r.ok then
              Reading(false, SkipUntil(doc, r.pos, ObjectEnd), Object(members'), r.errors)
            else
              var comma := ReadToken(doc, r.pos);
              if comma.kind != ObjectEnd && comma.kind != ArraySeparator && comma.kind != CommentToken then
                Fails(MissingCommaInObject, comma, ObjectEnd, Object(members'))
              else
                var last := if comma.kind == CommentToken then NextToken(doc, comma.end) else comma;
                if last.kind == ObjectEnd then Reading(true, last.end, Object(members'), [])
                else ReadMembers(last.end, members', name')
    }

    function ReadArray(pos: nat): (r: Reading)
      requires pos <= |doc|
      ensures pos <= r.pos <= |doc|
      ensures r.ok <==> r.errors == []
      decreases |doc| - pos, 2
    {
      var start := SkipSpaces(doc, pos);
      if Peek(doc, start) == ']' then Reading(true, ReadToken(doc, start).end, Array(End), [])
      else ReadItems(start, End, 0)
    }

    // The loop of readArray, about to read the element with this index.
    function ReadItems(pos: nat, items: Entries, index: nat): (r: Reading)
      requires pos <= |doc|
      ensures pos <= r.pos <= |doc|
      ensures r.ok <==> r.errors == []
      decreases |doc| - pos, 1
    {
      var r := ReadValue(pos, Lookup(items, Index(index)));
      var items' := Put(items, Index(index), r.value);
      if !r.ok then Reading(false, SkipUntil(doc, r.pos, ArrayEnd), Array(items'), r.errors)
      else
        var t := NextToken(doc, r.pos);
        if t.kind != ArraySeparator && t.kind != ArrayEnd then
          Fails(MissingCommaInArray, t, ArrayEnd, Array(items'))
        else if t.kind == ArrayEnd then Reading(true, t.end, Array(items'), [])
        else ReadItems(t.end, items', index + 1)
    }

    // parse into a root that holds `root`. What follows the value is not looked at.
    function Parse(root: Value): (r: Reading)
      ensures r.ok <==> r.errors == []
    {
      var r := ReadValue(0, root);
      var after := SkipCommentTokens(r.pos).end;
      if features.strictRoot && !IsArray(r.value) && !IsObject(r.value) then
        Reading(false, after, r.value,
                r.errors + [Error(BadRoot, Token(ErrorToken, 0, |doc|), None)])
      else r.(pos := after)
    }
  }
}
