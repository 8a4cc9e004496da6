// Json::Reader itself: a cursor that moves over the document, a stack of pointers into the
// tree being built, and a growing list of errors. Every method is tied to the functions
// of JsonLexer, JsonText and JsonGrammar; the pointers of nodes_ are paths in the tree.

module JsonReader {
  import opened Common
  import opened JsonValue
  import opened JsonText
  import opened JsonNumber
  import opened JsonLexer
  import opened JsonGrammar
  import opened JsonTree

  // The loops of decodeString append to what is already decoded.
  lemma PrependTwice(a: string, b: string, r: Result<string>)
    ensures Prepend(a, Prepend(b, r)) == Prepend(a + b, r) && Prepend("", r) == r
  {
    if r.Ok? { assert a + (b + r.value) == a + b + r.value && "" + r.value == r.value; }
  }

  // What decodeNumber makes of the outcome of its digit loop.
  lemma IntegerFromDigits(s: string, isNegative: bool, digits: Digits)
    requires !LooksDouble(s) && isNegative == Negative(s)
    requires digits == DecodeDigits(Magnitude(s), 0, 0, LimitFor(isNegative))
    ensures DecodeInteger(s) ==
            match digits
            case Exact(value) => Integer(TypedInteger(isNegative, value))
            case TooBig => AsDouble
            case BadDigit => NotNumber
  {
    hide LooksDouble, DecodeDigits, LimitFor, TypedInteger;
  }

  lemma NoErrors(e: seq<Error>)
    ensures e + [] == e
  {
  }

  // Assigning to a pointer the value that it already points at changes nothing.
  lemma Unassigned(v: Value, path: Path)
    requires Reaches(v, path)
    ensures With(v, path, At(v, path)) == v
  {
    AssignThrough(v, path, v, v);
  }

  // The reading of a token that holds a whole value, on a node that holds `cur`.
  function Leaf(t: Token, r: Result<Value>, cur: Value, extra: Option<nat>): Reading {
    match r
    case Ok(v) => Reading(true, t.end, v, [])
    case Fail(m, _) => Reading(false, t.end, cur, [Error(m, t, extra)])
  }

  // One turn of the loop of readArray, once its value and, if that is good, the token
  // after it are known.
  lemma ItemTurn(src: Source, pos: nat, items: Entries, index: nat, r: Reading, t: Token)
    requires pos <= |src.doc| && r == src.ReadValue(pos, Lookup(items, Index(index)))
    requires r.ok ==> t == NextToken(src.doc, r.pos)
    ensures
      var items' := Put(items, Index(index), r.value);
      src.ReadItems(pos, items, index) ==
      if !r.ok then Reading(false, SkipUntil(src.doc, r.pos, ArrayEnd), Array(items'), r.errors)
      else if t.kind == ArrayEnd then Reading(true, t.end, Array(items'), [])
      else if t.kind == ArraySeparator then src.ReadItems(t.end, items', index + 1)
      else Reading(false, SkipUntil(src.doc, t.end, ArrayEnd), Array(items'), [Error(MissingCommaInArray, t, None)])
  {
    hide NextToken, SkipUntil, Source.ReadValue, Put, Lookup;
  }

  // The same for the loop of readObject, from the point where its name is decoded.
  lemma MemberTurn(src: Source, pos: nat, members: Entries, last: string,
                   t: Token, name: string, colon: Token, r: Reading, comma: Token)
    requires pos <= |src.doc| && t == NextToken(src.doc, pos) && t.kind == StringToken
    requires src.DecodeString(t) == Ok(name)
    requires colon == ReadToken(src.doc, t.end) && colon.kind == MemberSeparator
    requires r == src.ReadValue(colon.end, Lookup(members, Name(CStr(name))))
    requires r.ok ==> comma == ReadToken(src.doc, r.pos)
    ensures
      var members' := Put(members, Name(CStr(name)), r.value);
      src.ReadMembers(pos, members, last) ==
      if !r.ok then Reading(false, SkipUntil(src.doc, r.pos, ObjectEnd), Object(members'), r.errors)
      else if comma.kind != ObjectEnd && comma.kind != ArraySeparator && comma.kind != CommentToken then
        Reading(false, SkipUntil(src.doc, comma.end, ObjectEnd), Object(members'),
            [Error(MissingCommaInObject, comma, None)])
      else
        var next := if comma.kind == CommentToken then NextToken(src.doc, comma.end) else comma;
        if next.kind == ObjectEnd then Reading(true, next.end, Object(members'), [])
        else src.ReadMembers(next.end, members', name)
  {
    hide NextToken, SkipUntil, JsonLexer.ReadToken, Source.ReadValue, Source.DecodeString, Put, Lookup, CStr;
  }

  // The ways in which that loop ends before a value is read.
  lemma MembersEnd(src: Source, pos: nat, members: Entries, last: string, t: Token)
    requires pos <= |src.doc| && t == NextToken(src.doc, pos)
    ensures t.kind == ObjectEnd && last == "" ==>
              src.ReadMembers(pos, members, last) == Reading(true, t.end, Object(members), [])
    ensures t.kind != StringToken && !(t.kind == ObjectEnd && last == "") ==>
              src.ReadMembers(pos, members, last) ==
              Reading(false, SkipUntil(src.doc, t.end, ObjectEnd), Object(members), [Error(MissingName, t, None)])
    ensures t.kind == StringToken && src.DecodeString(t).Fail? ==>
              src.ReadMembers(pos, members, last) ==
              Reading(false, SkipUntil(src.doc, t.end, ObjectEnd), Object(members),
                      [Error(src.DecodeString(t).message, t, Some(src.DecodeString(t).at))])
    ensures t.kind == StringToken && src.DecodeString(t).Ok? ==>
              var colon := ReadToken(src.doc, t.end);
              colon.kind != MemberSeparator ==>
                src.ReadMembers(pos, members, last) ==
                Reading(false, SkipUntil(src.doc, colon.end, ObjectEnd), Object(members),
                    [Error(MissingColon, colon, None)])
  {
    hide NextToken, SkipUntil, JsonLexer.ReadToken, Source.ReadValue, Source.DecodeString, Put, Lookup, CStr;
  }

  class Reader {
    var src: Source
    var current: nat
    var root: Value
    var nodes: seq<Path>
    var errors: seq<Error>

    constructor (features: Features, scan: string -> Option<Double>)
      ensures src == Source("", features, scan) && errors == []
    {
      src := Source("", features, scan);
      current, root, nodes, errors := 0, Null, [], [];
    }

    predicate InDoc()
      reads `src, `current
    {
      current <= |src.doc|
    }

    // The node stack is not empty and its top points at a value that is present.
    predicate Valid()
      reads `src, `current, `root, `nodes
    {
      InDoc() && nodes != [] && Reaches(root, Top())
    }

    function Top(): Path
      requires nodes != []
      reads `nodes
    {
      nodes[|nodes| - 1]
    }

    function CurrentValue(): Value
      requires nodes != [] && Reaches(root, Top())
      reads `root, `nodes
    {
      At(root, Top())
    }

    method SetCurrentValue(v: Value)
      requires nodes != [] && Reaches(root, Top())
      modifies `root
      ensures root == With(old(root), Top(), v)
      ensures Reaches(root, Top()) && At(root, Top()) == v
    {
      AssignThrough(root, Top(), v, v);
      root := With(root, Top(), v);
    }

    // What a reading leaves behind, from the tree and the errors that it started with.
    predicate Done(r: Reading, root0: Value, errors0: seq<Error>, ok: bool)
      reads `current, `root, `nodes, `errors
    {
      && nodes != [] && Reaches(root0, Top()) && ok == r.ok && current == r.pos
      && root == With(root0, Top(), r.value) && errors == errors0 + r.errors
    }

    // ------------------------------------------------------------- tokens

    method GetNextChar() returns (c: char)
      requires InDoc()
      modifies `current
      ensures InDoc() && c == Peek(src.doc, old(current))
      ensures current == if old(current) == |src.doc| then |src.doc| else old(current) + 1
    {
      if current == |src.doc| { return '\0'; }
      c := src.doc[current];
      current := current + 1;
    }

    method SkipSpaces()
      requires InDoc()
      modifies `current
      ensures InDoc() && current == JsonLexer.SkipSpaces(src.doc, old(current))
    {
      while current != |src.doc|
        invariant InDoc() && JsonLexer.SkipSpaces(src.doc, current) == JsonLexer.SkipSpaces(src.doc, old(current))
        decreases |src.doc| - current
      {
        var c := src.doc[current];
        if c == ' ' || c == '\t' || c == '\r' || c == '\n' {
          current := current + 1;
        } else {
          break;
        }
      }
    }

    method Match(pattern: string) returns (ok: bool)
      requires InDoc()
      modifies `current
      ensures InDoc() && ok == Matches(src.doc, old(current), pattern)
      ensures current == if ok then old(current) + |pattern| else old(current)
    {
      if |src.doc| - current < |pattern| { return false; }
      var index := |pattern|;
      while index > 0
        invariant 0 <= index <= |pattern|
        invariant forall i :: index <= i < |pattern| ==> src.doc[current + i] == pattern[i]
      {
        index := index - 1;
        if src.doc[current + index] != pattern[index] {
          assert src.doc[current..current + |pattern|][index] != pattern[index];
          return false;
        }
      }
      assert src.doc[current..current + |pattern|] == pattern;
      current := current + |pattern|;
      ok := true;
    }

    method ReadCStyleComment() returns (ok: bool)
      requires InDoc()
      modifies `current
      ensures InDoc() && (current, ok) == ScanCStyleComment(src.doc, old(current))
    {
      while current != |src.doc|
        invariant InDoc() && ScanCStyleComment(src.doc, current) == ScanCStyleComment(src.doc, old(current))
        decreases |src.doc| - current
      {
        var c := GetNextChar();
        if c == '*' && Peek(src.doc, current) == '/' { break; }
      }
      var c := GetNextChar();
      ok := c == '/';
    }

    method ReadCppStyleComment()
      requires InDoc()
      modifies `current
      ensures InDoc() && current == ScanCppStyleComment(src.doc, old(current))
    {
      while current != |src.doc|
        invariant InDoc() && ScanCppStyleComment(src.doc, current) == ScanCppStyleComment(src.doc, old(current))
        decreases |src.doc| - current
      {
        var c := GetNextChar();
        if c == '\r' || c == '\n' { break; }
      }
    }

    method ReadComment() returns (ok: bool)
      requires InDoc()
      modifies `current
      ensures InDoc() && (current, ok) == ScanComment(src.doc, old(current))
    {
      var c := GetNextChar();
      ok := false;
      if c == '*' {
        ok := ReadCStyleComment();
      } else if c == '/' {
        ReadCppStyleComment();
        ok := true;
      }
    }

    method ReadNumber()
      requires InDoc()
      modifies `current
      ensures InDoc() && current == ScanNumber(src.doc, old(current))
    {
      while current != |src.doc|
        invariant InDoc() && ScanNumber(src.doc, current) == ScanNumber(src.doc, old(current))
        decreases |src.doc| - current
      {
        var c := src.doc[current];
        if !('0' <= c <= '9') && c != '.' && c != 'e' && c != 'E' && c != '+' && c != '-' { break; }
        current := current + 1;
      }
    }

    method ReadString() returns (ok: bool)
      requires InDoc()
      modifies `current
      ensures InDoc() && (current, ok) == ScanString(src.doc, old(current))
    {
      var c := '\0';
      while current != |src.doc|
        invariant InDoc() && ScanString(src.doc, current) == ScanString(src.doc, old(current))
        invariant c != '"'
        decreases |src.doc| - current
      {
        c := GetNextChar();
        if c == '\\' {
          var _ := GetNextChar();
        } else if c == '"' {
          break;
        }
      }
      ok := c == '"';
    }

    // It always succeeds: a bad token is reported through its kind.
    method ReadToken() returns (token: Token)
      requires InDoc()
      modifies `current
      ensures token == JsonLexer.ReadToken(src.doc, old(current)) && current == token.end
      ensures InDoc()
    {
      hide ScanNumber, ScanString, ScanComment, JsonLexer.SkipSpaces, Matches;
      SkipSpaces();
      var start := current;
      var c := GetNextChar();
      var ok, kind := true, ErrorToken;
      if c == '{' { kind := ObjectBegin; }
      else if c == '}' { kind := ObjectEnd; }
      else if c == '[' { kind := ArrayBegin; }
      else if c == ']' { kind := ArrayEnd; }
      else if c == '"' { kind := StringToken; ok := ReadString(); }
      else if c == '/' { kind := CommentToken; ok := ReadComment(); }
      else if '0' <= c <= '9' || c == '-' { kind := NumberToken; ReadNumber(); }
      else if c == 't' { kind := TrueToken; ok := Match("rue"); }
      else if c == 'f' { kind := FalseToken; ok := Match("alse"); }
      else if c == 'n' { kind := NullToken; ok := Match("ull"); }
      else if c == ',' { kind := ArraySeparator; }
      else if c == ':' { kind := MemberSeparator; }
      else if c == '\0' { kind := EndOfStream; }
      else { ok := false; }
      if !ok { kind := ErrorToken; }
      token := Token(kind, start, current);
    }

    method SkipCommentTokens() returns (token: Token)
      requires InDoc()
      modifies `current
      ensures InDoc() && token == src.SkipCommentTokens(old(current)) && current == token.end
    {
      hide JsonLexer.ReadToken;
      token := ReadToken();
      if src.features.allowComments {
        token := PastComments(token);
      }
    }

    // The loop that drops comments after reading a token.
    method PastComments(first: Token) returns (token: Token)
      requires InDoc() && current == first.end
      modifies `current
      ensures InDoc() && current == token.end
      ensures token == if first.kind == CommentToken then NextToken(src.doc, old(current)) else first
    {
      hide JsonLexer.ReadToken;
      token := first;
      while token.kind == CommentToken
        invariant InDoc() && current == token.end
        invariant first.kind != CommentToken ==> token == first
        invariant first.kind == CommentToken ==>
                    NextToken(src.doc, old(current)) ==
                    if token.kind == CommentToken then NextToken(src.doc, current) else token
        decreases token.kind == CommentToken, |src.doc| - current
      {
        token := ReadToken();
      }
    }

    method ReadTokenPastComments() returns (token: Token)
      requires InDoc()
      modifies `current
      ensures InDoc() && token == NextToken(src.doc, old(current)) && current == token.end
    {
      hide JsonLexer.ReadToken;
      token := ReadToken();
      token := PastComments(token);
    }

    // ------------------------------------------------------------- errors

    method AddError(message: Message, token: Token, extra: Option<nat>) returns (ok: bool)
      modifies `errors
      ensures !ok && errors == old(errors) + [Error(message, token, extra)]
    {
      errors := errors + [Error(message, token, extra)];
      ok := false;
    }

    // Tokens are dropped through the first `until`; no error recorded before is lost.
    method RecoverFromError(until: TokenType) returns (ok: bool)
      requires InDoc()
      modifies `current, `errors
      ensures !ok && InDoc() && errors == old(errors)
      ensures current == SkipUntil(src.doc, old(current), until)
    {
      hide JsonLexer.ReadToken;
      var errorCount := |errors|;
      while true
        invariant InDoc() && errors == old(errors)
        invariant SkipUntil(src.doc, current, until) == SkipUntil(src.doc, old(current), until)
        decreases |src.doc| - current
      {
        var skip := ReadToken();
        if skip.kind == until || skip.kind == EndOfStream { break; }
      }
      errors := errors[..errorCount];
      ok := false;
    }

    method AddErrorAndRecover(message: Message, token: Token, until: TokenType) returns (ok: bool)
      requires InDoc()
      modifies `current, `errors
      ensures !ok && InDoc() && errors == old(errors) + [Error(message, token, None)]
      ensures current == SkipUntil(src.doc, old(current), until)
    {
      ok := AddError(message, token, None);
      ok := RecoverFromError(until);
    }

    // ------------------------------------------------------------ strings

    method DecodeUnicodeEscapeSequence(token: Token, start: nat, end: nat)
      returns (ok: bool, next: nat, unicode: nat)
      requires start <= end <= |src.doc|
      modifies `errors
      ensures var r := DecodeEscape(src.doc, start, end);
              && ok == r.Ok?
              && errors == old(errors) + (if ok then [] else [Error(r.message, token, Some(r.at))])
              && (ok ==> unicode == r.value && next == start + 4 <= end)
    {
      next, unicode := start, 0;
      if end - start < 4 {
        ok := AddError(FourDigitsExpected, token, Some(start));
        return;
      }
      for index := 0 to 4
        invariant next == start + index
        invariant DecodeHex(src.doc, next, start + 4, unicode) == DecodeHex(src.doc, start, start + 4, 0)
      {
        var c := src.doc[next];
        next := next + 1;
        unicode := unicode * 16;
        if '0' <= c <= '9' {
          unicode := unicode + (c as int - '0' as int);
        } else if 'a' <= c <= 'f' {
          unicode := unicode + (c as int - 'a' as int + 10);
        } else if 'A' <= c <= 'F' {
          unicode := unicode + (c as int - 'A' as int + 10);
        } else {
          ok := AddError(HexDigitExpected, token, Some(next));
          return;
        }
      }
      ok := true;
    }

    method DecodeUnicodeCodePoint(token: Token, start: nat, end: nat)
      returns (ok: bool, next: nat, unicode: nat)
      requires start <= end <= |src.doc|
      modifies `errors
      ensures var r := DecodeCodePoint(src.doc, start, end);
              && ok == r.Ok?
              && errors == old(errors) + (if ok then [] else [Error(r.message, token, Some(r.at))])
              && (ok ==> (unicode, next) == r.value)
    {
      hide DecodeEscape, DecodeHex;
      ok, next, unicode := DecodeUnicodeEscapeSequence(token, start, end);
      if !ok { return; }
      if 0xD800 <= unicode <= 0xDBFF {
        if end - next < 6 {
          ok := AddError(NoSecondHalf, token, Some(next));
          return;
        }
        var c := src.doc[next];
        next := next + 1;
        var good := c == '\\';
        if good {
          c := src.doc[next];
          next := next + 1;
          good := c == 'u';
        }
        if !good {
          ok := AddError(BadSecondHalf, token, Some(next));
          return;
        }
        var surrogatePair: nat;
        ok, next, surrogatePair := DecodeUnicodeEscapeSequence(token, next, end);
        if !ok { return; }
        unicode := Combine(unicode, surrogatePair);
      }
    }

    // One turn of the loop of decodeString.
    method DecodeChar(token: Token, start: nat, end: nat) returns (ok: bool, next: nat, appended: string)
      requires start < end <= |src.doc|
      modifies `errors
      ensures var r := DecodeOne(src.doc, start, end);
              && ok == r.Ok?
              && errors == old(errors) + (if ok then [] else [Error(r.message, token, Some(r.at))])
              && (ok ==> (appended, next) == r.value)
    {
      hide DecodeCodePoint, CodePointToUtf8;
      var c := src.doc[start];
      ok, next, appended := true, start + 1, "";
      if c == '\\' {
        if next == end {
          ok := AddError(EmptyEscape, token, Some(next));
          return;
        }
        var escape := src.doc[next];
        next := next + 1;
        match escape {
          case '"' => appended := "\"";
          case '/' => appended := "/";
          case '\\' => appended := "\\";
          case 'b' => appended := [8 as char];
          case 'f' => appended := [12 as char];
          case 'n' => appended := "\n";
          case 'r' => appended := "\r";
          case 't' => appended := "\t";
          case 'u' => {
            var unicode: nat;
            ok, next, unicode := DecodeUnicodeCodePoint(token, next, end);
            if ok { appended := CodePointToUtf8(unicode); }
          }
          case _ => ok := AddError(BadEscape, token, Some(next));
        }
      } else {
        appended := [c];
      }
    }

    method DecodeString(token: Token) returns (ok: bool, decoded: string)
      requires token.start + 2 <= token.end <= |src.doc|
      modifies `errors
      ensures var r := src.DecodeString(token);
              && ok == r.Ok?
              && errors == old(errors) + (if ok then [] else [Error(r.message, token, Some(r.at))])
              && (ok ==> decoded == r.value)
    {
      hide DecodeOne;
      var start, end := token.start + 1, token.end - 1;
      var next := start;
      ok, decoded := true, "";
      PrependTwice("", "", DecodeBody(src.doc, start, end));
      while next != end
        invariant start <= next <= end && ok && errors == old(errors)
        invariant Prepend(decoded, DecodeBody(src.doc, next, end)) == DecodeBody(src.doc, start, end)
      {
        if src.doc[next] == '"' { break; }
        var appended;
        ok, next, appended := DecodeChar(token, next, end);
        if !ok { return; }
        PrependTwice(decoded, appended, DecodeBody(src.doc, next, end));
        decoded := decoded + appended;
      }
    }

    // ------------------------------------------------------------ numbers

    method DecodeDouble(token: Token) returns (ok: bool)
      requires Valid() && token.end == current && token.start <= token.end
      modifies `root, `errors
      ensures Valid()
      ensures Done(Leaf(token, src.DecodeDouble(token), old(CurrentValue()), None), old(root), old(errors), ok)
    {
      Unassigned(root, Top());
      match src.scan(src.doc[token.start..token.end]) {
        case Some(d) => {
          SetCurrentValue(Real(d));
          ok := true;
        }
        case None => ok := AddError(NotANumber(src.doc[token.start..token.end]), token, None);
      }
    }

    // The loop that looks for a mark of a double.
    method InspectNumber(token: Token) returns (isDouble: bool)
      requires token.start <= token.end <= |src.doc|
      ensures isDouble == LooksDouble(src.Text(token))
    {
      ghost var s := src.doc[token.start..token.end];
      isDouble := false;
      for inspect := token.start to token.end
        invariant isDouble <==> exists i :: 0 <= i < inspect - token.start && DoubleMark(s, i)
      {
        assert s[inspect - token.start] == src.doc[inspect];
        ghost var mark := DoubleMark(s, inspect - token.start);
        var c := src.doc[inspect];
        isDouble := isDouble || c == '.' || c == 'e' || c == 'E' || c == '+' || (c == '-' && inspect != token.start);
      }
    }

    // The digit loop, from just after a sign; it stops early on a bad digit or a number too big.
    method AccumulateDigits(token: Token, first: nat, isNegative: bool) returns (r: Digits)
      requires token.start <= first <= token.end <= |src.doc|
      ensures r == DecodeDigits(src.doc[first..token.end], 0, 0, LimitFor(isNegative))
    {
      var maxIntegerValue := MaxMagnitude(isNegative);
      var threshold, lastDigitThreshold := maxIntegerValue / 10, maxIntegerValue % 10;
      ghost var s, limit := src.doc[first..token.end], LimitFor(isNegative);
      assert threshold == limit.threshold && lastDigitThreshold == limit.lastDigit;
      hide LimitFor, MaxMagnitude, ToUInt64;
      var cursor, value: nat := first, 0;
      while cursor < token.end
        invariant first <= cursor <= token.end
        invariant DecodeDigits(s, cursor - first, value, limit) == DecodeDigits(s, 0, 0, limit)
      {
        assert s[cursor - first] == src.doc[cursor];
        var c := src.doc[cursor];
        cursor := cursor + 1;
        if c < '0' || c > '9' { return BadDigit; }
        var digit: nat := c as int - '0' as int;
        if value >= threshold && (cursor != token.end || digit > lastDigitThreshold) { return TooBig; }
        value := ToUInt64(value * 10 + digit);
      }
      r := Exact(value);
    }

    // The assignment that ends decodeNumber.
    method StoreInteger(isNegative: bool, value: nat)
      requires nodes != [] && Reaches(root, Top())
      modifies `root
      ensures Reaches(root, Top()) && root == With(old(root), Top(), TypedInteger(isNegative, value))
    {
      hide With, At, Reaches;
      if isNegative {
        SetCurrentValue(Int(ToInt64(-ToInt64(value))));
      } else if value < TWO_31 {
        SetCurrentValue(Int(value));
      } else {
        SetCurrentValue(UInt(value));
      }
    }

    method DecodeNumber(token: Token) returns (ok: bool)
      requires Valid() && token.end == current && token.start < token.end
      modifies `root, `errors
      ensures Valid()
      ensures Done(Leaf(token, src.DecodeNumber(token), old(CurrentValue()), None), old(root), old(errors), ok)
    {
      hide LooksDouble, DecodeDigits, LimitFor, ToUInt64, ToInt64, Source.DecodeDouble, With, At, Reaches;
      Unassigned(root, Top());
      var isDouble := InspectNumber(token);
      if isDouble {
        ok := DecodeDouble(token);
        return;
      }
      var first := token.start;
      var isNegative := src.doc[first] == '-';
      if isNegative { first := first + 1; }
      assert src.Text(token)[0] == src.doc[token.start];
      ghost var s := src.Text(token);
      assert Magnitude(s) == src.doc[first..token.end];
      var digits := AccumulateDigits(token, first, isNegative);
      IntegerFromDigits(s, isNegative, digits);
      NoErrors(errors);
      hide DecodeInteger, Magnitude, TypedInteger, Negative;
      match digits {
        case BadDigit => ok := AddError(NotANumber(src.doc[token.start..token.end]), token, None);
        case TooBig => ok := DecodeDouble(token);
        case Exact(value) => {
          StoreInteger(isNegative, value);
          ok := true;
        }
      }
    }

    // ------------------------------------------------------------- values

    method ReadValue() returns (ok: bool)
      requires Valid()
      modifies `current, `root, `nodes, `errors
      ensures Valid() && nodes == old(nodes)
      ensures Done(src.ReadValue(old(current), old(CurrentValue())), old(root), old(errors), ok)
      decreases |src.doc| - current, 3
    {
      hide Source.DecodeNumber, Source.DecodeString, Source.ReadMembers, Source.ReadArray, CStr;
      Unassigned(root, Top());
      NoErrors(errors);
      var token := SkipCommentTokens();
      ok := true;
      match token.kind {
        case ObjectBegin => ok := ReadObject();
        case ArrayBegin => ok := ReadArray();
        case NumberToken => ok := DecodeNumber(token);
        case StringToken => {
          var decoded;
          ok, decoded := DecodeString(token);
          if ok { SetCurrentValue(Str(Chars(CStr(decoded)))); }
        }
        case TrueToken => SetCurrentValue(Bool(true));
        case FalseToken => SetCurrentValue(Bool(false));
        case NullToken => SetCurrentValue(Null);
        case _ => ok := AddError(ValueExpected, token, None);
      }
    }

    // The node on top of the stack holds the container v, put there into the tree `base`.
    predicate Building(base: Value, v: Value)
      reads `root, `nodes
    {
      && nodes != [] && Reaches(root, Top()) && Reaches(base, Top())
      && Fits(v) && CurrentValue() == v && root == With(base, Top(), v)
    }

    // A loop whose whole result is `whole`: either it is finished with that result, or it
    // has met no error and what is still to do, `rest`, yields it.
    predicate Looped(whole: Reading, rest: Reading, v: Value, errors0: seq<Error>, ok: bool, finished: bool)
      reads `current, `errors
    {
      if finished then ok == whole.ok && current == whole.pos && v == whole.value && errors == errors0 + whole.errors
      else errors == errors0 && rest == whole
    }

    lemma BuildingIsAssigned(base: Value, v: Value)
      requires Building(base, v)
      ensures nodes != [] && Reaches(root, Top()) && Reaches(base, Top()) && root == With(base, Top(), v)
    {
    }

    method StartContainer(v: Value)
      requires nodes != [] && Reaches(root, Top()) && Fits(v)
      modifies `root
      ensures Building(old(root), v)
    {
      AssignThrough(root, Top(), v, v);
      SetCurrentValue(v);
    }

    // readValue on the entry `key` of the container at the top of the stack, which
    // operator[] creates when it is missing.
    method ReadChild(key: Key, ghost base: Value, ghost v: Value) returns (ok: bool)
      requires InDoc() && Building(base, v) && KeyFor(v, key)
      modifies `current, `root, `nodes, `errors
      ensures InDoc() && nodes == old(nodes)
      ensures var r := src.ReadValue(old(current), Child(v, key));
              && ok == r.ok && current == r.pos && errors == old(errors) + r.errors
              && Building(base, WithChild(v, key, r.value))
      decreases |src.doc| - current, 4
    {
      hide Source.ReadValue;
      ghost var before, top, r := root, Top(), src.ReadValue(current, Child(v, key));
      ghost var v', c := WithChild(v, key, r.value), EnsureChild(v, key);
      ChildSlot(before, top, v, key, r.value);
      AssignThrough(base, top, v, v');
      AssignThrough(base, top, v', v');
      Unassigned(before, top);
      hide With, At, Reaches, WithChild, EnsureChild, Fits;
      SetCurrentValue(EnsureChild(CurrentValue(), key));
      nodes := nodes + [Top() + [key]];
      ok := ReadValue();
      nodes := nodes[..|nodes| - 1];
    }

    // The token after a member, past its comments, or an error.
    method ReadComma() returns (ok: bool, comma: Token)
      requires InDoc()
      modifies `current, `errors
      ensures InDoc()
      ensures var first := JsonLexer.ReadToken(src.doc, old(current));
              && ok == (first.kind == ObjectEnd || first.kind == ArraySeparator || first.kind == CommentToken)
              && current == (if ok then comma.end else SkipUntil(src.doc, first.end, ObjectEnd))
              && errors == old(errors) + (if ok then [] else [Error(MissingCommaInObject, first, None)])
              && (ok ==> comma == if first.kind == CommentToken then NextToken(src.doc, first.end) else first)
    {
      hide JsonLexer.ReadToken, NextToken, SkipUntil;
      comma := ReadToken();
      if comma.kind != ObjectEnd && comma.kind != ArraySeparator && comma.kind != CommentToken {
        ok := AddErrorAndRecover(MissingCommaInObject, comma, ObjectEnd);
        return;
      }
      comma := PastComments(comma);
      ok := true;
    }

    // A turn of the loop of readObject from after the member's name: the separator, the
    // value, and the token that continues or ends the object. `r` is the whole reading.
    method ReadMember(name: string, ghost base: Value, ghost members: Entries,
                      ghost pos: nat, ghost last: string, ghost tokenName: Token)
      returns (ok: bool, finished: bool, ghost members': Entries)
      requires InDoc() && pos <= |src.doc| && Building(base, Object(members))
      requires tokenName == NextToken(src.doc, pos) && tokenName.kind == StringToken && tokenName.end == current
      requires src.DecodeString(tokenName) == Ok(name)
      modifies `current, `root, `nodes, `errors
      ensures InDoc() && nodes == old(nodes) && Building(base, Object(members')) && current >= old(current)
      ensures Looped(src.ReadMembers(pos, members, last), src.ReadMembers(current, members', name),
                     Object(members'), old(errors), ok, finished)
      decreases |src.doc| - current, 6
    {
      hide JsonLexer.ReadToken, NextToken, SkipUntil, Source.DecodeString, Source.ReadValue, Source.ReadMembers, CStr;
      hide With, At, Reaches, Lookup, Put, Building;
      finished, members' := true, members;
      NoErrors(errors);
      var colon := ReadToken();
      if colon.kind != MemberSeparator {
        MembersEnd(src, pos, members, last, tokenName);
        ok := AddErrorAndRecover(MissingColon, colon, ObjectEnd);
      } else {
        ok, finished, members' := ReadMemberValue(name, base, members, pos, last, tokenName, colon);
      }
    }

    // The part of that turn which comes after the colon.
    method ReadMemberValue(name: string, ghost base: Value, ghost members: Entries,
                           ghost pos: nat, ghost last: string, ghost tokenName: Token, ghost colon: Token)
      returns (ok: bool, finished: bool, ghost members': Entries)
      requires InDoc() && pos <= |src.doc| && Building(base, Object(members))
      requires tokenName == NextToken(src.doc, pos) && tokenName.kind == StringToken
      requires src.DecodeString(tokenName) == Ok(name)
      requires colon == JsonLexer.ReadToken(src.doc, tokenName.end) && colon.kind == MemberSeparator
      requires colon.end == current
      modifies `current, `root, `nodes, `errors
      ensures InDoc() && nodes == old(nodes) && Building(base, Object(members')) && current >= old(current)
      ensures Looped(src.ReadMembers(pos, members, last), src.ReadMembers(current, members', name),
                     Object(members'), old(errors), ok, finished)
      decreases |src.doc| - current, 5
    {
      hide JsonLexer.ReadToken, NextToken, SkipUntil, Source.DecodeString, Source.ReadValue, Source.ReadMembers, CStr;
      hide With, At, Reaches, Lookup, Put, Building;
      NoErrors(errors);
      ghost var key := Name(CStr(name));
      ghost var v := src.ReadValue(current, Lookup(members, key));
      ok := ReadChild(Name(CStr(name)), base, Object(members));
      members' := Put(members, key, v.value);
      if !ok {
        finished := true;
        MemberTurn(src, pos, members, last, tokenName, name, colon, v, colon);
        ok := RecoverFromError(ObjectEnd);
      } else {
        MemberTurn(src, pos, members, last, tokenName, name, colon, v, JsonLexer.ReadToken(src.doc, current));
        var comma;
        ok, comma := ReadComma();
        finished := !ok || comma.kind == ObjectEnd;
      }
    }

    method ReadObject() returns (ok: bool)
      requires Valid()
      modifies `current, `root, `nodes, `errors
      ensures Valid() && nodes == old(nodes)
      ensures Done(src.ReadMembers(old(current), End, ""), old(root), old(errors), ok)
      decreases |src.doc| - current, 7
    {
      hide JsonLexer.ReadToken, NextToken, SkipUntil, Source.DecodeString, Source.ReadValue, Source.ReadMembers, CStr;
      hide With, At, Reaches, Lookup, Put, Building;
      ghost var start, base, before, whole := current, root, errors, src.ReadMembers(current, End, "");
      ghost var members := End;
      NoErrors(errors);
      ok := false;
      var name := "";
      StartContainer(Object(End));
      var finished := false;
      while !finished
        invariant InDoc() && nodes == old(nodes) && start <= current
        invariant Building(base, Object(members))
        invariant Looped(whole, src.ReadMembers(current, members, name), Object(members), before, ok, finished)
        decreases |src.doc| - current + if finished then 0 else 1
      {
        ghost var pos, last := current, name;
        var tokenName := ReadTokenPastComments();
        if tokenName.kind == ObjectEnd && name == "" {
          MembersEnd(src, pos, members, last, tokenName);
          ok, finished := true, true;
        } else if tokenName.kind != StringToken {
          MembersEnd(src, pos, members, last, tokenName);
          ok := AddErrorAndRecover(MissingName, tokenName, ObjectEnd);
          finished := true;
        } else {
          ok, name := DecodeString(tokenName);
          if !ok {
            MembersEnd(src, pos, members, last, tokenName);
            ok := RecoverFromError(ObjectEnd);
            finished := true;
          } else {
            ok, finished, members := ReadMember(name, base, members, pos, last, tokenName);
          }
        }
      }
      BuildingIsAssigned(base, Object(members));
    }

    method ReadArray() returns (ok: bool)
      requires Valid()
      modifies `current, `root, `nodes, `errors
      ensures Valid() && nodes == old(nodes)
      ensures Done(src.ReadArray(old(current)), old(root), old(errors), ok)
      decreases |src.doc| - current, 5
    {
      hide JsonLexer.ReadToken, JsonLexer.SkipSpaces, NextToken, SkipUntil, Source.ReadValue, Source.ReadItems;
      hide With, At, Reaches, Lookup, Put, Building;
      ghost var base, before, whole := root, errors, src.ReadArray(current);
      NoErrors(errors);
      StartContainer(Array(End));
      SkipSpaces();
      if Peek(src.doc, current) == ']' {
        var _ := ReadToken();
        BuildingIsAssigned(base, Array(End));
        return true;
      }
      ghost var start, items := current, End;
      var index := 0;
      while true
        invariant InDoc() && nodes == old(nodes) && start <= current && errors == before
        invariant Building(base, Array(items))
        invariant src.ReadItems(current, items, index) == whole
        decreases |src.doc| - current
      {
        ghost var pos, r := current, src.ReadValue(current, Lookup(items, Index(index)));
        ok := ReadChild(Index(index), base, Array(items));
        ghost var items' := Put(items, Index(index), r.value);
        if !ok {
          ItemTurn(src, pos, items, index, r, Token(ErrorToken, 0, 0));
          ok := RecoverFromError(ArrayEnd);
          BuildingIsAssigned(base, Array(items'));
          return;
        }
        var token := ReadTokenPastComments();
        ItemTurn(src, pos, items, index, r, token);
        if token.kind != ArraySeparator && token.kind != ArrayEnd {
          ok := AddErrorAndRecover(MissingCommaInArray, token, ArrayEnd);
          BuildingIsAssigned(base, Array(items'));
          return;
        }
        items := items';
        if token.kind == ArrayEnd { break; }
        index := index + 1;
      }
      ok := true;
      BuildingIsAssigned(base, Array(items));
    }

    // parse: the state of an earlier run is dropped, and whatever the document holds, the
    // stack ends with the root alone and the result is whether an error was recorded.
    method Parse(document: string, initial: Value) returns (ok: bool)
      modifies this
      ensures src == old(src).(doc := document) && nodes == [[]]
      ensures ok <==> errors == []
      ensures var r := src.Parse(initial);
              ok == r.ok && root == r.value && errors == r.errors && current == r.pos
    {
      hide Source.ReadValue;
      src, current, root, errors, nodes := src.(doc := document), 0, initial, [], [];
      nodes := nodes + [[]];
      var successful := ReadValue();
      var token := SkipCommentTokens();
      if src.features.strictRoot {
        if !IsArray(root) && !IsObject(root) {
          token := Token(ErrorToken, 0, |src.doc|);
          ok := AddError(BadRoot, token, None);
          return;
        }
      }
      ok := successful;
    }
  }
}
