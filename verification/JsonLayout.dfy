// Printed values as token texts, and what Json::Reader makes of them: however the tokens
// of a value are spaced, reading them yields the canonical form of the value.

module JsonLayout {
  import opened JsonValue
  import opened JsonText
  import opened JsonNumber
  import opened JsonLexer
  import opened JsonGrammar
  import JsonOrder

  // Values that the writers print without going through a double or a null pointer.
  predicate Printable(v: Value) {
    match v
    case Real(_) => false
    case Str(s) => s.Chars?
    case Array(items) => PrintableEntries(items)
    case Object(members) => PrintableEntries(members)
    case _ => true
  }

  predicate PrintableEntries(e: Entries) {
    e.Entry? ==> Printable(e.value) && PrintableEntries(e.rest)
  }

  // How far the first entry lies beyond index k.
  function Gap(e: Entries, k: nat): nat {
    if e.Entry? && e.key.Index? && e.key.index > k then e.key.index - k else 0
  }

  // ----------------------------------------------------------------- tokens

  function Tokens(v: Value): seq<string>
    decreases v, 0
  {
    match v
    case Null => ["null"]
    case Int(i) => [IntegerText(i)]
    case UInt(u) => [IntegerText(u)]
    case Bool(b) => [if b then "true" else "false"]
    case Str(Chars(s)) => [Quote(s)]
    case Array(items) => ["["] + ItemTokens(items, 0) + ["]"]
    case Object(members) => ["{"] + MemberTokens(members) + ["}"]
    case _ => []
  }

  // The elements of an array from index k on; an index with no entry prints as null.
  function ItemTokens(e: Entries, k: nat): seq<string>
    decreases e, Gap(e, k)
  {
    if e.End? then []
    else if Gap(e, k) > 0 then ["null", ","] + ItemTokens(e, k + 1)
    else Tokens(e.value) + (if e.rest.End? then [] else [","] + ItemTokens(e.rest, k + 1))
  }

  function MemberTokens(e: Entries): seq<string>
    decreases e, 0
  {
    if e.End? then []
    else
      [Quote(NameOf(e.key)), ":"] + Tokens(e.value)
      + (if e.rest.End? then [] else [","] + MemberTokens(e.rest))
  }

  function NameOf(k: Key): string {
    if k.Name? then k.cstr else ""
  }

  // -------------------------------------------------------------- canonical

  // What a printed value comes back as: integers in the reader's choice of type, arrays
  // with every index present.
  function Canon(v: Value): Value
    decreases v, 0
  {
    match v
    case Int(i) => Canonical(i)
    case UInt(u) => Canonical(u)
    case Array(items) => Array(DenseItems(items, 0))
    case Object(members) => Object(CanonMembers(members))
    case _ => v
  }

  function DenseItems(e: Entries, k: nat): Entries
    decreases e, Gap(e, k)
  {
    if e.End? then End
    else if Gap(e, k) > 0 then Entry(Index(k), Null, DenseItems(e, k + 1))
    else Entry(Index(k), Canon(e.value), DenseItems(e.rest, k + 1))
  }

  function CanonMembers(e: Entries): Entries
    decreases e, 0
  {
    if e.End? then End else Entry(e.key, Canon(e.value), CanonMembers(e.rest))
  }

  // ----------------------------------------------------------------- layout

  // From `pos` to its end the document is these tokens with white space around them.
  predicate Layout(doc: string, pos: nat, toks: seq<string>)
    requires pos <= |doc|
    decreases |doc| - pos
  {
    if pos < |doc| && IsSpace(doc[pos]) then Layout(doc, pos + 1, toks)
    else if toks == [] then pos == |doc|
    else
      && toks[0] != ""
      && Matches(doc, pos, toks[0])
      && Layout(doc, pos + |toks[0]|, toks[1..])
  }

  // The next token may stand right after a value.
  predicate Closes(rest: seq<string>) {
    rest == [] || rest[0] == "," || rest[0] == "]" || rest[0] == "}"
  }

  // Where the first token of a layout stands, and what follows it.
  lemma {:induction false} FirstToken(doc: string, pos: nat, t: string, rest: seq<string>)
    requires pos <= |doc| && Layout(doc, pos, [t] + rest)
    ensures
      var start := SkipSpaces(doc, pos);
      && start < |doc| && t != "" && Matches(doc, start, t) && !IsSpace(doc[start])
      && Layout(doc, start, [t] + rest)
      && Layout(doc, start + |t|, rest)
      && doc[start] == t[0]
    decreases |doc| - pos
  {
    if pos < |doc| && IsSpace(doc[pos]) {
      FirstToken(doc, pos + 1, t, rest);
    } else {
      assert ([t] + rest)[1..] == rest;
      assert doc[pos..pos + |t|][0] == t[0];
    }
  }

  // Once a value is read, nothing that may follow extends a number.
  lemma {:induction false} NoNumberFollows(doc: string, pos: nat, rest: seq<string>)
    requires pos <= |doc| && Closes(rest) && Layout(doc, pos, rest)
    ensures pos == |doc| || !IsNumberChar(doc[pos])
  {
    if pos < |doc| && !IsSpace(doc[pos]) {
      assert doc[pos..pos + 1][0] == rest[0][0];
    }
  }

  lemma {:induction false} ScanNumberStops(doc: string, cur: nat, end: nat)
    requires cur <= end <= |doc|
    requires forall k :: cur <= k < end ==> IsNumberChar(doc[k])
    requires end == |doc| || !IsNumberChar(doc[end])
    ensures ScanNumber(doc, cur) == end
    decreases end - cur
  {
    if cur < end { ScanNumberStops(doc, cur + 1, end); }
  }

  // --------------------------------------------------------- single tokens

  function PunctuationKind(t: string): TokenType {
    if t == "{" then ObjectBegin
    else if t == "}" then ObjectEnd
    else if t == "[" then ArrayBegin
    else if t == "]" then ArrayEnd
    else if t == "," then ArraySeparator
    else if t == ":" then MemberSeparator
    else if t == "true" then TrueToken
    else if t == "false" then FalseToken
    else if t == "null" then NullToken
    else ErrorToken
  }

  // TokenAt on each kind of text that the writers produce.
  lemma FixedTokenAt(doc: string, start: nat, t: string)
    requires start < |doc| && Matches(doc, start, t) && PunctuationKind(t) != ErrorToken
    ensures TokenAt(doc, start) == Token(PunctuationKind(t), start, start + |t|)
  {
    hide ScanString, ScanComment, ScanNumber;
    var end := start + |t|;
    assert doc[start..end][0] == doc[start];
    assert doc[start + 1..end] == doc[start..end][1..];
    assert "true"[1..] == "rue" && "false"[1..] == "alse" && "null"[1..] == "ull";
  }

  lemma NumberTokenAt(doc: string, start: nat, end: nat)
    requires start < end <= |doc| && (IsDigit(doc[start]) || doc[start] == '-')
    requires ScanNumber(doc, start + 1) == end
    ensures TokenAt(doc, start) == Token(NumberToken, start, end)
  {
    hide ScanString, ScanComment, ScanNumber, Matches;
  }

  lemma StringTokenAt(doc: string, start: nat, end: nat)
    requires start < |doc| && doc[start] == '"'
    requires ScanString(doc, start + 1) == (end, true)
    ensures TokenAt(doc, start) == Token(StringToken, start, end)
  {
    hide ScanString, ScanComment, ScanNumber, Matches;
  }

  // The token that stands at the next byte that is not white space.
  lemma TokenStarts(doc: string, pos: nat)
    requires pos <= |doc| && SkipSpaces(doc, pos) < |doc|
    ensures ReadToken(doc, pos) == TokenAt(doc, SkipSpaces(doc, pos))
    ensures ReadToken(doc, pos).kind != CommentToken ==> NextToken(doc, pos) == ReadToken(doc, pos)
  {
    hide TokenAt;
  }

  // Punctuation and literal names are read as their kind; NextToken sees no comment.
  lemma FixedTokenReads(doc: string, pos: nat, t: string, rest: seq<string>)
    requires pos <= |doc| && Layout(doc, pos, [t] + rest)
    requires PunctuationKind(t) != ErrorToken
    ensures
      var tok := ReadToken(doc, pos);
      tok.kind == PunctuationKind(t) && NextToken(doc, pos) == tok && Layout(doc, tok.end, rest)
  {
    hide TokenAt, ReadToken, NextToken, SkipSpaces;
    FirstToken(doc, pos, t, rest);
    FixedTokenAt(doc, SkipSpaces(doc, pos), t);
    TokenStarts(doc, pos);
  }

  lemma NumberTokenReads(doc: string, pos: nat, n: int, rest: seq<string>)
    requires pos <= |doc| && Layout(doc, pos, [IntegerText(n)] + rest) && Closes(rest)
    ensures
      var tok := ReadToken(doc, pos);
      && tok.kind == NumberToken && NextToken(doc, pos) == tok && Layout(doc, tok.end, rest)
      && tok.start <= tok.end <= |doc| && doc[tok.start..tok.end] == IntegerText(n)
  {
    hide TokenAt, ReadToken, NextToken, SkipSpaces;
    var t := IntegerText(n);
    FirstToken(doc, pos, t, rest);
    var start := SkipSpaces(doc, pos);
    var end := start + |t|;
    IntegerTextShape(n);
    hide IntegerText;
    NoNumberFollows(doc, end, rest);
    forall k | start <= k < end
      ensures doc[k] == t[k - start] && IsNumberChar(doc[k])
    {
      assert doc[start..end][k - start] == doc[k];
    }
    ScanNumberStops(doc, start + 1, end);
    NumberTokenAt(doc, start, end);
    TokenStarts(doc, pos);
  }

  lemma StringTokenReads(doc: string, pos: nat, s: string, rest: seq<string>)
    requires pos <= |doc| && NulFree(s) && Layout(doc, pos, [Quote(s)] + rest)
    ensures
      var tok := ReadToken(doc, pos);
      && tok.kind == StringToken && NextToken(doc, pos) == tok && Layout(doc, tok.end, rest)
      && DecodeBody(doc, tok.start + 1, tok.end - 1) == Ok(s)
  {
    hide TokenAt, ReadToken, NextToken, SkipSpaces, DecodeBody, ScanString, EscapeAll, NulFree;
    FirstToken(doc, pos, Quote(s), rest);
    var start := SkipSpaces(doc, pos);
    var end := start + |Quote(s)|;
    QuotedStringReads(doc, start, start + 1, end - 1, s);
    StringTokenAt(doc, start, end);
    TokenStarts(doc, pos);
  }

  // ------------------------------------------------------------------- maps

  predicate AllBelow(e: Entries, k: Key) {
    e.Entry? ==> KeyLess(e.key, k) && AllBelow(e.rest, k)
  }

  function Append(a: Entries, b: Entries): Entries {
    if a.End? then b else Entry(a.key, a.value, Append(a.rest, b))
  }

  // A key above all others goes last.
  lemma {:induction false} PutLast(e: Entries, k: Key, v: Value)
    requires AllBelow(e, k)
    ensures Put(e, k, v) == Append(e, Entry(k, v, End))
    ensures Lookup(e, k) == Null
    decreases e
  {
    if e.Entry? {
      if e.key == k { JsonOrder.KeyTrichotomy(k, k); }
      PutLast(e.rest, k, v);
    }
  }

  lemma {:induction false} BelowNext(e: Entries, k: Key, v: Value, next: Key)
    requires AllBelow(e, k) && KeyLess(k, next)
    ensures AllBelow(Append(e, Entry(k, v, End)), next)
    decreases e
  {
    if e.Entry? {
      JsonOrder.KeyTransitive(e.key, k, next);
      BelowNext(e.rest, k, v, next);
    }
  }

  lemma {:induction false} AppendAssoc(a: Entries, k: Key, v: Value, b: Entries)
    ensures Append(Append(a, Entry(k, v, End)), b) == Append(a, Entry(k, v, b))
    decreases a
  {
    if a.Entry? { AppendAssoc(a.rest, k, v, b); }
  }

  // ---------------------------------------------------------------- reading

  // A value starts with a token that does not close an array.
  lemma ValueStarts(v: Value)
    requires Printable(v)
    ensures Tokens(v) != [] && Tokens(v)[0] != "" && Tokens(v)[0][0] != ']'
  {
    match v {
      case Int(i) => IntegerTextShape(i);
      case UInt(u) => IntegerTextShape(u);
      case _ =>
    }
  }

  lemma ItemsStart(e: Entries, k: nat)
    requires e.Entry? && PrintableEntries(e)
    ensures ItemTokens(e, k) != [] && ItemTokens(e, k)[0] != "" && ItemTokens(e, k)[0][0] != ']'
  {
    ValueStarts(e.value);
  }

  lemma LiteralReads(src: Source, pos: nat, cur: Value, v: Value, rest: seq<string>)
    requires v.Null? || v.Bool?
    requires pos <= |src.doc| && Layout(src.doc, pos, Tokens(v) + rest)
    ensures
      var r := src.ReadValue(pos, cur);
      r.ok && r.value == v && Layout(src.doc, r.pos, rest)
  {
    hide TokenAt, ReadToken, NextToken, Layout;
    FixedTokenReads(src.doc, pos, Tokens(v)[0], rest);
  }

  lemma NumberReads(src: Source, pos: nat, cur: Value, n: int, rest: seq<string>)
    requires InRange(n) && Closes(rest)
    requires pos <= |src.doc| && Layout(src.doc, pos, [IntegerText(n)] + rest)
    ensures
      var r := src.ReadValue(pos, cur);
      r.ok && r.value == Canonical(n) && Layout(src.doc, r.pos, rest)
  {
    hide TokenAt, ReadToken, NextToken, Layout, IntegerText, Canonical, DecodeInteger;
    NumberTokenReads(src.doc, pos, n, rest);
    NumberRoundTrip(n);
  }

  lemma StringReads(src: Source, pos: nat, cur: Value, s: string, rest: seq<string>)
    requires NulFree(s)
    requires pos <= |src.doc| && Layout(src.doc, pos, [Quote(s)] + rest)
    ensures
      var r := src.ReadValue(pos, cur);
      r.ok && r.value == Str(Chars(s)) && Layout(src.doc, r.pos, rest)
  {
    hide TokenAt, ReadToken, NextToken, Layout, Quote, DecodeBody, NulFree, CStr;
    StringTokenReads(src.doc, pos, s, rest);
  }

  // However its tokens are spaced, a value is read back in canonical form.
  lemma {:induction false} ValueReads(src: Source, pos: nat, cur: Value, v: Value, rest: seq<string>)
    requires WellFormed(v) && Printable(v) && Closes(rest)
    requires pos <= |src.doc| && Layout(src.doc, pos, Tokens(v) + rest)
    ensures
      var r := src.ReadValue(pos, cur);
      r.ok && r.value == Canon(v) && Layout(src.doc, r.pos, rest)
    decreases v, 3
  {
    hide Layout, Quote, IntegerText, Canonical, Source.ReadValue, NulFree;
    match v {
      case Null => LiteralReads(src, pos, cur, v, rest);
      case Bool(b) => LiteralReads(src, pos, cur, v, rest);
      case Int(i) => NumberReads(src, pos, cur, i, rest);
      case UInt(u) => NumberReads(src, pos, cur, u, rest);
      case Str(Chars(s)) => StringReads(src, pos, cur, s, rest);
      case Array(items) => ArrayReads(src, pos, cur, items, rest);
      case Object(members) => ObjectReads(src, pos, cur, members, rest);
    }
  }

  lemma {:induction false} ArrayReads(src: Source, pos: nat, cur: Value, items: Entries, rest: seq<string>)
    requires WellFormed(Array(items)) && PrintableEntries(items) && Closes(rest)
    requires pos <= |src.doc| && Layout(src.doc, pos, Tokens(Array(items)) + rest)
    ensures
      var r := src.ReadValue(pos, cur);
      r.ok && r.value == Array(DenseItems(items, 0)) && Layout(src.doc, r.pos, rest)
    decreases Array(items), 2
  {
    hide TokenAt, ReadToken, NextToken, Layout, SkipSpaces, Matches, Source.ReadValue, Source.ReadItems;
    hide ItemTokens, Tokens, WellFormed, PrintableEntries, Closes;
    var doc := src.doc;
    var tail := ItemTokens(items, 0) + (["]"] + rest);
    ArrayTokens(items, rest);
    FixedTokenReads(doc, pos, "[", tail);
    Opens(src, pos, cur);
    IndexesOf(items);
    var start := SkipSpaces(doc, ReadToken(doc, pos).end);
    FirstToken(doc, ReadToken(doc, pos).end, tail[0], tail[1..]);
    if items.End? {
      FixedTokenReads(doc, start, "]", rest);
    } else {
      ItemsRead(src, start, items, 0, End, rest);
    }
  }

  // What readValue does when it meets an opening bracket or brace.
  lemma Opens(src: Source, pos: nat, cur: Value)
    requires pos <= |src.doc| && NextToken(src.doc, pos) == ReadToken(src.doc, pos)
    ensures var t := ReadToken(src.doc, pos);
            && (t.kind == ArrayBegin ==> src.ReadValue(pos, cur) == src.ReadArray(t.end))
            && (t.kind == ObjectBegin ==> src.ReadValue(pos, cur) == src.ReadMembers(t.end, End, ""))
  {
    hide ReadToken, NextToken, Source.ReadArray, Source.ReadMembers;
  }

  lemma IndexesOf(items: Entries)
    requires WellFormed(Array(items))
    ensures WellFormedEntries(items) && AllIndexes(items) && Ascending(items) && DenseItems(End, 0) == End
    ensures Append(End, DenseItems(items, 0)) == DenseItems(items, 0)
  {
  }

  lemma ArrayTokens(items: Entries, rest: seq<string>)
    requires PrintableEntries(items)
    ensures var tail := ItemTokens(items, 0) + (["]"] + rest);
            && Tokens(Array(items)) + rest == ["["] + tail && tail != [] && tail == [tail[0]] + tail[1..]
            && (items.End? ==> tail == ["]"] + rest)
            && (items.Entry? ==> tail[0] != "" && tail[0][0] != ']')
  {
    if items.Entry? { ItemsStart(items, 0); } else { assert [] + (["]"] + rest) == ["]"] + rest; }
    Enclosed(["["], ItemTokens(items, 0), ["]"], rest);
    hide PrintableEntries, ItemTokens;
  }

  // One turn of the element loop, on tokens that are already known.
  lemma ItemStep(src: Source, pos: nat, done: Entries, k: nat, r: Reading, t: Token)
    requires pos <= r.pos <= |src.doc|
    requires r == src.ReadValue(pos, Lookup(done, Index(k))) && r.ok
    requires t == NextToken(src.doc, r.pos) && (t.kind == ArraySeparator || t.kind == ArrayEnd)
    ensures
      var done' := Put(done, Index(k), r.value);
      src.ReadItems(pos, done, k) ==
      if t.kind == ArrayEnd then Reading(true, t.end, Array(done'), [])
      else src.ReadItems(t.end, done', k + 1)
  {
    hide NextToken, Source.ReadValue, Put, Lookup;
  }

  // The element at index k, the entries after it, and what follows its value.
  function ItemAt(e: Entries, k: nat): Value
    requires e.Entry?
  {
    if Gap(e, k) > 0 then Null else e.value
  }

  function LeftAfter(e: Entries, k: nat): Entries
    requires e.Entry?
  {
    if Gap(e, k) > 0 then e else e.rest
  }

  function AfterItem(e: Entries, k: nat, close: seq<string>): seq<string>
    requires e.Entry?
  {
    var left := LeftAfter(e, k);
    if left.End? then close else [","] + (ItemTokens(left, k + 1) + close)
  }

  lemma ItemTokensFrom(e: Entries, k: nat, close: seq<string>)
    requires e.Entry? && AllIndexes(e) && e.key.index >= k
    ensures ItemTokens(e, k) + close == Tokens(ItemAt(e, k)) + AfterItem(e, k, close)
    ensures DenseItems(e, k) == Entry(Index(k), Canon(ItemAt(e, k)), DenseItems(LeftAfter(e, k), k + 1))
  {
  }

  lemma LeftIs(e: Entries, k: nat)
    requires e.Entry? && AllIndexes(e) && Ascending(e) && e.key.index >= k
    requires WellFormedEntries(e) && PrintableEntries(e)
    ensures var left := LeftAfter(e, k);
            && AllIndexes(left) && Ascending(left) && WellFormedEntries(left) && PrintableEntries(left)
            && (left.Entry? ==> left.key.index >= k + 1)
            && (left == e.rest || (left == e && Gap(e, k + 1) < Gap(e, k)))
            && (Gap(e, k) == 0 ==> WellFormed(e.value) && Printable(e.value))
  {
    hide WellFormed, Printable;
  }

  // The value at index k, a null where there is none.
  lemma {:induction false} ItemReads(src: Source, pos: nat, cur: Value, e: Entries, k: nat, tail: seq<string>)
    requires e.Entry? && (Gap(e, k) == 0 ==> WellFormed(e.value) && Printable(e.value)) && Closes(tail)
    requires pos <= |src.doc| && Layout(src.doc, pos, Tokens(ItemAt(e, k)) + tail)
    ensures var r := src.ReadValue(pos, cur);
            r.ok && r.value == Canon(ItemAt(e, k)) && Layout(src.doc, r.pos, tail)
    decreases e, Gap(e, k), 0
  {
    hide Layout, Source.ReadValue, Tokens, Canon, WellFormed, Printable;
    if Gap(e, k) > 0 {
      LiteralReads(src, pos, cur, Null, tail);
      NullStays();
    } else {
      ValueReads(src, pos, cur, e.value, tail);
    }
  }

  lemma NullStays()
    ensures Canon(Null) == Null
  {
  }

  // The element loop, with the elements before index k already stored.
  lemma {:induction false} ItemsRead(src: Source, pos: nat, e: Entries, k: nat, done: Entries, rest: seq<string>)
    requires e.Entry? && AllIndexes(e) && Ascending(e) && e.key.index >= k
    requires WellFormedEntries(e) && PrintableEntries(e) && AllBelow(done, Index(k))
    requires pos <= |src.doc| && Layout(src.doc, pos, ItemTokens(e, k) + (["]"] + rest))
    ensures
      var r := src.ReadItems(pos, done, k);
      r.ok && r.value == Array(Append(done, DenseItems(e, k))) && Layout(src.doc, r.pos, rest)
    decreases e, Gap(e, k), 1
  {
    hide NextToken, ReadToken, Layout, Source.ReadValue, Source.ReadItems, Append, Put, Lookup, ItemTokens, DenseItems;
    hide KeyLess, Tokens, Canon, WellFormed, Printable, ItemAt, LeftAfter, Gap, Ascending, AllIndexes;
    var doc, close := src.doc, ["]"] + rest;
    var v, left, tail := ItemAt(e, k), LeftAfter(e, k), AfterItem(e, k, close);
    ItemTokensFrom(e, k, close);
    LeftIs(e, k);
    var cur := Lookup(done, Index(k));
    var r := src.ReadValue(pos, cur);
    ItemReads(src, pos, cur, e, k, tail);
    PutLast(done, Index(k), Canon(v));
    var t := NextToken(doc, r.pos);
    var done' := Append(done, Entry(Index(k), Canon(v), End));
    AppendAssoc(done, Index(k), Canon(v), DenseItems(left, k + 1));
    if left.End? {
      FixedTokenReads(doc, r.pos, "]", rest);
      ItemStep(src, pos, done, k, r, t);
      DenseEnd(k + 1);
    } else {
      FixedTokenReads(doc, r.pos, ",", ItemTokens(left, k + 1) + close);
      ItemStep(src, pos, done, k, r, t);
      BelowNext(done, Index(k), Canon(v), Index(k + 1));
      ItemsRead(src, t.end, left, k + 1, done', rest);
    }
  }

  lemma DenseEnd(k: nat)
    ensures DenseItems(End, k) == End && CanonMembers(End) == End
  {
  }

  lemma {:induction false} ObjectReads(src: Source, pos: nat, cur: Value, members: Entries, rest: seq<string>)
    requires WellFormed(Object(members)) && PrintableEntries(members) && Closes(rest)
    requires pos <= |src.doc| && Layout(src.doc, pos, Tokens(Object(members)) + rest)
    ensures
      var r := src.ReadValue(pos, cur);
      r.ok && r.value == Object(CanonMembers(members)) && Layout(src.doc, r.pos, rest)
    decreases Object(members), 2
  {
    hide TokenAt, ReadToken, NextToken, Layout, Source.ReadValue, MemberTokens, Tokens;
    hide WellFormed, PrintableEntries, Closes;
    var doc := src.doc;
    var tail := MemberTokens(members) + (["}"] + rest);
    ObjectTokens(members, rest);
    FixedTokenReads(doc, pos, "{", tail);
    Opens(src, pos, cur);
    NamesOf(members);
    var open := ReadToken(doc, pos);
    if members.End? {
      FixedTokenReads(doc, open.end, "}", rest);
    } else {
      hide Source.ReadMembers;
      MembersRead(src, open.end, members, End, "", rest);
    }
  }

  lemma NamesOf(members: Entries)
    requires WellFormed(Object(members))
    ensures WellFormedEntries(members) && AllNames(members) && Ascending(members) && CanonMembers(End) == End
    ensures Append(End, CanonMembers(members)) == CanonMembers(members)
  {
  }

  lemma ObjectTokens(members: Entries, rest: seq<string>)
    ensures var tail := MemberTokens(members) + (["}"] + rest);
            && Tokens(Object(members)) + rest == ["{"] + tail
            && (members.End? ==> tail == ["}"] + rest)
  {
    if members.End? { assert [] + (["}"] + rest) == ["}"] + rest; }
    Enclosed(["{"], MemberTokens(members), ["}"], rest);
    hide MemberTokens;
  }

  lemma Enclosed<T>(open: seq<T>, inner: seq<T>, close: seq<T>, rest: seq<T>)
    ensures (open + inner + close) + rest == open + (inner + (close + rest))
  {
  }

  // One turn of the member loop, on tokens that are already known.
  lemma MemberStep(src: Source, pos: nat, done: Entries, last: string, name: string,
                   t: Token, colon: Token, r: Reading, comma: Token)
    requires pos <= |src.doc| && t == NextToken(src.doc, pos) && t.kind == StringToken
    requires src.DecodeString(t) == Ok(name) && NulFree(name)
    requires colon == ReadToken(src.doc, t.end) && colon.kind == MemberSeparator
    requires r == src.ReadValue(colon.end, Lookup(done, Name(name))) && r.ok
    requires comma == ReadToken(src.doc, r.pos) && (comma.kind == ArraySeparator || comma.kind == ObjectEnd)
    ensures
      var done' := Put(done, Name(name), r.value);
      src.ReadMembers(pos, done, last) ==
      if comma.kind == ObjectEnd then Reading(true, comma.end, Object(done'), [])
      else src.ReadMembers(comma.end, done', name)
  {
    hide NextToken, ReadToken, Source.ReadValue, Source.DecodeString, Put, Lookup, NulFree, CStr, SkipUntil;
  }

  // What follows the value of the first member.
  function AfterMember(e: Entries, close: seq<string>): seq<string>
    requires e.Entry?
  {
    if e.rest.End? then close else [","] + (MemberTokens(e.rest) + close)
  }

  lemma FirstMember(e: Entries)
    requires e.Entry? && AllNames(e) && Ascending(e) && WellFormedEntries(e) && PrintableEntries(e)
    ensures e.key.Name? && NulFree(e.key.cstr) && WellFormed(e.value) && Printable(e.value)
    ensures AllNames(e.rest) && Ascending(e.rest) && WellFormedEntries(e.rest) && PrintableEntries(e.rest)
    ensures e.rest.Entry? ==> KeyLess(e.key, e.rest.key)
  {
    hide NulFree, WellFormed, Printable, KeyLess;
  }

  lemma MemberTokensFrom(e: Entries, close: seq<string>)
    requires e.Entry? && AllNames(e)
    ensures MemberTokens(e) + close == [Quote(e.key.cstr)] + ([":"] + (Tokens(e.value) + AfterMember(e, close)))
    ensures CanonMembers(e) == Entry(e.key, Canon(e.value), CanonMembers(e.rest))
  {
    hide Tokens, Quote, Canon;
    var more := if e.rest.End? then [] else [","] + MemberTokens(e.rest);
    assert more + close == AfterMember(e, close);
    Regrouped(Quote(e.key.cstr), ":", Tokens(e.value), more, close);
  }

  lemma Regrouped(name: string, colon: string, value: seq<string>, more: seq<string>, close: seq<string>)
    ensures ([name, colon] + value + more) + close == [name] + ([colon] + (value + (more + close)))
  {
  }

  // The member loop, with the members of smaller name already stored.
  lemma {:induction false} MembersRead(src: Source, pos: nat, e: Entries, done: Entries, last: string,
      rest: seq<string>)
    requires e.Entry? && AllNames(e) && Ascending(e)
    requires WellFormedEntries(e) && PrintableEntries(e) && AllBelow(done, e.key)
    requires pos <= |src.doc| && Layout(src.doc, pos, MemberTokens(e) + (["}"] + rest))
    ensures
      var r := src.ReadMembers(pos, done, last);
      r.ok && r.value == Object(Append(done, CanonMembers(e))) && Layout(src.doc, r.pos, rest)
    decreases e, 1
  {
    hide NextToken, ReadToken, Layout, Source.ReadValue, Source.ReadMembers, Append, Put, Lookup;
    hide NulFree, Quote, DecodeBody, KeyLess, Tokens, Canon, WellFormed, Printable, MemberTokens, CanonMembers;
    hide AllNames, Ascending, AllBelow, WellFormedEntries, PrintableEntries;
    FirstMember(e);
    var doc, close, name := src.doc, ["}"] + rest, e.key.cstr;
    var tail := AfterMember(e, close);
    MemberTokensFrom(e, close);
    StringTokenReads(doc, pos, name, [":"] + (Tokens(e.value) + tail));
    var t := NextToken(doc, pos);
    FixedTokenReads(doc, t.end, ":", Tokens(e.value) + tail);
    var colon := ReadToken(doc, t.end);
    ValueReads(src, colon.end, Lookup(done, e.key), e.value, tail);
    var r := src.ReadValue(colon.end, Lookup(done, e.key));
    PutLast(done, e.key, Canon(e.value));
    var comma := ReadToken(doc, r.pos);
    var done' := Append(done, Entry(e.key, Canon(e.value), End));
    AppendAssoc(done, e.key, Canon(e.value), CanonMembers(e.rest));
    if e.rest.End? {
      FixedTokenReads(doc, r.pos, "}", rest);
      MemberStep(src, pos, done, last, name, t, colon, r, comma);
      DenseEnd(0);
    } else {
      FixedTokenReads(doc, r.pos, ",", MemberTokens(e.rest) + close);
      MemberStep(src, pos, done, last, name, t, colon, r, comma);
      BelowNext(done, e.key, Canon(e.value), e.rest.key);
      MembersRead(src, comma.end, e.rest, done', name, rest);
    }
  }

  // The whole document: any layout of a value's tokens parses to its canonical form, and
  // parsing succeeds unless a strict reader is given a scalar.
  lemma LayoutParses(src: Source, root: Value, v: Value)
    requires WellFormed(v) && Printable(v) && Layout(src.doc, 0, Tokens(v))
    ensures
      var r := src.Parse(root);
      && r.value == Canon(v)
      && (r.ok <==> !src.features.strictRoot || IsArray(v) || IsObject(v))
  {
    hide Layout, Source.ReadValue, NextToken, ReadToken;
    assert Tokens(v) + [] == Tokens(v);
    ValueReads(src, 0, root, v, []);
  }
}
