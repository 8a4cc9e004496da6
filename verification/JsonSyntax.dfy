// Which texts Json::Reader accepts, said apart from how it reads them: trees of tokens with
// the value each of them denotes. Reading succeeds exactly on the tokens of such a tree.

module JsonSyntax {
  import opened Common
  import opened JsonValue
  import opened JsonText
  import opened JsonNumber
  import opened JsonLexer
  import opened JsonGrammar
  import opened JsonWords
  import JsonLayout
  import JsonReader
  import JsonStrings

  // A value: the comments in front of it, then the tokens that spell it.
  datatype Tree = Tree(comments: seq<Token>, body: Body)

  datatype Body =
    | Scalar(token: Token)
    | EmptyList(open: Token, close: Token)
    | List(open: Token, items: Items)
    | Dict(open: Token, members: Members)

  datatype Items =
    | LastItem(value: Tree, after: seq<Token>, close: Token)
    | MoreItems(value: Tree, after: seq<Token>, comma: Token, rest: Items)

  datatype Pair = Pair(before: seq<Token>, name: Token, colon: Token, value: Tree, after: seq<Token>)

  datatype Members =
    | NoMember(before: seq<Token>, close: Token)
    | LastMember(pair: Pair, close: Token)
    | MoreMembers(pair: Pair, comma: Token, rest: Members)

  // ----------------------------------------------------------------- tokens

  function TreeTokens(t: Tree): seq<Token> {
    t.comments + BodyTokens(t.body)
  }

  function BodyTokens(b: Body): seq<Token> {
    match b
    case Scalar(token) => [token]
    case EmptyList(open, close) => [open] + [close]
    case List(open, items) => [open] + ItemTokens(items)
    case Dict(open, members) => [open] + MemberTokens(members)
  }

  function ItemTokens(items: Items): seq<Token> {
    match items
    case LastItem(value, after, close) => TreeTokens(value) + (after + [close])
    case MoreItems(value, after, comma, rest) => TreeTokens(value) + (after + ([comma] + ItemTokens(rest)))
  }

  function PairTokens(p: Pair): seq<Token> {
    p.before + ([p.name] + ([p.colon] + (TreeTokens(p.value) + p.after)))
  }

  function MemberTokens(members: Members): seq<Token> {
    match members
    case NoMember(before, close) => before + [close]
    case LastMember(pair, close) => PairTokens(pair) + [close]
    case MoreMembers(pair, comma, rest) => PairTokens(pair) + ([comma] + MemberTokens(rest))
  }

  // The tokens of the document from `pos` to `end`.
  predicate Span(doc: string, pos: nat, ts: seq<Token>, end: nat)
    requires pos <= |doc|
    decreases |ts|
  {
    if ts == [] then pos == end else ts[0] == ReadToken(doc, pos) && Span(doc, ts[0].end, ts[1..], end)
  }

  // ----------------------------------------------------------------- syntax

  predicate AllComments(ts: seq<Token>) {
    forall i :: 0 <= i < |ts| ==> ts[i].kind == CommentToken
  }

  predicate InDoc(src: Source, t: Token) {
    t.start <= t.end <= |src.doc| && (t.kind == StringToken ==> t.start + 2 <= t.end)
  }

  // What a token says that is a whole value.
  function ScalarValue(src: Source, t: Token): Option<Value> {
    if !InDoc(src, t) then None
    else
      match t.kind
      case NumberToken => (match src.DecodeNumber(t) case Ok(v) => Some(v) case Fail(_, _) => None)
      case StringToken => (match src.DecodeString(t) case Ok(s) => Some(Str(Chars(CStr(s)))) case Fail(_, _) => None)
      case TrueToken => Some(Bool(true))
      case FalseToken => Some(Bool(false))
      case NullToken => Some(Null)
      case _ => None
  }

  predicate IsName(src: Source, t: Token) {
    InDoc(src, t) && t.kind == StringToken && src.DecodeString(t).Ok?
  }

  // A member name, before its truncation at a NUL.
  function NameText(src: Source, t: Token): string {
    if IsName(src, t) then src.DecodeString(t).value else ""
  }

  // Comments may stand before a value where they are allowed, and before a name, a comma
  // and a closing bracket anywhere; never between a name and its colon.
  predicate Proper(src: Source, t: Tree) {
    AllComments(t.comments) && (t.comments != [] ==> src.features.allowComments) && ProperBody(src, t.body)
  }

  // The brackets of an empty array stand together.
  predicate ProperBody(src: Source, b: Body) {
    match b
    case Scalar(token) => ScalarValue(src, token).Some?
    case EmptyList(open, close) => open.kind == ArrayBegin && close.kind == ArrayEnd
    case List(open, items) => open.kind == ArrayBegin && ProperItems(src, items)
    case Dict(open, members) => open.kind == ObjectBegin && ProperMembers(src, members, "")
  }

  predicate ProperItems(src: Source, items: Items) {
    match items
    case LastItem(value, after, close) => Proper(src, value) && AllComments(after) && close.kind == ArrayEnd
    case MoreItems(value, after, comma, rest) =>
      Proper(src, value) && AllComments(after) && comma.kind == ArraySeparator && ProperItems(src, rest)
  }

  predicate ProperPair(src: Source, p: Pair) {
    && AllComments(p.before) && IsName(src, p.name) && p.colon.kind == MemberSeparator
    && Proper(src, p.value) && AllComments(p.after)
  }

  // Members are separated by a comma; but after a comment any token separates them that is
  // not the closing brace.
  predicate Separates(after: seq<Token>, t: Token) {
    t.kind == ArraySeparator || (after != [] && t.kind != ObjectEnd && t.kind != CommentToken)
  }

  // `last` is the name of the member before; the brace may close an empty object, but also
  // one that has a separator after a member with the empty name.
  predicate ProperMembers(src: Source, members: Members, last: string) {
    match members
    case NoMember(before, close) => last == "" && AllComments(before) && close.kind == ObjectEnd
    case LastMember(pair, close) => ProperPair(src, pair) && close.kind == ObjectEnd
    case MoreMembers(pair, comma, rest) =>
      && ProperPair(src, pair) && Separates(pair.after, comma)
      && ProperMembers(src, rest, NameText(src, pair.name))
  }

  // ---------------------------------------------------------------- meaning

  function ValueOf(src: Source, t: Tree): Value {
    match t.body
    case Scalar(token) => (match ScalarValue(src, token) case Some(v) => v case None => Null)
    case EmptyList(_, _) => Array(End)
    case List(_, items) => Array(Elements(src, items, 0))
    case Dict(_, members) => Object(Collected(src, members, End))
  }

  // The elements, numbered from k on.
  function Elements(src: Source, items: Items, k: nat): Entries {
    match items
    case LastItem(value, _, _) => Entry(Index(k), ValueOf(src, value), End)
    case MoreItems(value, _, _, rest) => Entry(Index(k), ValueOf(src, value), Elements(src, rest, k + 1))
  }

  // The members put into a map one after the other, so that the last of a name stays.
  function Collected(src: Source, members: Members, done: Entries): Entries {
    match members
    case NoMember(_, _) => done
    case LastMember(pair, _) => Added(src, pair, done)
    case MoreMembers(pair, _, rest) => Collected(src, rest, Added(src, pair, done))
  }

  function Added(src: Source, p: Pair, done: Entries): Entries {
    Put(done, Name(CStr(NameText(src, p.name))), ValueOf(src, p.value))
  }

  // What a number token says: its value where it is an integer in range, and what the
  // text-to-double conversion makes of its text where it is no integer.
  lemma NumberTokenIs(src: Source, t: Token)
    requires InDoc(src, t) && t.kind == NumberToken && NumberWord(src.doc[t.start..t.end])
    ensures var text := src.doc[t.start..t.end];
            if !IsIntegerText(text) then
              ScalarValue(src, t) == match src.scan(text) case Some(d) => Some(Real(d)) case None => None
            else InRange(Meaning(text)) ==> ScalarValue(src, t) == Some(Canonical(Meaning(text)))
  {
    var text := src.doc[t.start..t.end];
    NumberWordIs(text);
    if IsIntegerText(text) { DecodeFaithfulIffGuardHolds(text); }
    hide DecodeInteger, IsIntegerText, NumberWord, Canonical, InRange, Meaning;
  }

  // ------------------------------------------------------------------ spans

  lemma {:induction false} Joined(doc: string, a: nat, ts: seq<Token>, b: nat, us: seq<Token>, c: nat)
    requires a <= |doc| && b <= |doc| && Span(doc, a, ts, b) && Span(doc, b, us, c)
    ensures Span(doc, a, ts + us, c)
    decreases |ts|
  {
    hide ReadToken;
    if ts == [] {
      assert ts + us == us;
    } else {
      Joined(doc, ts[0].end, ts[1..], b, us, c);
      assert (ts + us)[1..] == ts[1..] + us;
    }
  }

  lemma {:induction false} Cut(doc: string, a: nat, ts: seq<Token>, us: seq<Token>, c: nat) returns (b: nat)
    requires a <= |doc| && Span(doc, a, ts + us, c)
    ensures a <= b <= |doc| && Span(doc, a, ts, b) && Span(doc, b, us, c)
    decreases |ts|
  {
    if ts == [] {
      assert ts + us == us;
      b := a;
    } else {
      assert (ts + us)[1..] == ts[1..] + us;
      b := Cut(doc, ts[0].end, ts[1..], us, c);
    }
  }

  lemma One(doc: string, a: nat, t: Token, c: nat)
    requires a <= |doc|
    ensures Span(doc, a, [t], c) <==> t == ReadToken(doc, a) && c == t.end
  {
    hide ReadToken;
  }

  // The comments up to the next token that is none.
  lemma {:induction false} CommentsBefore(doc: string, pos: nat) returns (cs: seq<Token>, b: nat)
    requires pos <= |doc|
    ensures b <= |doc| && AllComments(cs) && Span(doc, pos, cs, b)
    ensures NextToken(doc, pos) == ReadToken(doc, b)
    decreases |doc| - pos
  {
    hide ReadToken;
    var t := ReadToken(doc, pos);
    if t.kind == CommentToken {
      var more;
      more, b := CommentsBefore(doc, t.end);
      cs := [t] + more;
      assert cs[1..] == more;
    } else {
      cs, b := [], pos;
    }
  }

  lemma {:induction false} CommentsSkipped(doc: string, pos: nat, cs: seq<Token>, b: nat)
    requires pos <= |doc| && b <= |doc| && AllComments(cs) && Span(doc, pos, cs, b)
    ensures NextToken(doc, pos) == NextToken(doc, b)
    ensures cs != [] ==> ReadToken(doc, pos).kind == CommentToken
    ensures cs != [] ==> NextToken(doc, ReadToken(doc, pos).end) == NextToken(doc, b)
    decreases |cs|
  {
    hide ReadToken;
    if cs != [] { CommentsSkipped(doc, cs[0].end, cs[1..], b); }
  }

  // -------------------------------------------------------------- soundness

  // The tree is proper and its tokens are those of the document from `pos` to `end`.
  ghost predicate Spells(src: Source, pos: nat, t: Tree, end: nat) {
    pos <= |src.doc| && Proper(src, t) && Span(src.doc, pos, TreeTokens(t), end)
  }

  ghost predicate SpellsItems(src: Source, pos: nat, items: Items, end: nat) {
    pos <= |src.doc| && ProperItems(src, items) && Span(src.doc, pos, ItemTokens(items), end)
  }

  ghost predicate SpellsMembers(src: Source, pos: nat, members: Members, last: string, end: nat) {
    pos <= |src.doc| && ProperMembers(src, members, last) && Span(src.doc, pos, MemberTokens(members), end)
  }

  // The comments in front of a value, which readValue skips where they are allowed.
  lemma ValueComments(src: Source, pos: nat) returns (cs: seq<Token>, b: nat)
    requires pos <= |src.doc|
    ensures b <= |src.doc| && AllComments(cs) && (cs != [] ==> src.features.allowComments)
    ensures Span(src.doc, pos, cs, b) && src.SkipCommentTokens(pos) == ReadToken(src.doc, b)
  {
    hide ReadToken, NextToken;
    cs, b := [], pos;
    if src.features.allowComments { cs, b := CommentsBefore(src.doc, pos); }
  }

  lemma ScalarReads(src: Source, pos: nat, cur: Value, t: Token)
    requires pos <= |src.doc| && t == src.SkipCommentTokens(pos)
    requires t.kind != ObjectBegin && t.kind != ArrayBegin
    ensures var r := src.ReadValue(pos, cur);
            match ScalarValue(src, t)
            case Some(v) => r == Reading(true, t.end, v, [])
            case None => !r.ok
  {
    hide ReadToken, NextToken, Source.DecodeNumber, Source.DecodeString, CStr, Source.ReadArray, Source.ReadMembers;
  }

  lemma BracketReads(src: Source, pos: nat, cur: Value, t: Token)
    requires pos <= |src.doc| && t == src.SkipCommentTokens(pos)
    ensures t.kind == ObjectBegin ==> src.ReadValue(pos, cur) == src.ReadMembers(t.end, End, "")
    ensures t.kind == ArrayBegin ==> src.ReadValue(pos, cur) == src.ReadArray(t.end)
  {
    hide ReadToken, NextToken, Source.ReadArray, Source.ReadMembers;
  }

  // A closing bracket right after the opening one, and nothing else, makes an empty array.
  lemma ArrayReads(src: Source, pos: nat)
    requires pos <= |src.doc|
    ensures var t := ReadToken(src.doc, pos);
            if t.kind == ArrayEnd then src.ReadArray(pos) == Reading(true, t.end, Array(End), [])
            else src.ReadArray(pos) == src.ReadItems(SkipSpaces(src.doc, pos), End, 0)
  {
    SpacesOnce(src.doc, pos);
    hide ScanString, ScanComment, ScanNumber, Source.ReadItems, SkipSpaces;
  }

  lemma {:induction false} SpacesOnce(doc: string, pos: nat)
    requires pos <= |doc|
    ensures SkipSpaces(doc, SkipSpaces(doc, pos)) == SkipSpaces(doc, pos)
    ensures ReadToken(doc, SkipSpaces(doc, pos)) == ReadToken(doc, pos)
    decreases |doc| - pos
  {
    hide TokenAt;
    if pos < |doc| && IsSpace(doc[pos]) { SpacesOnce(doc, pos + 1); }
  }

  // Where a span starts does not depend on the white space in front of it.
  lemma SpanFromSpaces(doc: string, pos: nat, ts: seq<Token>, end: nat)
    requires pos <= |doc| && ts != []
    ensures Span(doc, SkipSpaces(doc, pos), ts, end) <==> Span(doc, pos, ts, end)
  {
    SpacesOnce(doc, pos);
    hide ReadToken, SkipSpaces;
  }

  // Every value that is read is spelled by the tokens that were read, and it is the value
  // which they denote.
  lemma {:induction false} ValueIsSpelled(src: Source, pos: nat, cur: Value) returns (t: Tree)
    requires pos <= |src.doc| && src.ReadValue(pos, cur).ok
    ensures var r := src.ReadValue(pos, cur);
            Spells(src, pos, t, r.pos) && r.value == ValueOf(src, t)
    decreases |src.doc| - pos, 0
  {
    hide ReadToken, NextToken, Source.ReadValue, Source.ReadArray, Source.ReadMembers, Source.SkipCommentTokens;
    hide ScalarValue, SkipSpaces;
    var doc, r := src.doc, src.ReadValue(pos, cur);
    var cs, b := ValueComments(src, pos);
    var open := ReadToken(doc, b);
    One(doc, b, open, open.end);
    var body;
    if open.kind == ObjectBegin {
      BracketReads(src, pos, cur, open);
      var members := MembersAreSpelled(src, open.end, End, "");
      body := Dict(open, members);
      Joined(doc, b, [open], open.end, MemberTokens(members), r.pos);
    } else if open.kind == ArrayBegin {
      BracketReads(src, pos, cur, open);
      ArrayReads(src, open.end);
      var close := ReadToken(doc, open.end);
      if close.kind == ArrayEnd {
        body := EmptyList(open, close);
        One(doc, open.end, close, close.end);
        Joined(doc, b, [open], open.end, [close], close.end);
      } else {
        var start := SkipSpaces(doc, open.end);
        var items := ItemsAreSpelled(src, start, End, 0);
        body := List(open, items);
        ItemsNotEmpty(items);
        SpanFromSpaces(doc, open.end, ItemTokens(items), r.pos);
        Joined(doc, b, [open], open.end, ItemTokens(items), r.pos);
      }
    } else {
      ScalarReads(src, pos, cur, open);
      body := Scalar(open);
    }
    t := Tree(cs, body);
    assert ProperBody(src, body);
    assert Proper(src, t);
    Joined(doc, pos, cs, b, BodyTokens(body), r.pos);
  }

  lemma ItemsNotEmpty(items: Items)
    ensures ItemTokens(items) != []
  {
    match items
    case LastItem(value, after, close) =>
      assert (TreeTokens(value) + (after + [close]))[|TreeTokens(value) + after|] == close;
    case MoreItems(value, after, comma, rest) =>
      assert (TreeTokens(value) + (after + ([comma] + ItemTokens(rest))))[|TreeTokens(value) + after|] == comma;
  }

  lemma {:induction false} ItemsAreSpelled(src: Source, pos: nat, done: Entries, k: nat) returns (items: Items)
    requires pos <= |src.doc| && src.ReadItems(pos, done, k).ok && JsonLayout.AllBelow(done, Index(k))
    ensures var r := src.ReadItems(pos, done, k);
            SpellsItems(src, pos, items, r.pos) && r.value == Array(JsonLayout.Append(done, Elements(src, items, k)))
    decreases |src.doc| - pos, 1
  {
    hide ReadToken, NextToken, SkipUntil, Source.ReadValue, Source.ReadItems, Put, Lookup, Proper, TreeTokens, KeyLess;
    var doc, whole := src.doc, src.ReadItems(pos, done, k);
    var r := src.ReadValue(pos, Lookup(done, Index(k)));
    var t := NextToken(doc, r.pos);
    JsonReader.ItemTurn(src, pos, done, k, r, t);
    var tree := ValueIsSpelled(src, pos, Lookup(done, Index(k)));
    var after, b := CommentsBefore(doc, r.pos);
    One(doc, b, t, t.end);
    JsonLayout.PutLast(done, Index(k), r.value);
    if t.kind == ArrayEnd {
      items := LastItem(tree, after, t);
      Joined(doc, r.pos, after, b, [t], t.end);
      Joined(doc, pos, TreeTokens(tree), r.pos, after + [t], t.end);
    } else {
      NextIndex(done, k, r.value);
      var rest := ItemsAreSpelled(src, t.end, JsonLayout.Append(done, Entry(Index(k), r.value, End)), k + 1);
      items := MoreItems(tree, after, t, rest);
      JsonLayout.AppendAssoc(done, Index(k), r.value, Elements(src, rest, k + 1));
      Joined(doc, b, [t], t.end, ItemTokens(rest), whole.pos);
      Joined(doc, r.pos, after, b, [t] + ItemTokens(rest), whole.pos);
      Joined(doc, pos, TreeTokens(tree), r.pos, after + ([t] + ItemTokens(rest)), whole.pos);
    }
  }

  lemma NextIndex(done: Entries, k: nat, v: Value)
    requires JsonLayout.AllBelow(done, Index(k))
    ensures JsonLayout.AllBelow(JsonLayout.Append(done, Entry(Index(k), v, End)), Index(k + 1))
  {
    JsonLayout.BelowNext(done, Index(k), v, Index(k + 1));
  }

  // The parts of a member one after the other.
  lemma PairSpan(doc: string, pos: nat, p: Pair, a: nat, b: nat, end: nat)
    requires pos <= |doc| && a <= |doc| && b <= |doc| && Span(doc, pos, p.before, a)
    requires p.name == ReadToken(doc, a) && p.colon == ReadToken(doc, p.name.end)
    requires Span(doc, p.colon.end, TreeTokens(p.value), b) && Span(doc, b, p.after, end)
    ensures Span(doc, pos, PairTokens(p), end)
  {
    hide ReadToken, TreeTokens;
    One(doc, a, p.name, p.name.end);
    One(doc, p.name.end, p.colon, p.colon.end);
    Joined(doc, p.colon.end, TreeTokens(p.value), b, p.after, end);
    Joined(doc, p.name.end, [p.colon], p.colon.end, TreeTokens(p.value) + p.after, end);
    Joined(doc, a, [p.name], p.name.end, [p.colon] + (TreeTokens(p.value) + p.after), end);
    Joined(doc, pos, p.before, a, [p.name] + ([p.colon] + (TreeTokens(p.value) + p.after)), end);
  }

  // The token that ends a member, and the comments before it.
  lemma AfterMember(doc: string, pos: nat) returns (after: seq<Token>, b: nat, next: Token)
    requires pos <= |doc|
    ensures b <= |doc| && AllComments(after) && Span(doc, pos, after, b) && next == ReadToken(doc, b)
    ensures next.kind != CommentToken && (after != [] <==> ReadToken(doc, pos).kind == CommentToken)
    ensures var comma := ReadToken(doc, pos);
            next == if comma.kind == CommentToken then NextToken(doc, comma.end) else comma
  {
    hide ReadToken;
    after, b := CommentsBefore(doc, pos);
    next := ReadToken(doc, b);
  }

  // What is known of a reading of members that succeeds with a first member.
  ghost predicate MemberFound(src: Source, pos: nat, done: Entries, last: string, t: Token, colon: Token, r: Reading)
    requires pos <= |src.doc|
  {
    && t == NextToken(src.doc, pos) && IsName(src, t)
    && colon == ReadToken(src.doc, t.end) && colon.kind == MemberSeparator
    && r == src.ReadValue(colon.end, Lookup(done, Name(CStr(NameText(src, t))))) && r.ok
  }

  lemma MemberIsFound(src: Source, pos: nat, done: Entries, last: string)
      returns (t: Token, colon: Token, r: Reading)
    requires pos <= |src.doc| && src.ReadMembers(pos, done, last).ok
    requires !(last == "" && NextToken(src.doc, pos).kind == ObjectEnd)
    ensures MemberFound(src, pos, done, last, t, colon, r)
  {
    hide ReadToken, NextToken, SkipUntil, Source.ReadValue, Source.ReadMembers, Source.DecodeString, CStr, Put, Lookup;
    t := NextToken(src.doc, pos);
    JsonReader.MembersEnd(src, pos, done, last, t);
    colon := ReadToken(src.doc, t.end);
    var name := src.DecodeString(t).value;
    r := src.ReadValue(colon.end, Lookup(done, Name(CStr(name))));
    JsonReader.MemberTurn(src, pos, done, last, t, name, colon, r, ReadToken(src.doc, r.pos));
  }

  // How the loop goes on after that member.
  lemma MemberGoesOn(src: Source, pos: nat, done: Entries, last: string, t: Token, colon: Token, r: Reading,
      after: seq<Token>, next: Token)
    requires pos <= |src.doc| && MemberFound(src, pos, done, last, t, colon, r)
    requires var comma := ReadToken(src.doc, r.pos);
             && next == (if comma.kind == CommentToken then NextToken(src.doc, comma.end) else comma)
             && (after != [] <==> comma.kind == CommentToken)
    ensures var done' := Put(done, Name(CStr(NameText(src, t))), r.value);
            var whole := src.ReadMembers(pos, done, last);
            if next.kind == ObjectEnd then whole == Reading(true, next.end, Object(done'), [])
            else if Separates(after, next) then whole == src.ReadMembers(next.end, done', NameText(src, t))
            else !whole.ok
  {
    hide ReadToken, NextToken, SkipUntil, Source.ReadValue, Source.ReadMembers, Source.DecodeString, CStr, Put, Lookup;
    JsonReader.MemberTurn(src, pos, done, last, t, NameText(src, t), colon, r, ReadToken(src.doc, r.pos));
  }

  lemma {:induction false} MembersAreSpelled(src: Source, pos: nat, done: Entries, last: string)
      returns (members: Members)
    requires pos <= |src.doc| && src.ReadMembers(pos, done, last).ok
    ensures var r := src.ReadMembers(pos, done, last);
            SpellsMembers(src, pos, members, last, r.pos) && r.value == Object(Collected(src, members, done))
    decreases |src.doc| - pos, 1
  {
    hide ReadToken, NextToken, Source.ReadValue, Source.ReadMembers, Put, Lookup, Proper, TreeTokens, CStr, NameText;
    hide PairTokens, IsName;
    var doc, whole := src.doc, src.ReadMembers(pos, done, last);
    var before, a := CommentsBefore(doc, pos);
    if last == "" && ReadToken(doc, a).kind == ObjectEnd {
      var close := ReadToken(doc, a);
      JsonReader.MembersEnd(src, pos, done, last, close);
      members := NoMember(before, close);
      One(doc, a, close, close.end);
      Joined(doc, pos, before, a, [close], close.end);
    } else {
      var t, colon, r := MemberIsFound(src, pos, done, last);
      var tree := ValueIsSpelled(src, colon.end, Lookup(done, Name(CStr(NameText(src, t)))));
      var after, b, next := AfterMember(doc, r.pos);
      MemberGoesOn(src, pos, done, last, t, colon, r, after, next);
      var pair := Pair(before, t, colon, tree, after);
      PairSpan(doc, pos, pair, a, r.pos, b);
      assert ProperPair(src, pair);
      One(doc, b, next, next.end);
      if next.kind == ObjectEnd {
        members := LastMember(pair, next);
        Joined(doc, pos, PairTokens(pair), b, [next], next.end);
        assert ProperMembers(src, members, last);
      } else {
        var rest := MembersAreSpelled(src, next.end, Added(src, pair, done), NameText(src, t));
        members := MoreMembers(pair, next, rest);
        Joined(doc, b, [next], next.end, MemberTokens(rest), whole.pos);
        Joined(doc, pos, PairTokens(pair), b, [next] + MemberTokens(rest), whole.pos);
        assert ProperMembers(src, members, last);
      }
    }
  }

  // ----------------------------------------------------------- completeness

  // Comments that stand before a value are skipped, and those are all.
  lemma CommentsAreSkipped(src: Source, pos: nat, cs: seq<Token>, b: nat)
    requires pos <= |src.doc| && b <= |src.doc| && Span(src.doc, pos, cs, b) && AllComments(cs)
    requires (cs != [] ==> src.features.allowComments) && ReadToken(src.doc, b).kind != CommentToken
    ensures src.SkipCommentTokens(pos) == ReadToken(src.doc, b)
  {
    hide ReadToken;
    CommentsSkipped(src.doc, pos, cs, b);
  }

  // The first token of a body is no comment.
  function FirstOf(b: Body): Token {
    match b
    case Scalar(token) => token
    case EmptyList(open, _) => open
    case List(open, _) => open
    case Dict(open, _) => open
  }

  lemma BodyStarts(src: Source, b: Body)
    requires ProperBody(src, b)
    ensures BodyTokens(b) != [] && BodyTokens(b)[0] == FirstOf(b) && FirstOf(b).kind != CommentToken
  {
  }

  lemma ScalarsAreNoBrackets(src: Source, t: Token)
    requires ScalarValue(src, t).Some?
    ensures t.kind != ObjectBegin && t.kind != ArrayBegin
  {
  }

  // The tokens of a tree are read as the value that they denote, on any node.
  lemma {:induction false} TreeIsRead(src: Source, pos: nat, cur: Value, t: Tree, end: nat)
    requires Spells(src, pos, t, end)
    ensures src.ReadValue(pos, cur) == Reading(true, end, ValueOf(src, t), [])
    decreases t
  {
    hide ReadToken, NextToken, Source.ReadValue, Source.ReadArray, Source.ReadMembers, Source.SkipCommentTokens;
    hide ScalarValue, SkipSpaces;
    var doc := src.doc;
    var b := Cut(doc, pos, t.comments, BodyTokens(t.body), end);
    BodyStarts(src, t.body);
    CommentsAreSkipped(src, pos, t.comments, b);
    match t.body {
      case Scalar(token) =>
        One(doc, b, token, end);
        ScalarsAreNoBrackets(src, token);
        ScalarReads(src, pos, cur, token);
      case EmptyList(open, close) =>
        var a := Cut(doc, b, [open], [close], end);
        One(doc, b, open, a);
        One(doc, a, close, end);
        BracketReads(src, pos, cur, open);
        ArrayReads(src, a);
      case List(open, items) =>
        var a := Cut(doc, b, [open], ItemTokens(items), end);
        One(doc, b, open, a);
        BracketReads(src, pos, cur, open);
        ItemsStart(src, a, items, end);
        ArrayReads(src, a);
        ItemsNotEmpty(items);
        SpanFromSpaces(doc, a, ItemTokens(items), end);
        ItemsAreRead(src, SkipSpaces(doc, a), End, 0, items, end);
      case Dict(open, members) =>
        var a := Cut(doc, b, [open], MemberTokens(members), end);
        One(doc, b, open, a);
        BracketReads(src, pos, cur, open);
        MembersAreRead(src, a, End, "", members, end);
    }
  }

  // An element does not start with a closing bracket.
  lemma ItemsStart(src: Source, pos: nat, items: Items, end: nat)
    requires SpellsItems(src, pos, items, end)
    ensures ReadToken(src.doc, pos).kind != ArrayEnd
  {
    hide ReadToken, Span, ScalarValue;
    var t := items.value;
    var more := ItemTokens(items)[|TreeTokens(t)|..];
    assert ItemTokens(items) == TreeTokens(t) + more;
    SpanFirst(src.doc, pos, ItemTokens(items), end);
    TreeStarts(src, t);
    assert ItemTokens(items)[0] == TreeTokens(t)[0];
  }

  // The first token of a span is the one at its start.
  lemma SpanFirst(doc: string, pos: nat, ts: seq<Token>, end: nat)
    requires pos <= |doc| && Span(doc, pos, ts, end)
    ensures ts != [] ==> ts[0] == ReadToken(doc, pos)
  {
    hide ReadToken;
  }

  lemma TreeStarts(src: Source, t: Tree)
    requires Proper(src, t)
    ensures TreeTokens(t) != [] && TreeTokens(t)[0].kind != ArrayEnd
  {
    BodyStarts(src, t.body);
    if t.comments == [] { assert TreeTokens(t)[0] == BodyTokens(t.body)[0]; }
  }

  lemma {:induction false} ItemsAreRead(src: Source, pos: nat, done: Entries, k: nat, items: Items, end: nat)
    requires SpellsItems(src, pos, items, end) && JsonLayout.AllBelow(done, Index(k))
    ensures src.ReadItems(pos, done, k) ==
            Reading(true, end, Array(JsonLayout.Append(done, Elements(src, items, k))), [])
    decreases items
  {
    hide ReadToken, NextToken, SkipUntil, Source.ReadValue, Source.ReadItems, Put, Lookup, Proper, TreeTokens, KeyLess;
    var doc := src.doc;
    var cur := Lookup(done, Index(k));
    var next, more := NextOf(items), RestOf(items);
    var a := Cut(doc, pos, TreeTokens(items.value), items.after + ([next] + more), end);
    TreeIsRead(src, pos, cur, items.value, a);
    var b := Cut(doc, a, items.after, [next] + more, end);
    var c := Cut(doc, b, [next], more, end);
    One(doc, b, next, c);
    CommentsSkipped(doc, a, items.after, b);
    NotAComment(doc, b);
    var v := ValueOf(src, items.value);
    JsonReader.ItemTurn(src, pos, done, k, src.ReadValue(pos, cur), next);
    JsonLayout.PutLast(done, Index(k), v);
    if items.MoreItems? {
      NextIndex(done, k, v);
      JsonLayout.AppendAssoc(done, Index(k), v, Elements(src, items.rest, k + 1));
      ItemsAreRead(src, c, JsonLayout.Append(done, Entry(Index(k), v, End)), k + 1, items.rest, end);
    }
  }

  lemma NotAComment(doc: string, pos: nat)
    requires pos <= |doc| && ReadToken(doc, pos).kind != CommentToken
    ensures NextToken(doc, pos) == ReadToken(doc, pos)
  {
    hide ReadToken;
  }

  function NextOf(items: Items): Token {
    if items.LastItem? then items.close else items.comma
  }

  function RestOf(items: Items): (ts: seq<Token>)
    ensures ItemTokens(items) == TreeTokens(items.value) + (items.after + ([NextOf(items)] + ts))
  {
    if items.LastItem? then [] else ItemTokens(items.rest)
  }

  // The tokens of a member from its name on, and those after it.
  lemma PairCut(doc: string, pos: nat, p: Pair, more: seq<Token>, end: nat) returns (a: nat, b: nat, c: nat)
    requires pos <= |doc| && Span(doc, pos, PairTokens(p) + more, end)
    ensures a <= |doc| && b <= |doc| && c <= |doc| && Span(doc, pos, p.before, a)
    ensures p.name == ReadToken(doc, a) && p.colon == ReadToken(doc, p.name.end)
    ensures Span(doc, p.colon.end, TreeTokens(p.value), b) && Span(doc, b, p.after, c) && Span(doc, c, more, end)
  {
    hide ReadToken, TreeTokens;
    c := Cut(doc, pos, PairTokens(p), more, end);
    var value := TreeTokens(p.value) + p.after;
    a := Cut(doc, pos, p.before, [p.name] + ([p.colon] + value), c);
    var d := Cut(doc, a, [p.name], [p.colon] + value, c);
    One(doc, a, p.name, d);
    var e := Cut(doc, d, [p.colon], value, c);
    One(doc, d, p.colon, e);
    b := Cut(doc, e, TreeTokens(p.value), p.after, c);
  }

  // The token after a member, read past the comments before it.
  lemma NextIsFound(doc: string, pos: nat, after: seq<Token>, b: nat)
    requires pos <= |doc| && b <= |doc| && AllComments(after) && Span(doc, pos, after, b)
    requires ReadToken(doc, b).kind != CommentToken
    ensures var comma := ReadToken(doc, pos);
            && ReadToken(doc, b) == (if comma.kind == CommentToken then NextToken(doc, comma.end) else comma)
            && (after != [] <==> comma.kind == CommentToken)
  {
    hide ReadToken;
    CommentsSkipped(doc, pos, after, b);
    NotAComment(doc, b);
  }

  function SeparatorOf(members: Members): Token {
    match members
    case NoMember(_, close) => close
    case LastMember(_, close) => close
    case MoreMembers(_, comma, _) => comma
  }

  function TokensAfter(members: Members): (ts: seq<Token>)
    ensures !members.NoMember? ==> MemberTokens(members) == PairTokens(members.pair) + ([SeparatorOf(members)] + ts)
  {
    if members.MoreMembers? then MemberTokens(members.rest) else []
  }

  lemma FirstIsProper(src: Source, members: Members, last: string)
    requires ProperMembers(src, members, last) && !members.NoMember?
    ensures ProperPair(src, members.pair) && SeparatorOf(members).kind != CommentToken
    ensures members.LastMember? ==> SeparatorOf(members).kind == ObjectEnd
    ensures members.MoreMembers? ==> Separates(members.pair.after, members.comma)
    ensures members.MoreMembers? ==> ProperMembers(src, members.rest, NameText(src, members.pair.name))
  {
    hide Proper, NameText;
  }

  lemma {:induction false} MembersAreRead(
      src: Source, pos: nat, done: Entries, last: string, members: Members, end: nat)
    requires SpellsMembers(src, pos, members, last, end)
    ensures src.ReadMembers(pos, done, last) == Reading(true, end, Object(Collected(src, members, done)), [])
    decreases members
  {
    hide ReadToken, NextToken, Source.ReadValue, Source.ReadMembers, Put, Lookup, Proper, TreeTokens, CStr, NameText;
    hide PairTokens;
    var doc := src.doc;
    if members.NoMember? {
      var a := Cut(doc, pos, members.before, [members.close], end);
      One(doc, a, members.close, end);
      CommentsSkipped(doc, pos, members.before, a);
      NotAComment(doc, a);
      JsonReader.MembersEnd(src, pos, done, last, members.close);
    } else {
      var p, next, more := members.pair, SeparatorOf(members), TokensAfter(members);
      FirstIsProper(src, members, last);
      var a, b, c := PairCut(doc, pos, p, [next] + more, end);
      var d := Cut(doc, c, [next], more, end);
      One(doc, c, next, d);
      CommentsSkipped(doc, pos, p.before, a);
      NotAComment(doc, a);
      NextIsFound(doc, b, p.after, c);
      var cur := Lookup(done, Name(CStr(NameText(src, p.name))));
      TreeIsRead(src, p.colon.end, cur, p.value, b);
      MemberGoesOn(src, pos, done, last, p.name, p.colon, src.ReadValue(p.colon.end, cur), p.after, next);
      if members.MoreMembers? {
        MembersAreRead(src, d, Added(src, p, done), NameText(src, p.name), members.rest, end);
      }
    }
  }

  // So reading a value succeeds, ends and yields exactly what its tokens say: it is an
  // equivalence, for every document, from every position and on every node.
  lemma ReadIff(src: Source, pos: nat, cur: Value, end: nat, v: Value)
    requires pos <= |src.doc|
    ensures src.ReadValue(pos, cur) == Reading(true, end, v, []) <==>
            exists t :: Spells(src, pos, t, end) && v == ValueOf(src, t)
  {
    hide Source.ReadValue, Spells, ValueOf;
    if src.ReadValue(pos, cur) == Reading(true, end, v, []) {
      var t := ValueIsSpelled(src, pos, cur);
    }
    forall t | Spells(src, pos, t, end)
      ensures src.ReadValue(pos, cur) == Reading(true, end, ValueOf(src, t), [])
    {
      TreeIsRead(src, pos, cur, t, end);
    }
  }

  // A document is accepted with a value exactly when its first tokens spell that value,
  // which must be an array or an object, or null, where the root is checked strictly.
  lemma AcceptedIff(src: Source, root: Value, v: Value)
    ensures src.Parse(root).ok && src.Parse(root).value == v <==>
            && (src.features.strictRoot ==> IsArray(v) || IsObject(v))
            && exists t, end :: Spells(src, 0, t, end) && v == ValueOf(src, t)
  {
    hide Source.ReadValue, Spells, ValueOf, NextToken, ReadToken, Source.SkipCommentTokens;
    var r := src.ReadValue(0, root);
    ReadIff(src, 0, root, r.pos, r.value);
    forall t, end | Spells(src, 0, t, end) ensures r == Reading(true, end, ValueOf(src, t), []) {
      TreeIsRead(src, 0, root, t, end);
    }
  }

  // ---------------------------------------------------------------- refusal

  predicate BeginsValue(kind: TokenType) {
    || kind.ObjectBegin? || kind.ArrayBegin? || kind.NumberToken? || kind.StringToken?
    || kind.TrueToken? || kind.FalseToken? || kind.NullToken?
  }

  // The error is about a token of the document, and that token is one it is meant for.
  ghost predicate Explains(src: Source, e: Error) {
    && (exists at: nat :: at <= |src.doc| && e.token == ReadToken(src.doc, at))
    && InDoc(src, e.token)
    && match e.message
       case ValueExpected => !BeginsValue(e.token.kind) && e.extra == None
       case MissingName => e.token.kind != StringToken && e.extra == None
       case MissingColon => e.token.kind != MemberSeparator && e.extra == None
       case MissingCommaInObject =>
         && e.token.kind != ArraySeparator && e.token.kind != ObjectEnd && e.token.kind != CommentToken
         && e.extra == None
       case MissingCommaInArray => e.token.kind != ArraySeparator && e.token.kind != ArrayEnd && e.extra == None
       case NotANumber(text) =>
         e.token.kind == NumberToken && ScalarValue(src, e.token).None? && text == src.Text(e.token) && e.extra == None
       case BadRoot => false
       case _ => e.token.kind == StringToken && e.extra.Some? &&
                 src.DecodeString(e.token) == Fail(e.message, e.extra.value)
  }

  ghost predicate OneExplained(src: Source, r: Reading) {
    !r.ok ==> |r.errors| == 1 && Explains(src, r.errors[0])
  }

  lemma TokenIsFound(src: Source, pos: nat)
    requires pos <= |src.doc|
    ensures exists at: nat :: at <= |src.doc| && src.SkipCommentTokens(pos) == ReadToken(src.doc, at)
    ensures exists at: nat :: at <= |src.doc| && NextToken(src.doc, pos) == ReadToken(src.doc, at)
  {
    var cs, at := CommentsBefore(src.doc, pos);
    hide ReadToken, NextToken;
  }

  // How a value that is one token is refused.
  lemma ScalarRefused(src: Source, pos: nat, cur: Value, t: Token)
    requires pos <= |src.doc| && t == src.SkipCommentTokens(pos)
    requires t.kind != ObjectBegin && t.kind != ArrayBegin && !src.ReadValue(pos, cur).ok
    ensures var r := src.ReadValue(pos, cur);
            && r.value == cur && |r.errors| == 1 && r.errors[0].token == t
            && (!BeginsValue(t.kind) ==> r == Reading(false, t.end, cur, [Error(ValueExpected, t, None)]))
            && (t.kind == NumberToken ==>
                  src.DecodeNumber(t).Fail? && r.errors[0] == Error(src.DecodeNumber(t).message, t, None))
            && (t.kind == StringToken ==>
                  && src.DecodeString(t).Fail?
                  && r.errors[0] == Error(src.DecodeString(t).message, t, Some(src.DecodeString(t).at)))
            && (BeginsValue(t.kind) ==> t.kind == NumberToken || t.kind == StringToken)
  {
    hide ReadToken, NextToken, Source.SkipCommentTokens, Source.DecodeNumber, Source.DecodeString, CStr;
    hide Source.ReadArray, Source.ReadMembers;
  }

  lemma ScalarExplained(src: Source, pos: nat, cur: Value, t: Token)
    requires pos <= |src.doc| && t == src.SkipCommentTokens(pos)
    requires t.kind != ObjectBegin && t.kind != ArrayBegin
    ensures OneExplained(src, src.ReadValue(pos, cur))
  {
    hide ReadToken, NextToken, Source.SkipCommentTokens, Source.ReadValue, Source.DecodeNumber, Source.DecodeString;
    hide CStr, IsStringMessage;
    if !src.ReadValue(pos, cur).ok {
      TokenIsFound(src, pos);
      ScalarRefused(src, pos, cur, t);
      if t.kind == StringToken {
        StringErrors(src, t);
        StringMessageExplains(src, t);
      } else if t.kind == NumberToken {
        NumberErrors(src, t);
      }
    }
  }

  predicate IsStringMessage(m: Message) {
    || m.EmptyEscape? || m.BadEscape? || m.FourDigitsExpected? || m.HexDigitExpected? || m.NoSecondHalf?
    || m.BadSecondHalf?
  }

  lemma StringErrors(src: Source, t: Token)
    requires InDoc(src, t) && t.kind == StringToken
    ensures src.DecodeString(t).Fail? ==> IsStringMessage(src.DecodeString(t).message)
  {
    BodyErrors(src.doc, t.start + 1, t.end - 1);
  }

  lemma {:induction false} BodyErrors(doc: string, cur: nat, end: nat)
    requires cur <= end <= |doc|
    ensures DecodeBody(doc, cur, end).Fail? ==> IsStringMessage(DecodeBody(doc, cur, end).message)
    decreases end - cur
  {
    if cur < end && doc[cur] != '"' {
      if DecodeOne(doc, cur, end).Fail? { JsonStrings.UnitRefused(doc, cur, end); }
      var one := DecodeOne(doc, cur, end);
      if one.Ok? { BodyErrors(doc, one.value.1, end); }
    }
    hide DecodeOne;
  }

  lemma NumberErrors(src: Source, t: Token)
    requires InDoc(src, t)
    ensures src.DecodeNumber(t).Fail? ==> src.DecodeNumber(t).message == NotANumber(src.Text(t))
  {
    hide DecodeInteger;
  }

  // A refused value has exactly one error, although parts of it are read again to recover.
  lemma {:induction false} ValueExplained(src: Source, pos: nat, cur: Value)
    requires pos <= |src.doc|
    ensures OneExplained(src, src.ReadValue(pos, cur))
    decreases |src.doc| - pos, 0
  {
    hide ReadToken, NextToken, Source.ReadValue, Source.ReadArray, Source.ReadMembers, Source.SkipCommentTokens;
    hide Explains;
    var t := src.SkipCommentTokens(pos);
    BracketReads(src, pos, cur, t);
    if t.kind == ObjectBegin {
      MembersExplained(src, t.end, End, "");
    } else if t.kind == ArrayBegin {
      ArrayReads(src, t.end);
      if ReadToken(src.doc, t.end).kind != ArrayEnd { ItemsExplained(src, SkipSpaces(src.doc, t.end), End, 0); }
    } else {
      ScalarExplained(src, pos, cur, t);
    }
  }

  lemma {:induction false} ItemsExplained(src: Source, pos: nat, done: Entries, k: nat)
    requires pos <= |src.doc|
    ensures OneExplained(src, src.ReadItems(pos, done, k))
    decreases |src.doc| - pos, 1
  {
    hide ReadToken, NextToken, SkipUntil, Source.ReadValue, Source.ReadItems, Put, Lookup, ScalarValue;
    var r := src.ReadValue(pos, Lookup(done, Index(k)));
    ValueExplained(src, pos, Lookup(done, Index(k)));
    var t := NextToken(src.doc, r.pos);
    TokenIsFound(src, r.pos);
    JsonReader.ItemTurn(src, pos, done, k, r, t);
    if r.ok && t.kind == ArraySeparator { ItemsExplained(src, t.end, Put(done, Index(k), r.value), k + 1); }
  }

  lemma {:induction false} MembersExplained(src: Source, pos: nat, done: Entries, last: string)
    requires pos <= |src.doc|
    ensures OneExplained(src, src.ReadMembers(pos, done, last))
    decreases |src.doc| - pos, 1
  {
    hide ReadToken, NextToken, SkipUntil, Source.ReadValue, Source.ReadMembers, Put, Lookup, ScalarValue, CStr;
    hide Source.DecodeString, IsStringMessage;
    var t := NextToken(src.doc, pos);
    TokenIsFound(src, pos);
    JsonReader.MembersEnd(src, pos, done, last, t);
    if t.kind == StringToken {
      StringErrors(src, t);
      if src.DecodeString(t).Fail? { StringMessageExplains(src, t); }
      if src.DecodeString(t).Ok? { ColonExplained(src, pos, done, last, t); }
    }
  }

  lemma StringMessageExplains(src: Source, t: Token)
    requires InDoc(src, t) && t.kind == StringToken && src.DecodeString(t).Fail?
    requires IsStringMessage(src.DecodeString(t).message)
    requires exists at: nat :: at <= |src.doc| && t == ReadToken(src.doc, at)
    ensures Explains(src, Error(src.DecodeString(t).message, t, Some(src.DecodeString(t).at)))
  {
    hide ReadToken, Source.DecodeString, ScalarValue;
  }

  // The same from the point where the name of the next member is decoded.
  lemma {:induction false} ColonExplained(src: Source, pos: nat, done: Entries, last: string, t: Token)
    requires pos <= |src.doc| && t == NextToken(src.doc, pos) && IsName(src, t)
    ensures OneExplained(src, src.ReadMembers(pos, done, last))
    decreases |src.doc| - pos, 0
  {
    hide ReadToken, NextToken, SkipUntil, Source.ReadValue, Source.ReadMembers, Put, Lookup, ScalarValue, CStr;
    hide Source.DecodeString, IsStringMessage, Separates;
    var name, colon := NameText(src, t), ReadToken(src.doc, t.end);
    JsonReader.MembersEnd(src, pos, done, last, t);
    if colon.kind == MemberSeparator {
      var cur := Lookup(done, Name(CStr(name)));
      var r := src.ReadValue(colon.end, cur);
      ValueExplained(src, colon.end, cur);
      var comma := ReadToken(src.doc, r.pos);
      JsonReader.MemberTurn(src, pos, done, last, t, name, colon, r, comma);
      var next := if comma.kind == CommentToken then NextToken(src.doc, comma.end) else comma;
      if r.ok { MembersExplained(src, next.end, Put(done, Name(CStr(name)), r.value), name); }
    }
  }

  // Recovery drops tokens up to the first one that closes what was open, or the end.
  lemma {:induction false} RecoveryIs(doc: string, pos: nat, until: TokenType) returns (ts: seq<Token>)
    requires pos <= |doc|
    ensures Span(doc, pos, ts, SkipUntil(doc, pos, until)) && ts != []
    ensures forall i :: 0 <= i < |ts| ==> (ts[i].kind in {until, EndOfStream} <==> i == |ts| - 1)
    decreases |doc| - pos
  {
    hide ReadToken;
    var t := ReadToken(doc, pos);
    One(doc, pos, t, t.end);
    if t.kind == until || t.kind == EndOfStream {
      ts := [t];
    } else {
      var more := RecoveryIs(doc, t.end, until);
      Joined(doc, pos, [t], t.end, more, SkipUntil(doc, pos, until));
      ts := [t] + more;
    }
  }

  // A document is accepted, or it is refused with one error about a token in it; a strict
  // root adds an error of its own about the whole document.
  lemma ParseErrors(src: Source, root: Value)
    ensures var r, bad := src.Parse(root), Error(BadRoot, Token(ErrorToken, 0, |src.doc|), None);
            var strictly := src.features.strictRoot && !IsArray(r.value) && !IsObject(r.value);
            exists es ::
              && |es| <= 1 && (|es| == 1 ==> Explains(src, es[0])) && r.errors == if strictly then es + [bad] else es
  {
    hide Source.ReadValue, NextToken, ReadToken, Source.SkipCommentTokens, Explains;
    ValueExplained(src, 0, root);
    var es := src.ReadValue(0, root).errors;
    assert |es| <= 1 && (|es| == 1 ==> Explains(src, es[0]));
  }

  // A byte that begins no value, after any white space, is refused where a value is due:
  // the node keeps what it holds, and there is one error about that byte.
  lemma RefusedByte(src: Source, pos: nat, start: nat, cur: Value)
    requires pos <= start < |src.doc| && Blank(src.doc[pos..start])
    requires src.doc[start] !in " \t\r\n" && src.doc[start] !in "{[\"-0123456789tfn/"
    ensures var r := src.ReadValue(pos, cur);
            && !r.ok && r.pos == start + 1 && r.value == cur && |r.errors| == 1
            && r.errors[0].message == ValueExpected && r.errors[0].extra == None
            && r.errors[0].token.start == start && r.errors[0].token.end == start + 1
  {
    hide Source.ReadValue, ScanString, ScanNumber, ScanComment, Matches, SkipSpaces;
    SpacesAre(src.doc, pos, start);
    var t := ReadToken(src.doc, pos);
    assert t == TokenAt(src.doc, start) && !BeginsValue(t.kind) && t.kind != CommentToken && t.end == start + 1;
    NotAComment(src.doc, pos);
    ScalarReads(src, pos, cur, t);
    ScalarRefused(src, pos, cur, t);
    hide ReadToken, NextToken, TokenAt;
  }

  // ------------------------------------------------------- what is let through

  // The tokens of a document that follow each other without white space.
  lemma Adjacent(doc: string, at: nat, kind: TokenType, w: string)
    requires at + |w| <= |doc| && doc[at..at + |w|] == w && IsWord(kind, w) && kind != ErrorToken
    requires at + |w| < |doc| ==> !GoesOn(kind, w, doc[at + |w|])
    ensures ReadToken(doc, at) == Token(kind, at, at + |w|)
  {
    assert doc[at..at] == "";
    TokenIff(doc, at, kind, at, at + |w|);
    hide ReadToken, IsWord, GoesOn;
  }

  // One token more in front of a span.
  lemma Before(doc: string, at: nat, kind: TokenType, w: string, ts: seq<Token>, end: nat)
    requires at + |w| <= |doc| && doc[at..at + |w|] == w && IsWord(kind, w) && kind != ErrorToken
    requires at + |w| < |doc| ==> !GoesOn(kind, w, doc[at + |w|])
    requires Span(doc, at + |w|, ts, end)
    ensures Span(doc, at, [Token(kind, at, at + |w|)] + ts, end)
  {
    Adjacent(doc, at, kind, w);
    var t := Token(kind, at, at + |w|);
    One(doc, at, t, t.end);
    Joined(doc, at, [t], t.end, ts, end);
    hide ReadToken, IsWord, GoesOn;
  }

  lemma NoTokens(doc: string, at: nat)
    requires at <= |doc|
    ensures Span(doc, at, [], at)
  {
  }

  // A member without comments whose value is one token.
  function PlainPair(name: Token, colon: Token, value: Token, after: seq<Token>): Pair {
    Pair([], name, colon, Tree([], Scalar(value)), after)
  }

  lemma PlainPairIs(src: Source, name: Token, colon: Token, value: Token, after: seq<Token>)
    ensures PairTokens(PlainPair(name, colon, value, after)) == [name, colon, value] + after
    ensures IsName(src, name) && colon.kind.MemberSeparator? && ScalarValue(src, value).Some? && AllComments(after) ==>
              ProperPair(src, PlainPair(name, colon, value, after))
    ensures ScalarValue(src, value).Some? ==>
              ValueOf(src, PlainPair(name, colon, value, after).value) == ScalarValue(src, value).value
  {
    hide ScalarValue, IsName;
    var tree := Tree([], Scalar(value));
    assert TreeTokens(tree) == [value];
    if ScalarValue(src, value).Some? { assert ProperBody(src, tree.body) && Proper(src, tree); }
  }

  // A comma may be left behind after a member with the empty name.
  lemma CommaAfterEmptyName(src: Source)
    requires src.doc == "{\"\":null,}"
    ensures src.ReadValue(0, Null) == Reading(true, 10, Object(Entry(Name(""), Null, End)), [])
  {
    hide Source.ReadValue, ReadToken, Span, PairTokens, ProperPair, NextToken;
    var open, name, colon := Token(ObjectBegin, 0, 1), Token(StringToken, 1, 3), Token(MemberSeparator, 3, 4);
    var nothing, comma, close := Token(NullToken, 4, 8), Token(ArraySeparator, 8, 9), Token(ObjectEnd, 9, 10);
    EmptyNameTokens(src.doc);
    PlainPairIs(src, name, colon, nothing, []);
    var rest := NoMember([], close);
    var members := MoreMembers(PlainPair(name, colon, nothing, []), comma, rest);
    assert MemberTokens(members) == [name, colon, nothing, comma, close];
    var t := Tree([], Dict(open, members));
    assert TreeTokens(t) == [open] + ([name] + ([colon] + ([nothing] + ([comma] + ([close] + [])))));
    assert ProperMembers(src, rest, "") && ProperMembers(src, members, "") && ProperBody(src, t.body);
    TreeIsRead(src, 0, Null, t, 10);
    assert Collected(src, members, End) == Entry(Name(""), Null, End);
  }

  lemma EmptyNameTokens(doc: string)
    requires doc == "{\"\":null,}"
    ensures Span(doc, 0, [Token(ObjectBegin, 0, 1)] + ([Token(StringToken, 1, 3)] + ([Token(MemberSeparator, 3, 4)] +
            ([Token(NullToken, 4, 8)] + ([Token(ArraySeparator, 8, 9)] + ([Token(ObjectEnd, 9, 10)] + []))))), 10)
  {
    hide Span, ReadToken;
    NoTokens(doc, 10);
    Before(doc, 9, ObjectEnd, "}", [], 10);
    Before(doc, 8, ArraySeparator, ",", [Token(ObjectEnd, 9, 10)] + [], 10);
    var three := [Token(ArraySeparator, 8, 9)] + ([Token(ObjectEnd, 9, 10)] + []);
    Before(doc, 4, NullToken, "null", three, 10);
    Before(doc, 3, MemberSeparator, ":", [Token(NullToken, 4, 8)] + three, 10);
    Before(doc, 1, StringToken, "\"\"", [Token(MemberSeparator, 3, 4)] + ([Token(NullToken, 4, 8)] + three), 10);
    Before(doc, 0, ObjectBegin, "{",
           [Token(StringToken, 1, 3)] + ([Token(MemberSeparator, 3, 4)] + ([Token(NullToken, 4, 8)] + three)), 10);
  }
}
