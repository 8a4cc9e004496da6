// Parser and printers undo each other: what is written reads back as the canonical form
// of the value, which means the same; and what was read is rewritten without change.

module JsonRoundTrip {
  import opened Common
  import opened JsonValue
  import opened JsonText
  import opened JsonNumber
  import opened JsonLexer
  import opened JsonGrammar
  import opened JsonLayout
  import opened JsonPrint
  import JsonReader
  import JsonTree
  import JsonWriter

  // ---------------------------------------------------------------- meaning

  // Two values hold the same data: the type of an integer does not matter, and an array
  // is what its indexes yield.
  ghost predicate SameMeaning(a: Value, b: Value)
    decreases Nodes(a), 1
  {
    match (a, b)
    case (Int(i), Int(j)) => i == j
    case (Int(i), UInt(j)) => i == j
    case (UInt(i), Int(j)) => i == j
    case (UInt(i), UInt(j)) => i == j
    case (Array(x), Array(y)) =>
      ArraySize(x) == ArraySize(y)
      && forall k :: 0 <= k < ArraySize(x) ==>
           (LookupIsSmaller(x, Index(k)); SameMeaning(Lookup(x, Index(k)), Lookup(y, Index(k))))
    case (Object(x), Object(y)) => SameMembers(x, y)
    case _ => a == b
  }

  ghost predicate SameMembers(x: Entries, y: Entries)
    decreases NodesIn(x), 1
  {
    match (x, y)
    case (End, End) => true
    case (Entry(k, v, rest), Entry(k', v', rest')) => k == k' && SameMeaning(v, v') && SameMembers(rest, rest')
    case _ => false
  }

  // An index of a dense array holds the canonical form of what was there, null if nothing.
  lemma {:induction false} DenseLookup(e: Entries, k: nat, j: nat)
    requires AllIndexes(e) && Ascending(e) && (e.Entry? ==> e.key.index >= k) && k <= j
    ensures ArraySize(DenseItems(e, k)) == if e.End? then 0 else ArraySize(e)
    ensures e.Entry? ==> k < ArraySize(e)
    ensures j < ArraySize(e) ==> Lookup(DenseItems(e, k), Index(j)) == Canon(Lookup(e, Index(j)))
    decreases e, Gap(e, k)
  {
    if e.Entry? {
      LastIndexBounds(e);
      if Gap(e, k) > 0 {
        AboveFirst(e, k);
        DenseLookup(e, k + 1, if j == k then k + 1 else j);
      } else {
        DenseLookup(e.rest, k + 1, if j == k then k + 1 else j);
      }
    }
  }

  // Canonical form keeps the data.
  lemma {:induction false} CanonKeepsMeaning(v: Value)
    requires WellFormed(v) && Printable(v)
    ensures SameMeaning(v, Canon(v))
    decreases Nodes(v), 1
  {
    match v {
      case Array(x) =>
        DenseLookup(x, 0, 0);
        forall k | 0 <= k < ArraySize(x)
          ensures SameMeaning(Lookup(x, Index(k)), Lookup(DenseItems(x, 0), Index(k)))
        {
          DenseLookup(x, 0, k);
          ChildKeeps(x, Index(k));
          CanonKeepsMeaning(Lookup(x, Index(k)));
        }
      case Object(x) => CanonKeepsMembers(x);
      case _ =>
    }
  }

  lemma {:induction false} CanonKeepsMembers(x: Entries)
    requires WellFormedEntries(x) && PrintableEntries(x)
    ensures SameMembers(x, CanonMembers(x))
    decreases NodesIn(x), 1
  {
    if x.Entry? {
      CanonKeepsMeaning(x.value);
      CanonKeepsMembers(x.rest);
    }
  }

  // -------------------------------------------------------- writing, reading

  // Whatever the settings of writer and reader, and whatever the reader's root held, both
  // writers' texts parse to the same value, which holds the same data as the one written.
  method WriteAndRead(v: Value, yaml: bool, features: Features, scan: string -> Option<Double>, root: Value)
    returns (fromFast: Value, fromStyled: Value, fastOk: bool, styledOk: bool)
    requires WellFormed(v) && Printable(v)
    ensures fromFast == fromStyled == Canon(v) && SameMeaning(v, fromFast)
    ensures fastOk == styledOk == (!features.strictRoot || IsArray(v) || IsObject(v))
  {
    CanonKeepsMeaning(v);
    hide Canon, Tokens, WellFormed, Printable, Flat, Layout, Source.Parse, SameMeaning;
    var fastWriter := new JsonWriter.FastWriter();
    var styledWriter := new JsonWriter.StyledWriter();
    if yaml { fastWriter.EnableYamlCompatibility(); }
    var fast := fastWriter.Write(v);
    var styled := styledWriter.Write(v);
    LayoutParses(Source(fast, features, scan), root, v);
    LayoutParses(Source(styled, features, scan), root, v);
    var reader := new JsonReader.Reader(features, scan);
    fastOk := reader.Parse(fast, root);
    fromFast := reader.root;
    styledOk := reader.Parse(styled, root);
    fromStyled := reader.root;
  }

  // -------------------------------------------------------- reading, writing

  predicate Dense(e: Entries, k: nat) {
    e.Entry? ==> e.key == Index(k) && Dense(e.rest, k + 1)
  }

  // What the reader builds: well-formed, without gaps, and with uint only for what does
  // not fit an int.
  predicate Shaped(v: Value) {
    match v
    case UInt(u) => TWO_31 <= u < TWO_64
    case Array(items) => Dense(items, 0) && ShapedEntries(items)
    case Object(members) => AllNames(members) && Ascending(members) && ShapedEntries(members)
    case _ => WellFormed(v)
  }

  predicate ShapedEntries(e: Entries) {
    e.Entry? ==> Shaped(e.value) && (e.key.Name? ==> NulFree(e.key.cstr)) && ShapedEntries(e.rest)
  }

  lemma {:induction false} DenseIsMap(e: Entries, k: nat)
    requires Dense(e, k)
    ensures AllIndexes(e) && Ascending(e)
    decreases e
  {
    if e.Entry? { DenseIsMap(e.rest, k + 1); }
  }

  lemma {:induction false} ShapedIsWellFormed(v: Value)
    requires Shaped(v)
    ensures WellFormed(v)
    decreases v, 1
  {
    match v {
      case Array(items) =>
        DenseIsMap(items, 0);
        ShapedEntriesAreWellFormed(items);
      case Object(members) => ShapedEntriesAreWellFormed(members);
      case _ =>
    }
  }

  lemma {:induction false} ShapedEntriesAreWellFormed(e: Entries)
    requires ShapedEntries(e)
    ensures WellFormedEntries(e)
    decreases e, 1
  {
    if e.Entry? {
      ShapedIsWellFormed(e.value);
      ShapedEntriesAreWellFormed(e.rest);
    }
  }

  // Putting a shaped value at a key keeps a shaped map shaped.
  lemma {:induction false} PutKeepsShape(e: Entries, k: Key, v: Value)
    requires ShapedEntries(e) && Shaped(v) && (k.Name? ==> NulFree(k.cstr))
    ensures ShapedEntries(Put(e, k, v))
    decreases e
  {
    if e.Entry? { PutKeepsShape(e.rest, k, v); }
  }

  lemma {:induction false} LookupShaped(e: Entries, k: Key)
    requires ShapedEntries(e)
    ensures Shaped(Lookup(e, k))
    decreases e
  {
    if e.Entry? { LookupShaped(e.rest, k); }
  }

  // The next index of a dense array.
  lemma {:induction false} PutNextIndex(e: Entries, k: nat, n: nat, v: Value)
    requires Dense(e, k) && n == k + Count(e)
    ensures Dense(Put(e, Index(n), v), k) && Count(Put(e, Index(n), v)) == Count(e) + 1
    decreases e
  {
    if e.Entry? { PutNextIndex(e.rest, k + 1, n, v); }
  }

  lemma {:induction false} AccumulatorFits(s: string, i: nat, value: nat, limit: Limit)
    requires i <= |s| && value < TWO_64
    ensures var d := DecodeDigits(s, i, value, limit);
            d.Exact? ==> d.value < TWO_64
    decreases |s| - i
  {
    if i < |s| && IsDigit(s[i]) {
      AccumulatorFits(s, i + 1, ToUInt64(value * 10 + DigitValue(s[i])), limit);
    }
  }

  lemma NumberShaped(src: Source, t: Token)
    requires t.start <= t.end <= |src.doc| && src.DecodeNumber(t).Ok?
    ensures Shaped(src.DecodeNumber(t).value)
  {
    var s := src.Text(t);
    AccumulatorFits(Magnitude(s), 0, 0, LimitFor(Negative(s)));
    hide LooksDouble, DecodeDigits;
  }

  // On every document, also one that fails, the reader leaves a value of this shape.
  lemma {:induction false} ReadValueShaped(src: Source, pos: nat, cur: Value)
    requires pos <= |src.doc| && Shaped(cur)
    ensures Shaped(src.ReadValue(pos, cur).value)
    decreases |src.doc| - pos, 0
  {
    hide NextToken, ReadToken, Source.DecodeNumber, Source.DecodeString, CStr, NulFree;
    var t := src.SkipCommentTokens(pos);
    match t.kind {
      case ObjectBegin => ReadMembersShaped(src, t.end, End, "");
      case ArrayBegin => ReadArrayShaped(src, t.end);
      case NumberToken => if src.DecodeNumber(t).Ok? { NumberShaped(src, t); }
      case _ =>
    }
  }

  lemma {:induction false} ReadMembersShaped(src: Source, pos: nat, members: Entries, name: string)
    requires pos <= |src.doc| && Shaped(Object(members))
    ensures Shaped(src.ReadMembers(pos, members, name).value)
    decreases |src.doc| - pos, 1
  {
    var t := NextToken(src.doc, pos);
    if t.kind == StringToken && src.DecodeString(t).Ok? {
      var colon := ReadToken(src.doc, t.end);
      if colon.kind == MemberSeparator {
        var name' := src.DecodeString(t).value;
        var key := Name(CStr(name'));
        var r := src.ReadValue(colon.end, Lookup(members, key));
        LookupShaped(members, key);
        ReadValueShaped(src, colon.end, Lookup(members, key));
        PutKeepsShape(members, key, r.value);
        JsonTree.PutKeepsMap(members, key, r.value);
        var members' := Put(members, key, r.value);
        MembersGoOn(src, pos, members, name, t, name', colon, r);
        if r.ok {
          var comma := ReadToken(src.doc, r.pos);
          var last := if comma.kind == CommentToken then NextToken(src.doc, comma.end) else comma;
          ReadMembersShaped(src, last.end, members', name');
        }
      } else {
        JsonReader.MembersEnd(src, pos, members, name, t);
      }
    } else {
      JsonReader.MembersEnd(src, pos, members, name, t);
    }
  }

  // The value of an object's reading after one member.
  lemma MembersGoOn(src: Source, pos: nat, members: Entries, last: string,
                    t: Token, name: string, colon: Token, r: Reading)
    requires pos <= |src.doc| && t == NextToken(src.doc, pos) && t.kind == StringToken
    requires src.DecodeString(t) == Ok(name)
    requires colon == ReadToken(src.doc, t.end) && colon.kind == MemberSeparator
    requires r == src.ReadValue(colon.end, Lookup(members, Name(CStr(name))))
    ensures var members' := Put(members, Name(CStr(name)), r.value);
            var comma := ReadToken(src.doc, r.pos);
            var next := if comma.kind == CommentToken then NextToken(src.doc, comma.end) else comma;
            var whole := src.ReadMembers(pos, members, last).value;
            whole == Object(members') || (r.ok && whole == src.ReadMembers(next.end, members', name).value)
  {
    hide NextToken, ReadToken, SkipUntil, Source.ReadValue, Source.ReadMembers, Source.DecodeString, CStr, Put, Lookup;
    JsonReader.MemberTurn(src, pos, members, last, t, name, colon, r, ReadToken(src.doc, r.pos));
  }

  lemma {:induction false} ReadArrayShaped(src: Source, pos: nat)
    requires pos <= |src.doc|
    ensures Shaped(src.ReadArray(pos).value)
    decreases |src.doc| - pos, 2
  {
    var start := SkipSpaces(src.doc, pos);
    if Peek(src.doc, start) != ']' { ReadItemsShaped(src, start, End, 0); }
  }

  lemma {:induction false} ReadItemsShaped(src: Source, pos: nat, items: Entries, index: nat)
    requires pos <= |src.doc| && Dense(items, 0) && ShapedEntries(items) && Count(items) == index
    ensures Shaped(src.ReadItems(pos, items, index).value)
    decreases |src.doc| - pos, 1
  {
    hide NextToken, SkipUntil, Source.ReadValue, Source.ReadItems;
    var r := src.ReadValue(pos, Lookup(items, Index(index)));
    LookupShaped(items, Index(index));
    ReadValueShaped(src, pos, Lookup(items, Index(index)));
    PutKeepsShape(items, Index(index), r.value);
    PutNextIndex(items, 0, index, r.value);
    var t := NextToken(src.doc, r.pos);
    JsonReader.ItemTurn(src, pos, items, index, r, t);
    if r.ok && t.kind == ArraySeparator {
      ReadItemsShaped(src, t.end, Put(items, Index(index), r.value), index + 1);
    }
  }

  // No integer is typed int although it is too large for one.
  predicate SmallInts(v: Value) {
    match v
    case Int(i) => i < TWO_31
    case Array(items) => SmallIntsIn(items)
    case Object(members) => SmallIntsIn(members)
    case _ => true
  }

  predicate SmallIntsIn(e: Entries) {
    e.Entry? ==> SmallInts(e.value) && SmallIntsIn(e.rest)
  }

  lemma {:induction false} CanonOfShaped(v: Value)
    requires Shaped(v)
    ensures Canon(v) == v <==> SmallInts(v)
    decreases v, 1
  {
    match v {
      case Array(items) => CanonOfItems(items, 0);
      case Object(members) => CanonOfMembers(members);
      case _ =>
    }
  }

  lemma {:induction false} CanonOfItems(e: Entries, k: nat)
    requires Dense(e, k) && ShapedEntries(e)
    ensures DenseItems(e, k) == e <==> SmallIntsIn(e)
    decreases e, 1
  {
    if e.Entry? {
      CanonOfShaped(e.value);
      CanonOfItems(e.rest, k + 1);
    }
  }

  lemma {:induction false} CanonOfMembers(e: Entries)
    requires ShapedEntries(e)
    ensures CanonMembers(e) == e <==> SmallIntsIn(e)
    decreases e, 1
  {
    if e.Entry? {
      CanonOfShaped(e.value);
      CanonOfMembers(e.rest);
    }
  }

  // A document that was read, then written by either writer and read again: the value is
  // the very same exactly when no integer in it was typed int above 2^31 - 1, and it holds
  // the same data in any case.
  lemma Rereading(src: Source, root: Value, text: string)
    requires Shaped(root) && Printable(src.Parse(root).value)
    requires Laid(text, Tokens(src.Parse(root).value))
    ensures
      var v, again := src.Parse(root).value, Source(text, src.features, src.scan).Parse(root);
      && SameMeaning(v, again.value)
      && (again.value == v <==> SmallInts(v))
      && (src.Parse(root).ok ==> again.ok)
  {
    var v := src.Parse(root).value;
    ReadValueShaped(src, 0, root);
    ShapedIsWellFormed(v);
    CanonKeepsMeaning(v);
    CanonOfShaped(v);
    LayoutParses(Source(text, src.features, src.scan), root, v);
    hide SameMeaning, SmallInts, Canon, Tokens, Source.ReadValue, NextToken, ReadToken;
  }

  // Tokens that yield an integer of signed type above 2^31 - 1: negative ones that slip
  // through the overflow guard, whose magnitude wraps to between 2^63 and 2^64 - 2^31.
  predicate YieldsLargeInt(s: string) {
    && IsIntegerText(s) && Negative(s) && GuardMisses(s)
    && TWO_63 < Horner(Magnitude(s), 0, 0) % TWO_64 <= TWO_64 - TWO_31
  }

  // These and no other texts do.
  lemma LargeIntIff(s: string)
    ensures DecodeInteger(s).Integer? && !SmallInts(DecodeInteger(s).value) <==> YieldsLargeInt(s)
  {
    hide LooksDouble, DecodeDigits, Horner, Verdict, TypedInteger, Canonical, ToUInt64;
    if !IsIntegerText(s) {
      OnlyDigits(s);
    } else if Magnitude(s) == "" {
      EmptyIsSmall(s);
    } else {
      var m, negative := Magnitude(s), Negative(s);
      var n, d := Horner(m, 0, 0), DigitValue(m[|m| - 1]);
      IntegerTextNotDouble(s);
      LimitIs(negative);
      DecodeDigitsMeaning(m, 0, 0, LimitFor(negative));
      HornerLast(m, 0, 0);
      VerdictInRange(negative, n, Prefix(m), d);
      CanonicalIsSmall(Signed(negative, n));
      if GuardMisses(s) {
        SlipWraps(LimitFor(negative), n, Prefix(m), d);
        WrapIs(n);
        WrappedIsLargeIff(negative, ToUInt64(n));
      }
      hide LimitFor, Slips;
    }
  }

  lemma WrapIs(n: nat)
    ensures ToUInt64(n) == n % TWO_64 < TWO_64
  {
  }

  lemma CanonicalIsSmall(n: int)
    ensures SmallInts(Canonical(n))
  {
  }

  lemma WrappedIsLargeIff(negative: bool, w: nat)
    requires w < TWO_64
    ensures !SmallInts(TypedInteger(negative, w)) <==> negative && TWO_63 < w <= TWO_64 - TWO_31
  {
    if negative {
      if w < TWO_63 {
        FitsInt64(w);
        FitsInt64(0 - w);
      } else if w == TWO_63 {
        LeastInteger();
      } else {
        assert ToInt64(w) == w - TWO_64;
        FitsInt64(TWO_64 - w);
      }
    }
    hide ToInt64;
  }

  lemma EmptyIsSmall(s: string)
    requires Magnitude(s) == ""
    ensures DecodeInteger(s).Integer? ==> SmallInts(DecodeInteger(s).value)
  {
    hide LooksDouble;
  }

  // A text that is read as an integer has nothing but digits after its sign.
  lemma OnlyDigits(s: string)
    requires !IsIntegerText(s)
    ensures !DecodeInteger(s).Integer?
  {
    hide LooksDouble, DecodeDigits;
    var m, limit := Magnitude(s), LimitFor(Negative(s));
    if DecodeDigits(m, 0, 0, limit).Exact? { ExactIsDigits(m, 0, 0, limit); }
  }

  lemma {:induction false} ExactIsDigits(s: string, i: nat, value: nat, limit: Limit)
    requires i <= |s| && DecodeDigits(s, i, value, limit).Exact?
    ensures forall j :: i <= j < |s| ==> IsDigit(s[j])
    decreases |s| - i
  {
    hide ToUInt64;
    if i < |s| { ExactIsDigits(s, i + 1, ToUInt64(value * 10 + DigitValue(s[i])), limit); }
  }

  // ------------------------------------------------- the same on the input text

  // A document without such a token.
  ghost predicate NoLargeInt(doc: string) {
    forall pos: nat :: pos <= |doc| && ReadToken(doc, pos).kind == NumberToken ==>
      var t := ReadToken(doc, pos); t.start <= t.end <= |doc| && !YieldsLargeInt(doc[t.start..t.end])
  }

  lemma {:induction false} LookupSmall(e: Entries, k: Key)
    requires SmallIntsIn(e)
    ensures SmallInts(Lookup(e, k))
    decreases e
  {
    if e.Entry? { LookupSmall(e.rest, k); }
  }

  lemma {:induction false} PutKeepsSmall(e: Entries, k: Key, v: Value)
    requires SmallIntsIn(e) && SmallInts(v)
    ensures SmallIntsIn(Put(e, k, v))
    decreases e
  {
    hide KeyLess;
    if e.Entry? { PutKeepsSmall(e.rest, k, v); }
  }

  lemma NumberSmall(src: Source, pos: nat, t: Token)
    requires NoLargeInt(src.doc) && pos <= |src.doc| && t == src.SkipCommentTokens(pos)
    requires t.kind == NumberToken && src.DecodeNumber(t).Ok?
    ensures SmallInts(src.DecodeNumber(t).value)
  {
    TokenIsRead(src, pos);
    LargeIntIff(src.Text(t));
    hide ReadToken, NextToken, DecodeInteger, YieldsLargeInt;
  }

  // Every token that the reader looks at is one that starts somewhere in the document.
  lemma TokenIsRead(src: Source, pos: nat)
    requires pos <= |src.doc|
    ensures exists at: nat :: at <= |src.doc| && src.SkipCommentTokens(pos) == ReadToken(src.doc, at)
  {
    hide ReadToken;
    if src.SkipCommentTokens(pos) != ReadToken(src.doc, pos) { NextIsRead(src.doc, pos); }
  }

  lemma {:induction false} NextIsRead(doc: string, pos: nat)
    requires pos <= |doc|
    ensures exists at: nat :: at <= |doc| && NextToken(doc, pos) == ReadToken(doc, at)
    decreases |doc| - pos
  {
    var t := ReadToken(doc, pos);
    if t.kind == CommentToken { NextIsRead(doc, t.end); }
    hide ReadToken;
  }

  lemma {:induction false} ReadValueSmall(src: Source, pos: nat, cur: Value)
    requires NoLargeInt(src.doc) && pos <= |src.doc| && SmallInts(cur)
    ensures SmallInts(src.ReadValue(pos, cur).value)
    decreases |src.doc| - pos, 0
  {
    hide NextToken, ReadToken, Source.DecodeNumber, Source.DecodeString, CStr, NulFree, NoLargeInt;
    var t := src.SkipCommentTokens(pos);
    match t.kind {
      case ObjectBegin => ReadMembersSmall(src, t.end, End, "");
      case ArrayBegin => ReadArraySmall(src, t.end);
      case NumberToken => if src.DecodeNumber(t).Ok? { NumberSmall(src, pos, t); }
      case _ =>
    }
  }

  lemma {:induction false} ReadMembersSmall(src: Source, pos: nat, members: Entries, name: string)
    requires NoLargeInt(src.doc) && pos <= |src.doc| && SmallIntsIn(members)
    ensures SmallInts(src.ReadMembers(pos, members, name).value)
    decreases |src.doc| - pos, 1
  {
    hide NoLargeInt;
    var t := NextToken(src.doc, pos);
    if t.kind == StringToken && src.DecodeString(t).Ok? {
      var colon := ReadToken(src.doc, t.end);
      if colon.kind == MemberSeparator {
        var name' := src.DecodeString(t).value;
        var key := Name(CStr(name'));
        var r := src.ReadValue(colon.end, Lookup(members, key));
        LookupSmall(members, key);
        ReadValueSmall(src, colon.end, Lookup(members, key));
        PutKeepsSmall(members, key, r.value);
        var members' := Put(members, key, r.value);
        MembersGoOn(src, pos, members, name, t, name', colon, r);
        if r.ok {
          var comma := ReadToken(src.doc, r.pos);
          var last := if comma.kind == CommentToken then NextToken(src.doc, comma.end) else comma;
          ReadMembersSmall(src, last.end, members', name');
        }
      } else {
        JsonReader.MembersEnd(src, pos, members, name, t);
      }
    } else {
      JsonReader.MembersEnd(src, pos, members, name, t);
    }
  }

  lemma {:induction false} ReadArraySmall(src: Source, pos: nat)
    requires NoLargeInt(src.doc) && pos <= |src.doc|
    ensures SmallInts(src.ReadArray(pos).value)
    decreases |src.doc| - pos, 2
  {
    hide NoLargeInt;
    var start := SkipSpaces(src.doc, pos);
    if Peek(src.doc, start) != ']' { ReadItemsSmall(src, start, End, 0); }
  }

  lemma {:induction false} ReadItemsSmall(src: Source, pos: nat, items: Entries, index: nat)
    requires NoLargeInt(src.doc) && pos <= |src.doc| && SmallIntsIn(items)
    ensures SmallInts(src.ReadItems(pos, items, index).value)
    decreases |src.doc| - pos, 1
  {
    hide NextToken, SkipUntil, Source.ReadValue, Source.ReadItems, NoLargeInt;
    var r := src.ReadValue(pos, Lookup(items, Index(index)));
    LookupSmall(items, Index(index));
    ReadValueSmall(src, pos, Lookup(items, Index(index)));
    PutKeepsSmall(items, Index(index), r.value);
    var t := NextToken(src.doc, r.pos);
    JsonReader.ItemTurn(src, pos, items, index, r, t);
    if r.ok && t.kind == ArraySeparator {
      ReadItemsSmall(src, t.end, Put(items, Index(index), r.value), index + 1);
    }
  }

  // So whatever is read from a document without such a token is read again unchanged.
  lemma RereadingOfText(src: Source, root: Value, text: string)
    requires Shaped(root) && SmallInts(root) && NoLargeInt(src.doc)
    requires Printable(src.Parse(root).value) && Laid(text, Tokens(src.Parse(root).value))
    ensures Source(text, src.features, src.scan).Parse(root).value == src.Parse(root).value
  {
    ReadValueSmall(src, 0, root);
    Rereading(src, root, text);
    hide Source.ReadValue, SmallInts, SameMeaning, Tokens, NextToken, ReadToken, NoLargeInt;
  }

  lemma NegativeMiss(s: string, m: string, n: nat)
    requires s == "-" + m && m != "" && AllDigits(m) && Horner(m, 0, 0) == n
    requires DigitValue(m[|m| - 1]) == n % 10 && Prefix(m) == n / 10
    requires TWO_63 / 10 < n / 10 < 10 * (TWO_63 / 10) && n % 10 <= 8
    ensures DecodeInteger(s) == Integer(TypedInteger(true, ToUInt64(n)))
  {
    hide LooksDouble, DecodeDigits, Horner, Verdict, TypedInteger, ToUInt64, AllDigits;
    assert Magnitude(s) == m;
    IntegerTextNotDouble(s);
    LimitIs(true);
    DecodeDigitsMeaning(m, 0, 0, LimitFor(true));
    assert n == 10 * (n / 10) + n % 10;
    SlipWraps(LimitFor(true), n, n / 10, n % 10);
  }

  lemma ExampleWraps()
    ensures TypedInteger(true, ToUInt64(TWO_63 + 2)) == Int(TWO_63 - 2)
  {
  }

  // A document that is one integer token is read as that integer.
  lemma IntegerDocument(src: Source, root: Value)
    requires src.doc != "" && IsIntegerText(src.doc) && DecodeInteger(src.doc).Integer?
    ensures src.Parse(root).value == DecodeInteger(src.doc).value
  {
    hide DecodeInteger, TokenAt, ReadToken, NextToken, SkipSpaces, AllDigits;
    var doc := src.doc;
    DigitsAre(doc);
    ScanNumberStops(doc, 1, |doc|);
    NumberTokenAt(doc, 0, |doc|);
    TokenStarts(doc, 0);
    assert doc[0..|doc|] == doc;
  }

  lemma DigitsAre(doc: string)
    requires doc != "" && IsIntegerText(doc)
    ensures (IsDigit(doc[0]) || doc[0] == '-') && forall k :: 1 <= k < |doc| ==> IsNumberChar(doc[k])
    ensures SkipSpaces(doc, 0) == 0
  {
    var m := Magnitude(doc);
    forall k | 1 <= k < |doc| ensures IsNumberChar(doc[k]) {
      assert IsDigit(if Negative(doc) then m[k - 1] else m[k]);
    }
    assert !Negative(doc) ==> IsDigit(m[0]);
  }

  // So a document that is one integer token is read again unchanged if and only if it is
  // none of these tokens.
  lemma RereadingOfToken(src: Source, root: Value, text: string)
    requires src.doc != "" && IsIntegerText(src.doc) && DecodeInteger(src.doc).Integer?
    requires Shaped(root) && Laid(text, Tokens(DecodeInteger(src.doc).value))
    ensures var again := Source(text, src.features, src.scan).Parse(root);
            again.value == src.Parse(root).value <==> !YieldsLargeInt(src.doc)
  {
    IntegerDocument(src, root);
    LargeIntIff(src.doc);
    IntegersArePrintable(src.doc);
    hide DecodeInteger, YieldsLargeInt, SmallInts, SameMeaning, Source.Parse, Tokens, Printable;
    Rereading(src, root, text);
  }

  lemma IntegersArePrintable(s: string)
    requires DecodeInteger(s).Integer?
    ensures Printable(DecodeInteger(s).value)
  {
    hide LooksDouble, DecodeDigits;
  }

  // For one, the decimal notation of -2^63 - 2 is read as the positive number 2^63 - 2.
  lemma LargeIntExample()
    ensures DecodeInteger(IntegerText(-TWO_63 - 2)) == Integer(Int(TWO_63 - 2))
  {
    hide DecodeInteger, Decimal, Horner, AllDigits, DigitValue, DigitChar, TypedInteger, ToUInt64;
    var n: nat := TWO_63 + 2;
    var m := Decimal(n);
    DecimalSplits(n);
    NegativeMiss("-" + m, m, n);
    ExampleWraps();
  }
}
