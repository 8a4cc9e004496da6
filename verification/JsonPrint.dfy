// Texts as laid-out tokens: what the writers append and how it adds up to the tokens of
// a value. Arrays are walked by index and objects by name, as the writers do.

module JsonPrint {
  import opened JsonValue
  import opened JsonText
  import opened JsonNumber
  import opened JsonLexer
  import opened JsonLayout
  import JsonOrder

  // ------------------------------------------------------------------- text

  // A text that lays out these tokens.
  predicate Laid(text: string, toks: seq<string>) {
    Layout(text, 0, toks)
  }

  // A text that the lexer takes as one unit wherever it stands.
  predicate Solid(t: string) {
    t != "" && !IsSpace(t[0])
  }

  lemma {:induction false} LayoutOfTail(a: string, b: string, pos: nat, toks: seq<string>)
    requires pos <= |b|
    ensures Layout(a + b, |a| + pos, toks) == Layout(b, pos, toks)
    decreases |b| - pos
  {
    var doc := a + b;
    if pos < |b| {
      assert doc[|a| + pos] == b[pos];
    }
    if pos < |b| && IsSpace(b[pos]) {
      LayoutOfTail(a, b, pos + 1, toks);
    } else if toks != [] && toks[0] != "" && pos + |toks[0]| <= |b| {
      assert doc[|a| + pos..|a| + pos + |toks[0]|] == b[pos..pos + |toks[0]|];
      LayoutOfTail(a, b, pos + |toks[0]|, toks[1..]);
    }
  }

  // Laid-out texts can be put one after the other.
  lemma {:induction false} LayoutJoins(a: string, pos: nat, x: seq<string>, b: string, y: seq<string>)
    requires pos <= |a| && Layout(a, pos, x) && Laid(b, y)
    ensures Layout(a + b, pos, x + y)
    decreases |a| - pos
  {
    var doc := a + b;
    if pos < |a| { assert doc[pos] == a[pos]; }
    if pos < |a| && IsSpace(a[pos]) {
      LayoutJoins(a, pos + 1, x, b, y);
    } else if x == [] {
      assert x + y == y;
      LayoutOfTail(a, b, 0, y);
    } else {
      LayoutJoins(a, pos + |x[0]|, x[1..], b, y);
      assert doc[pos..pos + |x[0]|] == a[pos..pos + |x[0]|];
      assert (x + y)[1..] == x[1..] + y;
    }
  }

  lemma TokenIsLaid(t: string)
    requires Solid(t)
    ensures Laid(t, [t])
  {
    assert t[0..|t|] == t;
    assert [t][1..] == [];
  }

  predicate AllSpace(s: string) {
    s != "" ==> IsSpace(s[0]) && AllSpace(s[1..])
  }

  lemma {:induction false} SpaceIsLaid(s: string)
    requires AllSpace(s)
    ensures Laid(s, [])
    decreases |s|
  {
    if s != "" {
      SpaceIsLaid(s[1..]);
      assert s == [s[0]] + s[1..];
      LayoutOfTail([s[0]], s[1..], 0, []);
    }
  }

  // What a document lays out after a token, or white space, is appended.
  lemma AppendToken(doc: string, toks: seq<string>, t: string)
    requires Laid(doc, toks) && Solid(t)
    ensures Laid(doc + t, toks + [t])
  {
    TokenIsLaid(t);
    LayoutJoins(doc, 0, toks, t, [t]);
  }

  lemma AppendSpace(doc: string, toks: seq<string>, s: string)
    requires Laid(doc, toks) && AllSpace(s)
    ensures Laid(doc + s, toks)
  {
    SpaceIsLaid(s);
    LayoutJoins(doc, 0, toks, s, []);
    assert toks + [] == toks;
  }

  // Tokens one after the other; in YAML mode the separator takes a blank.
  function Flat(toks: seq<string>, yaml: bool): string {
    if toks == [] then "" else Spelled(toks[0], yaml) + Flat(toks[1..], yaml)
  }

  function Spelled(t: string, yaml: bool): string {
    if yaml && t == ":" then ": " else t
  }

  lemma {:induction false} FlatJoins(a: seq<string>, b: seq<string>, yaml: bool)
    ensures Flat(a + b, yaml) == Flat(a, yaml) + Flat(b, yaml)
    decreases |a|
  {
    if a == [] {
      assert a + b == b;
    } else {
      assert (a + b)[1..] == a[1..] + b;
      FlatJoins(a[1..], b, yaml);
    }
  }

  // Each token stands right after the one before it, with nothing between them but, in YAML
  // mode, one blank after each colon.
  lemma FlatAt(toks: seq<string>, k: nat, yaml: bool)
    requires k < |toks|
    ensures var text, t, at := Flat(toks, yaml), toks[k], |Flat(toks[..k], yaml)|;
            var blank := if yaml && t == [':'] then " " else "";
            && at + |t| + |blank| == |Flat(toks[..k + 1], yaml)| <= |text|
            && text[at..at + |t|] == t && text[at + |t|..at + |t| + |blank|] == blank
    ensures Flat(toks[..0], yaml) == "" && Flat(toks[..|toks|], yaml) == Flat(toks, yaml)
  {
    var before, t, after := toks[..k], toks[k], toks[k + 1..];
    assert toks[..k + 1] == before + [t] && toks == (before + [t]) + after && toks[..|toks|] == toks;
    FlatJoins(before, [t], yaml);
    FlatJoins(before + [t], after, yaml);
    assert Flat([t], yaml) == Spelled(t, yaml) + Flat([], yaml);
    var at := |Flat(before, yaml)|;
    assert Flat(toks, yaml)[at..at + |Spelled(t, yaml)|] == Spelled(t, yaml);
    assert yaml && t == ":" ==> Spelled(t, yaml)[1..2] == " ";
    hide Flat;
  }

  predicate AllSolid(toks: seq<string>) {
    toks != [] ==> Solid(toks[0]) && AllSolid(toks[1..])
  }

  lemma {:induction false} AllSolidJoins(a: seq<string>, b: seq<string>)
    ensures AllSolid(a + b) <==> AllSolid(a) && AllSolid(b)
    decreases |a|
  {
    if a == [] {
      assert a + b == b;
    } else {
      assert (a + b)[1..] == a[1..] + b;
      AllSolidJoins(a[1..], b);
    }
  }

  lemma {:induction false} FlatIsLaid(toks: seq<string>, yaml: bool)
    requires AllSolid(toks)
    ensures Laid(Flat(toks, yaml), toks)
    decreases |toks|
  {
    if toks != [] {
      var t, rest := toks[0], toks[1..];
      FlatIsLaid(rest, yaml);
      TokenIsLaid(t);
      AppendSpace(t, [t], if yaml && t == ":" then " " else "");
      assert Spelled(t, yaml) == t + if yaml && t == ":" then " " else "";
      LayoutJoins(Spelled(t, yaml), 0, [t], Flat(rest, yaml), rest);
      assert [t] + rest == toks;
    }
  }

  lemma {:induction false} TokensAreSolid(v: Value)
    requires Printable(v)
    ensures AllSolid(Tokens(v))
    decreases v, 1
  {
    hide ItemTokens, MemberTokens, AllSolid;
    if v.Array? {
      ItemTokensAreSolid(v.items, 0);
      EnclosedAreSolid("[", ItemTokens(v.items, 0), "]");
    } else if v.Object? {
      MemberTokensAreSolid(v.members);
      EnclosedAreSolid("{", MemberTokens(v.members), "}");
    } else {
      LeafIsSolid(v);
    }
  }

  lemma EnclosedAreSolid(open: string, toks: seq<string>, close: string)
    requires |open| == 1 && !IsSpace(open[0]) && |close| == 1 && !IsSpace(close[0]) && AllSolid(toks)
    ensures AllSolid([open] + toks + [close])
  {
    assert Solid(open) && Solid(close);
    hide Solid;
    AllSolidJoins([open], toks);
    AllSolidJoins([open] + toks, [close]);
  }

  lemma LeafIsSolid(v: Value)
    requires Printable(v) && !v.Array? && !v.Object?
    ensures AllSolid(Tokens(v))
  {
    match v
    case Int(i) => IntegerTextShape(i);
    case UInt(u) => IntegerTextShape(u);
    case _ =>
  }

  lemma {:induction false} ItemTokensAreSolid(e: Entries, k: nat)
    requires PrintableEntries(e)
    ensures AllSolid(ItemTokens(e, k))
    decreases e, Gap(e, k), 1
  {
    if e.Entry? {
      if Gap(e, k) > 0 {
        ItemTokensAreSolid(e, k + 1);
        AllSolidJoins(["null", ","], ItemTokens(e, k + 1));
      } else {
        TokensAreSolid(e.value);
        ItemTokensAreSolid(e.rest, k + 1);
        AllSolidJoins([","], ItemTokens(e.rest, k + 1));
        AllSolidJoins(Tokens(e.value), if e.rest.End? then [] else [","] + ItemTokens(e.rest, k + 1));
      }
    }
  }

  lemma {:induction false} MemberTokensAreSolid(e: Entries)
    requires PrintableEntries(e)
    ensures AllSolid(MemberTokens(e))
    decreases e, 1
  {
    if e.Entry? {
      var tail := if e.rest.End? then [] else [","] + MemberTokens(e.rest);
      TokensAreSolid(e.value);
      MemberTokensAreSolid(e.rest);
      AllSolidJoins([","], MemberTokens(e.rest));
      AllSolidJoins(Tokens(e.value), tail);
      AllSolidJoins([Quote(NameOf(e.key)), ":"], Tokens(e.value) + tail);
      assert MemberTokens(e) == [Quote(NameOf(e.key)), ":"] + (Tokens(e.value) + tail);
    }
  }

  // ---------------------------------------------------------- concatenation

  lemma ConcatIsAssociative<T>(a: seq<T>, b: seq<T>, c: seq<T>)
    ensures (a + b) + c == a + (b + c) && a + [] == a && [] + a == a
  {
  }

  // What is written and what is left make up the whole.
  predicate Makes<T(==)>(written: seq<T>, left: seq<T>, all: seq<T>) {
    written + left == all
  }

  lemma MakesAll<T>(written: seq<T>, left: seq<T>, all: seq<T>)
    requires Makes(written, left, all)
    ensures written + left == all
  {
  }

  lemma MakesStep<T>(written: seq<T>, next: seq<T>, left: seq<T>, all: seq<T>)
    requires Makes(written, next + left, all)
    ensures Makes(written + next, left, all)
  {
    ConcatIsAssociative(written, next, left);
  }

  // ---------------------------------------------------------------- walking

  // The entries of an array from index k on.
  ghost function From(e: Entries, k: nat): Entries {
    if e.End? || !e.key.Index? || e.key.index >= k then e else From(e.rest, k)
  }

  // Walking an array by index: what stands at index k, and what is left after it.
  lemma {:induction false} IndexWalk(e: Entries, k: nat)
    requires AllIndexes(e) && Ascending(e)
    ensures var f := From(e, k);
            && (f.Entry? <==> k < ArraySize(e))
            && AllIndexes(f) && Ascending(f) && (f.Entry? ==> f.key.index >= k)
            && Lookup(e, Index(k)) == (if f.Entry? && f.key.index == k then f.value else Null)
            && From(e, k + 1) == (if f.Entry? && f.key.index == k then f.rest else f)
    decreases e
  {
    if e.Entry? {
      IndexWalk(e.rest, k);
      if e.key.index >= k { AboveFirst(e, k); }
      LastIndexBounds(e);
    }
  }

  lemma {:induction false} LastIndexBounds(e: Entries)
    requires e.Entry? && AllIndexes(e) && Ascending(e)
    ensures ArraySize(e) > e.key.index
    decreases e
  {
    if e.rest.Entry? { LastIndexBounds(e.rest); }
  }

  // Nothing smaller than the first index is found; dropping nothing changes nothing.
  lemma {:induction false} AboveFirst(e: Entries, k: nat)
    requires e.Entry? && AllIndexes(e) && Ascending(e) && e.key.index >= k
    ensures e.key.index > k ==> Lookup(e, Index(k)) == Null && From(e, k + 1) == e
    ensures e.key.index == k ==> From(e, k + 1) == e.rest
    decreases e
  {
    if e.rest.Entry? { AboveFirst(e.rest, k); }
  }

  // The tokens of an array still to be written before index k: a comma first, unless k is 0.
  ghost function ItemsLeft(items: Entries, k: nat): seq<string> {
    if k == 0 then ItemTokens(items, 0)
    else if From(items, k).End? then []
    else [","] + ItemTokens(From(items, k), k)
  }

  lemma SeparatorJoins(first: bool, sep: seq<string>, a: seq<string>, b: seq<string>)
    ensures (if first then [] else sep) + a + b == if first then a + b else sep + (a + b)
    ensures a + [] == a && [] + a == a
  {
    assert [] + a + b == a + b;
    assert sep + a + b == sep + (a + b);
  }

  lemma OneGap(rest: seq<string>)
    ensures ["null", ","] + rest == ["null"] + ([","] + rest)
  {
  }

  // The tokens from index k on begin with those of the element that is looked up there.
  lemma ItemHere(items: Entries, k: nat)
    requires AllIndexes(items) && Ascending(items) && k < ArraySize(items)
    ensures From(items, k).Entry?
    ensures ItemTokens(From(items, k), k) == Tokens(Lookup(items, Index(k))) + ItemsLeft(items, k + 1)
  {
    hide From, Lookup, ArraySize, Ascending;
    IndexWalk(items, k);
    var f := From(items, k);
    if f.key.index == k {
      SeparatorJoins(true, [], Tokens(f.value), []);
    } else {
      OneGap(ItemTokens(f, k + 1));
    }
  }

  // One element: its separator, its own tokens, and what is left.
  lemma ItemLeft(items: Entries, k: nat)
    requires AllIndexes(items) && Ascending(items) && k < ArraySize(items)
    ensures
      ItemsLeft(items, k) ==
      (if k == 0 then [] else [","]) + Tokens(Lookup(items, Index(k))) + ItemsLeft(items, k + 1)
  {
    assert From(items, 0) == items;
    ItemHere(items, k);
    SeparatorJoins(k == 0, [","], Tokens(Lookup(items, Index(k))), ItemsLeft(items, k + 1));
    hide From, Tokens, ItemTokens, Lookup;
  }

  lemma NoItemLeft(items: Entries)
    requires AllIndexes(items) && Ascending(items)
    ensures ItemsLeft(items, ArraySize(items)) == []
  {
    IndexWalk(items, ArraySize(items));
  }

  // getMemberNames
  function MemberNames(e: Entries): (names: seq<string>)
    ensures |names| == Count(e)
  {
    if e.End? then [] else [NameOf(e.key)] + MemberNames(e.rest)
  }

  // Looking the i-th name up finds the i-th entry.
  lemma {:induction false} NameWalk(e: Entries, i: nat)
    requires AllNames(e) && Ascending(e) && i < Count(e)
    ensures var d := Drop(e, i);
            && d.Entry? && MemberNames(e)[i] == NameOf(d.key) && d.key == Name(MemberNames(e)[i])
            && Drop(e, i + 1) == d.rest && Lookup(e, d.key) == d.value && (i > 0 ==> KeyLess(e.key, d.key))
    decreases i
  {
    if i > 0 {
      NameWalk(e.rest, i - 1);
      var d := Drop(e, i);
      if i > 1 { JsonOrder.KeyTransitive(e.key, e.rest.key, d.key); }
      JsonOrder.KeyTrichotomy(e.key, d.key);
    }
  }

  lemma {:induction false} DropAll(e: Entries)
    ensures Drop(e, Count(e)) == End
    decreases e
  {
    if e.Entry? { DropAll(e.rest); }
  }

  ghost function MembersLeft(e: Entries, i: nat): seq<string>
    requires i <= Count(e)
  {
    var d := Drop(e, i);
    if i == 0 then MemberTokens(e) else if d.End? then [] else [","] + MemberTokens(d)
  }

  lemma MemberLeft(e: Entries, i: nat)
    requires AllNames(e) && Ascending(e) && i < Count(e)
    ensures
      MembersLeft(e, i) ==
      (if i == 0 then [] else [","])
      + ([Quote(MemberNames(e)[i]), ":"] + Tokens(Lookup(e, Name(MemberNames(e)[i]))))
      + MembersLeft(e, i + 1)
  {
    NameWalk(e, i);
    var d := Drop(e, i);
    var head := [Quote(NameOf(d.key)), ":"] + Tokens(d.value);
    assert MemberTokens(d) == head + MembersLeft(e, i + 1);
    SeparatorJoins(i == 0, [","], head, MembersLeft(e, i + 1));
    hide Tokens, MemberTokens, Lookup, Quote, Ascending, AllNames;
  }

  lemma NoMemberLeft(e: Entries)
    ensures MembersLeft(e, Count(e)) == []
  {
    DropAll(e);
  }

  // A child found by lookup is smaller than its container.
  lemma {:induction false} LookupIsSmaller(e: Entries, k: Key)
    requires e.Entry?
    ensures Nodes(Lookup(e, k)) < NodesIn(e)
    decreases e
  {
    if e.rest.Entry? { LookupIsSmaller(e.rest, k); }
  }

  // A child found by lookup is smaller and keeps what its container promises.
  lemma {:induction false} ChildKeeps(e: Entries, k: Key)
    requires e.Entry? && WellFormedEntries(e) && PrintableEntries(e)
    ensures Nodes(Lookup(e, k)) < NodesIn(e)
    ensures WellFormed(Lookup(e, k)) && Printable(Lookup(e, k))
    decreases e
  {
    if e.rest.Entry? { ChildKeeps(e.rest, k); }
  }
}
