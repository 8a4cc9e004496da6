// The layout that StyledWriter keeps, stated on values: an object that is not empty
// takes one line a member, and an array stays on one line when its elements are single
// pieces that fit the right margin. The proof that this layout holds the value's tokens.

module JsonPretty {
  import opened JsonValue
  import opened JsonText
  import opened JsonNumber
  import opened JsonLayout
  import opened JsonPrint

  const RIGHT_MARGIN := 74

  // ---------------------------------------------------------------- layout

  function Deeper(indent: string): string { indent + "   " }

  function NewLine(indent: string): string { "\n" + indent }

  // Everything but an array or an object with something in it.
  predicate OnePiece(v: Value) {
    (v.Array? || v.Object?) ==> Size(v) == 0
  }

  function OneText(v: Value): string {
    match v
    case Null => "null"
    case Int(i) => IntegerText(i)
    case UInt(u) => IntegerText(u)
    case Bool(b) => if b then "true" else "false"
    case Str(Chars(s)) => Quote(s)
    case Array(_) => "[]"
    case Object(_) => "{}"
    case _ => ""
  }

  // The elements from index k on, on one line.
  function LineText(items: Entries, k: nat): string
    requires k < ArraySize(items)
    decreases ArraySize(items) - k
  {
    OneText(Lookup(items, Index(k))) + if k + 1 == ArraySize(items) then " ]" else ", " + LineText(items, k + 1)
  }

  predicate PiecesBefore(items: Entries, n: nat) {
    forall i :: 0 <= i < n ==> OnePiece(Lookup(items, Index(i)))
  }

  predicate AllPieces(items: Entries) {
    PiecesBefore(items, ArraySize(items))
  }

  lemma NextPiece(items: Entries, n: nat)
    ensures PiecesBefore(items, 0)
    ensures PiecesBefore(items, n + 1) <==> PiecesBefore(items, n) && OnePiece(Lookup(items, Index(n)))
    ensures !PiecesBefore(items, n) && n <= ArraySize(items) ==> !AllPieces(items)
  {
    hide OnePiece, Lookup, ArraySize;
  }

  lemma PieceAt(items: Entries, k: nat)
    requires AllPieces(items) && k < ArraySize(items)
    ensures OnePiece(Lookup(items, Index(k)))
  {
    hide OnePiece, Lookup, ArraySize;
  }

  lemma PiecesAre(items: Entries)
    ensures AllPieces(items) <==> PiecesBefore(items, ArraySize(items))
  {
    hide PiecesBefore;
  }

  predicate OneLine(items: Entries)
    requires ArraySize(items) > 0
  {
    AllPieces(items) && |"[ " + LineText(items, 0)| < RIGHT_MARGIN
  }

  // A value that begins at the end of a line whose indentation is indent.
  ghost function Pretty(v: Value, indent: string): string
    decreases Nodes(v), 0
  {
    if OnePiece(v) then OneText(v)
    else if v.Array? then
      if OneLine(v.items) then "[ " + LineText(v.items, 0) else "[" + ItemLines(v.items, 0, indent)
    else "{" + MemberLines(v.members, 0, indent)
  }

  // The elements from index k on, one a line, and the closing bracket.
  ghost function ItemLines(items: Entries, k: nat, indent: string): string
    requires k < ArraySize(items)
    decreases NodesIn(items), ArraySize(items) - k
  {
    LookupIsSmaller(items, Index(k));
    NewLine(Deeper(indent)) + Pretty(Lookup(items, Index(k)), Deeper(indent))
    + if k + 1 == ArraySize(items) then NewLine(indent) + "]" else "," + ItemLines(items, k + 1, indent)
  }

  // The members from the i-th on, one a line, and the closing brace.
  ghost function MemberLines(members: Entries, i: nat, indent: string): string
    requires i < Count(members)
    decreases NodesIn(members), Count(members) - i
  {
    var name := MemberNames(members)[i];
    LookupIsSmaller(members, Name(name));
    NewLine(Deeper(indent)) + Quote(name) + " : " + Pretty(Lookup(members, Name(name)), Deeper(indent))
    + if i + 1 == Count(members) then NewLine(indent) + "}" else "," + MemberLines(members, i + 1, indent)
  }

  // ------------------------------------------------------------ line breaks

  // Text after which the indentation starts a line of its own.
  predicate Settled(doc: string) {
    doc != "" && doc[|doc| - 1] != ' ' && doc[|doc| - 1] != '\n'
  }

  // A document on whose last line something is to be written with the indentation.
  function Indented(doc: string, indent: string): string {
    if doc == "" then indent
    else if doc[|doc| - 1] == ' ' then doc
    else if doc[|doc| - 1] == '\n' then doc + indent
    else doc + NewLine(indent)
  }

  predicate Ready(doc: string, indent: string) { Indented(doc, indent) == doc }

  lemma SettledAfter(doc: string, t: string)
    requires Settled(t)
    ensures Settled(doc + t)
  {
    assert (doc + t)[|doc + t| - 1] == t[|t| - 1];
  }

  lemma ReadyAfter(doc: string, indent: string, deeper: string)
    ensures Ready((doc + NewLine(Deeper(indent))), deeper) && Ready(doc + " : ", deeper)
  {
    var d := doc + NewLine(Deeper(indent));
    assert d[|d| - 1] == Deeper(indent)[|indent| + 2] == ' ';
    assert (doc + " : ")[|doc| + 2] == ' ';
  }

  lemma OneTextSettled(v: Value)
    requires Printable(v)
    ensures Settled(OneText(v))
  {
    match v
    case Int(i) => IntegerTextShape(i);
    case UInt(u) => IntegerTextShape(u);
    case _ =>
  }

  lemma {:induction false} LineTextSettled(items: Entries, k: nat)
    requires k < ArraySize(items)
    ensures Settled(LineText(items, k))
    decreases ArraySize(items) - k
  {
    var text := OneText(Lookup(items, Index(k)));
    if k + 1 == ArraySize(items) {
      SettledAfter(text, " ]");
    } else {
      LineTextSettled(items, k + 1);
      SettledAfter(", ", LineText(items, k + 1));
      SettledAfter(text, ", " + LineText(items, k + 1));
    }
  }

  lemma {:induction false} ItemLinesSettled(items: Entries, k: nat, indent: string)
    requires k < ArraySize(items)
    ensures Settled(ItemLines(items, k, indent))
    decreases ArraySize(items) - k
  {
    var text := NewLine(Deeper(indent)) + Pretty(Lookup(items, Index(k)), Deeper(indent));
    if k + 1 == ArraySize(items) {
      SettledAfter(NewLine(indent), "]");
      SettledAfter(text, NewLine(indent) + "]");
    } else {
      ItemLinesSettled(items, k + 1, indent);
      SettledAfter(",", ItemLines(items, k + 1, indent));
      SettledAfter(text, "," + ItemLines(items, k + 1, indent));
    }
  }

  lemma {:induction false} MemberLinesSettled(members: Entries, i: nat, indent: string)
    requires i < Count(members)
    ensures Settled(MemberLines(members, i, indent))
    decreases Count(members) - i
  {
    var name := MemberNames(members)[i];
    var text := NewLine(Deeper(indent)) + Quote(name) + " : " + Pretty(Lookup(members, Name(name)), Deeper(indent));
    if i + 1 == Count(members) {
      SettledAfter(NewLine(indent), "}");
      SettledAfter(text, NewLine(indent) + "}");
    } else {
      MemberLinesSettled(members, i + 1, indent);
      SettledAfter(",", MemberLines(members, i + 1, indent));
      SettledAfter(text, "," + MemberLines(members, i + 1, indent));
    }
  }

  // A laid-out value never ends in white space, so what follows it takes a line of its own.
  lemma PrettySettled(v: Value, indent: string)
    requires Printable(v)
    ensures Settled(Pretty(v, indent))
  {
    if OnePiece(v) {
      OneTextSettled(v);
    } else if v.Array? {
      LineTextSettled(v.items, 0);
      ItemLinesSettled(v.items, 0, indent);
      SettledAfter("[ ", LineText(v.items, 0));
      SettledAfter("[", ItemLines(v.items, 0, indent));
    } else {
      MemberLinesSettled(v.members, 0, indent);
      SettledAfter("{", MemberLines(v.members, 0, indent));
    }
  }

  // ------------------------------------------------------------ line length

  function TotalLength(cs: seq<string>): nat {
    if cs == [] then 0 else TotalLength(cs[..|cs| - 1]) + |cs[|cs| - 1]|
  }

  // '[ ' + ', ' * (n - 1) + ' ]' and the elements
  function LineLength(cs: seq<string>): int {
    4 + (|cs| - 1) * 2 + TotalLength(cs)
  }

  // The texts of the first n elements.
  function Texts(items: Entries, n: nat): seq<string> {
    if n == 0 then [] else Texts(items, n - 1) + [OneText(Lookup(items, Index(n - 1)))]
  }

  lemma {:induction false} TextsAt(items: Entries, n: nat)
    ensures |Texts(items, n)| == n
    ensures forall i :: 0 <= i < n ==> Texts(items, n)[i] == OneText(Lookup(items, Index(i)))
  {
    if n > 0 { TextsAt(items, n - 1); }
  }

  lemma NoTexts(items: Entries)
    ensures Texts(items, 0) == [] && TotalLength([]) == 0
  {
  }

  lemma TextsGrow(items: Entries, n: nat)
    ensures Texts(items, n + 1) == Texts(items, n) + [OneText(Lookup(items, Index(n)))]
    ensures TotalLength(Texts(items, n + 1)) == TotalLength(Texts(items, n)) + |OneText(Lookup(items, Index(n)))|
  {
    TextsAt(items, n);
    var cs := Texts(items, n + 1);
    assert cs[..|cs| - 1] == Texts(items, n);
  }

  lemma {:induction false} LineTextLength(items: Entries, k: nat)
    requires k < ArraySize(items)
    ensures |LineText(items, k)| ==
            2 * (ArraySize(items) - k) + TotalLength(Texts(items, ArraySize(items))) - TotalLength(Texts(items, k))
    decreases ArraySize(items) - k
  {
    hide OneText, Texts, TotalLength, Lookup, ArraySize;
    TextsGrow(items, k);
    if k + 1 < ArraySize(items) { LineTextLength(items, k + 1); }
  }

  lemma {:induction false} TextsFill(items: Entries, n: nat)
    requires PrintableEntries(items)
    ensures TotalLength(Texts(items, n)) >= n
  {
    if n > 0 {
      hide Texts, TotalLength, OneText, Lookup, Printable, PrintableEntries;
      TextsFill(items, n - 1);
      TextsGrow(items, n - 1);
      LookupPrintable(items, Index(n - 1));
      OneTextSettled(Lookup(items, Index(n - 1)));
    }
  }

  lemma {:induction false} LookupPrintable(e: Entries, k: Key)
    requires PrintableEntries(e)
    ensures Printable(Lookup(e, k))
    decreases e
  {
    if e.Entry? { LookupPrintable(e.rest, k); }
  }

  // The length that the writer adds up is that of the line, and an array whose elements
  // alone are too many for the margin never fits.
  lemma OneLineIff(items: Entries)
    requires ArraySize(items) > 0 && PrintableEntries(items)
    ensures OneLine(items) <==>
            && ArraySize(items) * 3 < RIGHT_MARGIN && AllPieces(items)
            && LineLength(Texts(items, ArraySize(items))) < RIGHT_MARGIN
    ensures |"[ " + LineText(items, 0)| == LineLength(Texts(items, ArraySize(items)))
  {
    LineTextLength(items, 0);
    TextsAt(items, ArraySize(items));
    TextsFill(items, ArraySize(items));
  }

  // --------------------------------------------------------- the other reading

  predicate HoldsObject(items: Entries) {
    exists i :: 0 <= i < ArraySize(items) && Lookup(items, Index(i)).Object?
  }

  // Taken word by word, the description of the writer asks for several lines as soon as an
  // array holds an object, empty or not, or an array that is not empty.
  predicate OneLineByWord(items: Entries)
    requires ArraySize(items) > 0
  {
    && |"[ " + LineText(items, 0)| < 74
    && !HoldsObject(items)
    && forall i :: 0 <= i < ArraySize(items) ==>
         var v := Lookup(items, Index(i)); v.Array? ==> ArraySize(v.items) == 0
  }

  // The writer differs from that exactly on the arrays that fit and hold an empty object,
  // and nothing larger.
  lemma ReadingsDifferIff(items: Entries)
    requires ArraySize(items) > 0
    ensures OneLine(items) != OneLineByWord(items) <==> OneLine(items) && HoldsObject(items)
  {
    hide LineText, ArraySize;
    PiecesAre(items);
    forall i | 0 <= i < ArraySize(items)
      ensures var v := Lookup(items, Index(i));
              !v.Object? ==> (OnePiece(v) <==> (v.Array? ==> ArraySize(v.items) == 0))
    {
    }
    hide OnePiece;
  }

  // The least such value, an array of one empty object, is written on one line, where the
  // description taken word by word gives three.
  lemma EmptyObjectOnOneLine(indent: string)
    ensures var items := Entry(Index(0), Object(End), End);
            && Pretty(Array(items), indent) == "[ {} ]"
            && !OneLineByWord(items)
            && "[" + ItemLines(items, 0, indent) == "[\n" + indent + "   " + "{}" + "\n" + indent + "]"
  {
    var items := Entry(Index(0), Object(End), End);
    assert ArraySize(items) == 1 && Lookup(items, Index(0)) == Object(End);
    assert LineText(items, 0) == "{} ]" && "[ " + "{} ]" == "[ {} ]";
    assert OneLine(items);
    assert Lookup(items, Index(0)).Object?;
    assert Pretty(Object(End), Deeper(indent)) == "{}";
    assert ItemLines(items, 0, indent) == (NewLine(Deeper(indent)) + "{}") + (NewLine(indent) + "]");
  }

  // ----------------------------------------------------------------- tokens

  // The tokens of an array from index k to its end, without a leading comma.
  ghost function ItemsHere(items: Entries, k: nat): seq<string> {
    ItemTokens(From(items, k), k) + ["]"]
  }

  ghost function MembersHere(members: Entries, i: nat): seq<string>
    requires i <= Count(members)
  {
    MemberTokens(Drop(members, i)) + ["}"]
  }

  lemma ItemsHereStart(items: Entries)
    ensures Tokens(Array(items)) == ["["] + ItemsHere(items, 0)
  {
    assert From(items, 0) == items;
    ConcatIsAssociative(["["], ItemTokens(items, 0), ["]"]);
  }

  lemma ItemsHereIs(items: Entries, k: nat)
    requires WellFormed(Array(items)) && PrintableEntries(items) && k < ArraySize(items)
    ensures var child := Lookup(items, Index(k));
            && WellFormed(child) && Printable(child) && Nodes(child) < NodesIn(items)
            && ItemsHere(items, k) ==
               Tokens(child) + if k + 1 == ArraySize(items) then ["]"] else [","] + ItemsHere(items, k + 1)
  {
    var child := Lookup(items, Index(k));
    ChildKeeps(items, Index(k));
    ItemHere(items, k);
    IndexWalk(items, k + 1);
    hide Tokens, ItemTokens, Lookup, From;
    ConcatIsAssociative(Tokens(child), ItemsLeft(items, k + 1), ["]"]);
    ConcatIsAssociative([","], ItemTokens(From(items, k + 1), k + 1), ["]"]);
    ConcatIsAssociative(["]"], [], []);
  }

  lemma MembersHereStart(members: Entries)
    ensures Tokens(Object(members)) == ["{"] + MembersHere(members, 0)
  {
    ConcatIsAssociative(["{"], MemberTokens(members), ["}"]);
  }

  lemma TokensFrom(members: Entries, i: nat)
    requires AllNames(members) && Ascending(members) && i < Count(members)
    ensures var name := MemberNames(members)[i];
            MemberTokens(Drop(members, i)) ==
            ([Quote(name), ":"] + Tokens(Lookup(members, Name(name))))
            + if i + 1 == Count(members) then [] else [","] + MemberTokens(Drop(members, i + 1))
  {
    hide Drop, Tokens, Lookup, Quote, MemberNames, AllNames, Ascending, Count;
    NameWalk(members, i);
    DropAll(members);
    if i + 1 < Count(members) { NameWalk(members, i + 1); }
  }

  lemma MembersHereIs(members: Entries, i: nat)
    requires WellFormed(Object(members)) && PrintableEntries(members) && i < Count(members)
    ensures var name := MemberNames(members)[i];
            var child := Lookup(members, Name(name));
            && WellFormed(child) && Printable(child) && Nodes(child) < NodesIn(members)
            && MembersHere(members, i) ==
               ([Quote(name)] + [":"] + Tokens(child))
               + if i + 1 == Count(members) then ["}"] else [","] + MembersHere(members, i + 1)
  {
    hide Drop, Tokens, MemberTokens, Lookup, Quote, MemberNames, Printable, PrintableEntries, Nodes, NodesIn;
    var name := MemberNames(members)[i];
    var child, rest := Lookup(members, Name(name)), Drop(members, i + 1);
    ChildKeeps(members, Name(name));
    TokensFrom(members, i);
    var left := if i + 1 == Count(members) then [] else [","] + MemberTokens(rest);
    assert [Quote(name)] + [":"] == [Quote(name), ":"];
    ConcatIsAssociative([Quote(name), ":"] + Tokens(child), left, ["}"]);
    ConcatIsAssociative([","], MemberTokens(rest), ["}"]);
    ConcatIsAssociative(["}"], [], []);
  }

  lemma EmptyArray(items: Entries)
    requires AllIndexes(items) && ArraySize(items) == 0
    ensures items == End
  {
    if items.Entry? { SomeSize(items); }
  }

  lemma {:induction false} SomeSize(e: Entries)
    requires e.Entry? && AllIndexes(e)
    ensures ArraySize(e) > 0
  {
    if e.rest.Entry? { SomeSize(e.rest); }
  }

  lemma BracketsAreLaid()
    ensures Laid("[]", Tokens(Array(End))) && Laid("{}", Tokens(Object(End)))
    ensures Laid("null", ["null"]) && Laid("true", ["true"]) && Laid("false", ["false"])
  {
    TokenIsLaid("[");
    TokenIsLaid("{");
    AppendToken("[", ["["], "]");
    AppendToken("{", ["{"], "}");
    assert "[" + "]" == "[]" && "{" + "}" == "{}";
    assert ["["] + ["]"] == Tokens(Array(End)) && ["{"] + ["}"] == Tokens(Object(End));
    TokenIsLaid("null");
    TokenIsLaid("true");
    TokenIsLaid("false");
  }

  lemma LaidJoins(a: string, x: seq<string>, b: string, y: seq<string>)
    requires Laid(a, x) && Laid(b, y)
    ensures Laid(a + b, x + y)
  {
    LayoutJoins(a, 0, x, b, y);
  }

  lemma LeadSpace(s: string, b: string, y: seq<string>)
    requires AllSpace(s) && Laid(b, y)
    ensures Laid(s + b, y)
  {
    SpaceIsLaid(s);
    LaidJoins(s, [], b, y);
    assert [] + y == y;
  }

  lemma {:induction false} SpacesJoin(a: string, b: string)
    ensures AllSpace(a + b) <==> AllSpace(a) && AllSpace(b)
    decreases |a|
  {
    if a == "" {
      assert a + b == b;
    } else {
      assert (a + b)[1..] == a[1..] + b;
      SpacesJoin(a[1..], b);
    }
  }

  lemma Blanks(indent: string)
    requires AllSpace(indent)
    ensures AllSpace(Deeper(indent)) && AllSpace(NewLine(indent)) && AllSpace(NewLine(Deeper(indent)))
    ensures AllSpace(" ") && AllSpace("")
  {
    assert " "[1..] == "" && "\n"[1..] == "";
    assert "   "[1..] == "  " && "  "[1..] == " ";
    SpacesJoin(indent, "   ");
    SpacesJoin("\n", indent);
    SpacesJoin("\n", Deeper(indent));
  }

  lemma MarksAreLaid()
    ensures Laid("[ ", ["["]) && Laid(", ", [","]) && Laid(" ]", ["]"]) && Laid(" : ", [":"])
    ensures Laid("[", ["["]) && Laid("]", ["]"]) && Laid("{", ["{"]) && Laid("}", ["}"]) && Laid(",", [","])
  {
    Blanks("");
    TokenIsLaid("[");
    TokenIsLaid("]");
    TokenIsLaid("{");
    TokenIsLaid("}");
    TokenIsLaid(",");
    TokenIsLaid(":");
    hide Laid, AllSpace;
    AppendSpace("[", ["["], " ");
    AppendSpace(",", [","], " ");
    AppendSpace(":", [":"], " ");
    LeadSpace(" ", "]", ["]"]);
    LeadSpace(" ", ": ", [":"]);
    assert "[" + " " == "[ " && "," + " " == ", " && ":" + " " == ": " && " " + "]" == " ]" && " " + ": " == " : ";
  }

  lemma OneTextIsLaid(v: Value)
    requires WellFormed(v) && Printable(v) && OnePiece(v)
    ensures Laid(OneText(v), Tokens(v))
  {
    BracketsAreLaid();
    match v
    case Int(i) => IntegerTextShape(i); TokenIsLaid(IntegerText(i));
    case UInt(u) => IntegerTextShape(u); TokenIsLaid(IntegerText(u));
    case Str(s) => TokenIsLaid(Quote(s.text));
    case Array(items) => EmptyArray(items);
    case _ =>
  }

  lemma PieceIsLaid(items: Entries, k: nat)
    requires WellFormed(Array(items)) && PrintableEntries(items) && k < ArraySize(items) && AllPieces(items)
    ensures Laid(OneText(Lookup(items, Index(k))), Tokens(Lookup(items, Index(k))))
  {
    ItemsHereIs(items, k);
    PieceAt(items, k);
    OneTextIsLaid(Lookup(items, Index(k)));
  }

  lemma {:induction false} LineIsLaid(items: Entries, k: nat)
    requires WellFormed(Array(items)) && PrintableEntries(items) && k < ArraySize(items) && AllPieces(items)
    ensures Laid(LineText(items, k), ItemsHere(items, k))
    decreases ArraySize(items) - k
  {
    hide Laid, ItemsHere, Tokens, Lookup, OneText, ArraySize, WellFormed, Printable, PrintableEntries, AllPieces;
    var child := Lookup(items, Index(k));
    ItemsHereIs(items, k);
    PieceIsLaid(items, k);
    MarksAreLaid();
    if k + 1 == ArraySize(items) {
      LaidJoins(OneText(child), Tokens(child), " ]", ["]"]);
    } else {
      LineIsLaid(items, k + 1);
      LaidJoins(", ", [","], LineText(items, k + 1), ItemsHere(items, k + 1));
      LaidJoins(OneText(child), Tokens(child), ", " + LineText(items, k + 1), [","] + ItemsHere(items, k + 1));
    }
  }

  lemma {:induction false} ItemLinesAreLaid(items: Entries, k: nat, indent: string)
    requires WellFormed(Array(items)) && PrintableEntries(items) && k < ArraySize(items) && AllSpace(indent)
    ensures Laid(ItemLines(items, k, indent), ItemsHere(items, k))
    decreases NodesIn(items), ArraySize(items) - k
  {
    var child, deeper := Lookup(items, Index(k)), Deeper(indent);
    ItemsHereIs(items, k);
    Blanks(indent);
    MarksAreLaid();
    PrettyIsLaid(child, deeper);
    if k + 1 < ArraySize(items) { ItemLinesAreLaid(items, k + 1, indent); }
    hide Laid, ItemsHere, Tokens, Lookup, AllSpace, Pretty, NewLine, Deeper;
    LeadSpace(NewLine(deeper), Pretty(child, deeper), Tokens(child));
    var text := NewLine(deeper) + Pretty(child, deeper);
    if k + 1 == ArraySize(items) {
      LeadSpace(NewLine(indent), "]", ["]"]);
      LaidJoins(text, Tokens(child), NewLine(indent) + "]", ["]"]);
    } else {
      LaidJoins(",", [","], ItemLines(items, k + 1, indent), ItemsHere(items, k + 1));
      LaidJoins(text, Tokens(child), "," + ItemLines(items, k + 1, indent), [","] + ItemsHere(items, k + 1));
    }
  }

  lemma MemberIsLaid(name: string, text: string, toks: seq<string>, indent: string)
    requires AllSpace(NewLine(indent)) && Laid(Quote(name), [Quote(name)]) && Laid(" : ", [":"]) && Laid(text, toks)
    ensures Laid(NewLine(indent) + Quote(name) + " : " + text, [Quote(name)] + [":"] + toks)
  {
    hide Laid, AllSpace, NewLine, Quote;
    LeadSpace(NewLine(indent), Quote(name), [Quote(name)]);
    LaidJoins(NewLine(indent) + Quote(name), [Quote(name)], " : ", [":"]);
    LaidJoins(NewLine(indent) + Quote(name) + " : ", [Quote(name)] + [":"], text, toks);
  }

  lemma {:induction false} MemberLinesAreLaid(members: Entries, i: nat, indent: string)
    requires WellFormed(Object(members)) && PrintableEntries(members) && i < Count(members) && AllSpace(indent)
    ensures Laid(MemberLines(members, i, indent), MembersHere(members, i))
    decreases NodesIn(members), Count(members) - i
  {
    hide Laid, MembersHere, Tokens, Lookup, AllSpace, Pretty, NewLine, Deeper, Quote, MemberNames, Nodes, NodesIn;
    hide WellFormed, Printable, PrintableEntries, Count;
    var name, deeper := MemberNames(members)[i], Deeper(indent);
    var child := Lookup(members, Name(name));
    MembersHereIs(members, i);
    Blanks(indent);
    MarksAreLaid();
    TokenIsLaid(Quote(name));
    PrettyIsLaid(child, deeper);
    MemberIsLaid(name, Pretty(child, deeper), Tokens(child), deeper);
    var text := NewLine(deeper) + Quote(name) + " : " + Pretty(child, deeper);
    var toks := [Quote(name)] + [":"] + Tokens(child);
    if i + 1 == Count(members) {
      LeadSpace(NewLine(indent), "}", ["}"]);
      LaidJoins(text, toks, NewLine(indent) + "}", ["}"]);
    } else {
      MemberLinesAreLaid(members, i + 1, indent);
      LaidJoins(",", [","], MemberLines(members, i + 1, indent), MembersHere(members, i + 1));
      LaidJoins(text, toks, "," + MemberLines(members, i + 1, indent), [","] + MembersHere(members, i + 1));
    }
  }

  // The layout holds the value's tokens and nothing but white space beside them.
  lemma {:induction false} PrettyIsLaid(v: Value, indent: string)
    requires WellFormed(v) && Printable(v) && AllSpace(indent)
    ensures Laid(Pretty(v, indent), Tokens(v))
    decreases Nodes(v), 0
  {
    if OnePiece(v) {
      OneTextIsLaid(v);
    } else if v.Array? {
      ItemsHereStart(v.items);
      MarksAreLaid();
      if OneLine(v.items) {
        LineIsLaid(v.items, 0);
        hide Laid, ItemsHere;
        LaidJoins("[ ", ["["], LineText(v.items, 0), ItemsHere(v.items, 0));
      } else {
        ItemLinesAreLaid(v.items, 0, indent);
        hide Laid, ItemsHere;
        LaidJoins("[", ["["], ItemLines(v.items, 0, indent), ItemsHere(v.items, 0));
      }
    } else {
      MembersHereStart(v.members);
      MarksAreLaid();
      MemberLinesAreLaid(v.members, 0, indent);
      hide Laid, MembersHere;
      LaidJoins("{", ["{"], MemberLines(v.members, 0, indent), MembersHere(v.members, 0));
    }
  }

  // ------------------------------------------------------------------ lines

  function Join(parts: seq<string>, separator: string): string {
    if parts == [] then ""
    else if |parts| == 1 then parts[0]
    else parts[0] + separator + Join(parts[1..], separator)
  }

  // What the entry at the i-th place adds: a line of its own, three blanks further in.
  ghost function MemberLine(members: Entries, indent: string, i: nat): string
    requires i < Count(members)
  {
    var e := Drop(members, i);
    if e.End? then "" else "\n" + indent + "   " + Quote(NameOf(e.key)) + " : " + Pretty(e.value, indent + "   ")
  }

  ghost function MemberLinesFrom(members: Entries, indent: string, i: nat): seq<string>
    requires i <= Count(members)
  {
    seq(Count(members) - i, n requires 0 <= n < Count(members) - i => MemberLine(members, indent, i + n))
  }

  lemma OneFrom(members: Entries, indent: string, i: nat)
    requires i < Count(members)
    ensures MemberLinesFrom(members, indent, i) ==
            [MemberLine(members, indent, i)] + MemberLinesFrom(members, indent, i + 1)
    ensures MemberLinesFrom(members, indent, i + 1) == [] <==> i + 1 == Count(members)
  {
    hide Pretty, MemberLine;
  }

  lemma JoinNext(part: string, parts: seq<string>, separator: string)
    ensures Join([part] + parts, separator) == if parts == [] then part else part + separator + Join(parts, separator)
  {
  }

  lemma Nested(a: string, b: string, c: string, d: string)
    ensures (a + (b + c)) + d == a + b + c + d && a + (b + (c + d)) == (a + b + c) + d
  {
  }

  lemma DeeperIs(indent: string)
    ensures NewLine(Deeper(indent)) == "\n" + indent + "   " && Deeper(indent) == indent + "   "
    ensures NewLine(indent) == "\n" + indent
  {
  }

  lemma {:induction false} MemberLinesJoin(members: Entries, i: nat, indent: string)
    requires AllNames(members) && Ascending(members) && i < Count(members)
    ensures MemberLines(members, i, indent) ==
            Join(MemberLinesFrom(members, indent, i), ",") + ("\n" + indent + "}")
    decreases Count(members) - i
  {
    hide MemberLines, MemberLine, Join, MemberLinesFrom, Ascending, AllNames;
    OneFrom(members, indent, i);
    JoinNext(MemberLine(members, indent, i), MemberLinesFrom(members, indent, i + 1), ",");
    FirstMemberLine(members, i, indent);
    if i + 1 < Count(members) {
      MemberLinesJoin(members, i + 1, indent);
      Nested(MemberLine(members, indent, i), ",", Join(MemberLinesFrom(members, indent, i + 1), ","),
             "\n" + indent + "}");
    }
  }

  lemma FirstMemberLine(members: Entries, i: nat, indent: string)
    requires AllNames(members) && Ascending(members) && i < Count(members)
    ensures MemberLines(members, i, indent) ==
            MemberLine(members, indent, i) +
            if i + 1 == Count(members) then "\n" + indent + "}" else "," + MemberLines(members, i + 1, indent)
  {
    DeeperIs(indent);
    hide MemberLine, Pretty, Quote, Lookup, Deeper, NewLine, Ascending, AllNames;
    MemberLineIs(members, i, indent);
  }

  lemma MemberLineIs(members: Entries, i: nat, indent: string)
    requires AllNames(members) && Ascending(members) && i < Count(members)
    ensures MemberLine(members, indent, i) ==
            var name := MemberNames(members)[i];
            NewLine(Deeper(indent)) + Quote(name) + " : " + Pretty(Lookup(members, Name(name)), Deeper(indent))
  {
    hide Pretty, Quote, Lookup, Deeper, NewLine, Ascending, AllNames;
    DeeperIs(indent);
    NameWalk(members, i);
  }

  // An object with something in it: a line for each entry, in the order of the map, with
  // commas between, and the brace on a line of its own.
  lemma ObjectLines(members: Entries, indent: string)
    requires AllNames(members) && Ascending(members) && Count(members) > 0
    ensures Pretty(Object(members), indent) ==
            "{" + (Join(MemberLinesFrom(members, indent, 0), ",") + ("\n" + indent + "}"))
  {
    MemberLinesJoin(members, 0, indent);
    hide MemberLines, Join;
  }

  ghost function ItemLine(items: Entries, indent: string, k: nat): string {
    "\n" + indent + "   " + Pretty(Lookup(items, Index(k)), indent + "   ")
  }

  ghost function ItemLinesFrom(items: Entries, indent: string, k: nat): seq<string>
    requires k <= ArraySize(items)
  {
    seq(ArraySize(items) - k, n requires 0 <= n < ArraySize(items) - k => ItemLine(items, indent, k + n))
  }

  ghost function PiecesFrom(items: Entries, k: nat): seq<string>
    requires k <= ArraySize(items)
  {
    seq(ArraySize(items) - k, n requires 0 <= n < ArraySize(items) - k => OneText(Lookup(items, Index(k + n))))
  }

  lemma OneItemFrom(items: Entries, indent: string, k: nat)
    requires k < ArraySize(items)
    ensures ItemLinesFrom(items, indent, k) == [ItemLine(items, indent, k)] + ItemLinesFrom(items, indent, k + 1)
    ensures PiecesFrom(items, k) == [OneText(Lookup(items, Index(k)))] + PiecesFrom(items, k + 1)
    ensures ItemLinesFrom(items, indent, k + 1) == [] <==> k + 1 == ArraySize(items)
    ensures PiecesFrom(items, k + 1) == [] <==> k + 1 == ArraySize(items)
  {
    hide Pretty, ItemLine, OneText, Lookup;
  }

  lemma {:induction false} ItemLinesJoin(items: Entries, k: nat, indent: string)
    requires k < ArraySize(items)
    ensures ItemLines(items, k, indent) == Join(ItemLinesFrom(items, indent, k), ",") + ("\n" + indent + "]")
    decreases ArraySize(items) - k
  {
    hide ItemLines, ItemLine, Join, ItemLinesFrom;
    OneItemFrom(items, indent, k);
    JoinNext(ItemLine(items, indent, k), ItemLinesFrom(items, indent, k + 1), ",");
    FirstItemLine(items, indent, k);
    if k + 1 < ArraySize(items) {
      ItemLinesJoin(items, k + 1, indent);
      Nested(ItemLine(items, indent, k), ",", Join(ItemLinesFrom(items, indent, k + 1), ","), "\n" + indent + "]");
    }
  }

  lemma FirstItemLine(items: Entries, indent: string, k: nat)
    requires k < ArraySize(items)
    ensures ItemLines(items, k, indent) ==
            ItemLine(items, indent, k) +
            if k + 1 == ArraySize(items) then "\n" + indent + "]" else "," + ItemLines(items, k + 1, indent)
  {
    DeeperIs(indent);
    hide Pretty, Lookup, Deeper, NewLine;
  }

  lemma {:induction false} PiecesJoin(items: Entries, k: nat)
    requires k < ArraySize(items)
    ensures LineText(items, k) == Join(PiecesFrom(items, k), ", ") + " ]"
    decreases ArraySize(items) - k
  {
    hide OneText, Join, Lookup, PiecesFrom;
    var piece := OneText(Lookup(items, Index(k)));
    OneItemFrom(items, "", k);
    JoinNext(piece, PiecesFrom(items, k + 1), ", ");
    if k + 1 < ArraySize(items) {
      PiecesJoin(items, k + 1);
      Nested(piece, ", ", Join(PiecesFrom(items, k + 1), ", "), " ]");
    }
  }

  // An array with something in it: on one line with blanks inside the brackets, or a line
  // for each index, null where there is no entry.
  lemma ArrayLines(items: Entries, indent: string)
    requires ArraySize(items) > 0
    ensures Pretty(Array(items), indent) ==
            if OneLine(items) then "[ " + (Join(PiecesFrom(items, 0), ", ") + " ]")
            else "[" + (Join(ItemLinesFrom(items, indent, 0), ",") + ("\n" + indent + "]"))
  {
    ItemLinesJoin(items, 0, indent);
    PiecesJoin(items, 0);
    hide ItemLines, LineText, Join, OneLine;
  }
}
