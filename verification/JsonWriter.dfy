// Json::FastWriter and Json::StyledWriter, appending to their document piece by piece, and
// the proof that both lay out the tokens of the value. Values carry no comments.

module JsonWriter {
  import opened JsonValue
  import opened JsonText
  import opened JsonNumber
  import opened JsonLayout
  import opened JsonPretty
  import opened JsonPrint

  // valueToQuotedString: every byte is looked at in turn unless none needs an escape.
  method ValueToQuotedString(value: string) returns (result: string)
    ensures result == Quote(value)
  {
    if NothingToEscape(value) {
      return "\"" + value + "\"";
    }
    result := "\"";
    var c := 0;
    while c < |value|
      invariant 0 <= c <= |value|
      invariant result + EscapeAll(value[c..]) == "\"" + EscapeAll(value)
    {
      EscapeNext(result, value[c..]);
      match value[c] {
        case '"' => result := result + "\\\"";
        case '\\' => result := result + "\\\\";
        case '\n' => result := result + "\\n";
        case '\r' => result := result + "\\r";
        case '\t' => result := result + "\\t";
        case other =>
          if other as int == 8 {
            result := result + "\\b";
          } else if other as int == 12 {
            result := result + "\\f";
          } else if IsControl(other) {
            result := result + ControlEscape(other as int);
          } else {
            result := result + [other];
          }
      }
      assert value[c + 1..] == value[c..][1..];
      c := c + 1;
    }
    assert result + "" == result;
    result := result + "\"";
  }

  lemma EscapeNext(done: string, s: string)
    requires s != ""
    ensures done + EscapeAll(s) == done + EscapeChar(s[0]) + EscapeAll(s[1..])
  {
  }

  lemma FlatOne(t: string, yaml: bool)
    ensures Flat([t], yaml) == Spelled(t, yaml) && Flat([], yaml) == ""
  {
    assert [t][1..] == [];
    assert Spelled(t, yaml) + "" == Spelled(t, yaml);
  }

  // A value's text from its first token's character on.
  lemma ScalarText(t: string, yaml: bool)
    requires t != "" && t[0] != ':'
    ensures Flat([t], yaml) == t
  {
    FlatOne(t, yaml);
  }

  // What FastWriter has still to write of an array before index k, and of an object
  // before its i-th member.
  ghost function ItemsText(items: Entries, k: nat, yaml: bool): string {
    Flat(ItemsLeft(items, k), yaml) + "]"
  }

  lemma ItemsTextStart(doc: string, items: Entries, yaml: bool)
    ensures Makes(doc + "[", ItemsText(items, 0, yaml), doc + Flat(Tokens(Array(items)), yaml))
  {
    var toks := ItemTokens(items, 0);
    FlatJoins(["["], toks, yaml);
    FlatJoins(["["] + toks, ["]"], yaml);
    FlatOne("[", yaml);
    FlatOne("]", yaml);
    ConcatIsAssociative("[", Flat(toks, yaml), "]");
    ConcatIsAssociative(doc, "[", ItemsText(items, 0, yaml));
  }

  lemma ItemsTextStep(doc: string, items: Entries, k: nat, yaml: bool, all: string)
    requires WellFormed(Array(items)) && PrintableEntries(items) && k < ArraySize(items)
    requires Makes(doc, ItemsText(items, k, yaml), all)
    ensures var child := Lookup(items, Index(k));
            && WellFormed(child) && Printable(child) && Nodes(child) < NodesIn(items)
            && Makes(
                 (if k == 0 then doc else doc + ",") + Flat(Tokens(child), yaml),
                 ItemsText(items, k + 1, yaml), all)
  {
    ChildKeeps(items, Index(k));
    ItemLeft(items, k);
    var sep, toks, rest := if k == 0 then [] else [","], Tokens(Lookup(items, Index(k))), ItemsLeft(items, k + 1);
    hide Flat, ItemsLeft, Lookup, Tokens;
    FlatJoins(sep, toks, yaml);
    FlatJoins(sep + toks, rest, yaml);
    FlatOne(",", yaml);
    Regroup(doc, Flat(sep, yaml), Flat(toks, yaml), Flat(rest, yaml), "]");
    ConcatIsAssociative(doc, "", "");
  }

  lemma Regroup(doc: string, a: string, b: string, c: string, d: string)
    ensures doc + (((a + b) + c) + d) == ((doc + a) + b) + (c + d)
  {
  }

  lemma ItemsTextEnd(items: Entries, yaml: bool)
    requires WellFormed(Array(items))
    ensures ItemsText(items, ArraySize(items), yaml) == "]"
  {
    NoItemLeft(items);
    FlatOne("]", yaml);
    ConcatIsAssociative("]", "", "");
  }

  lemma MembersTextEnd(members: Entries, yaml: bool)
    ensures MembersText(members, Count(members), yaml) == "}"
  {
    NoMemberLeft(members);
    FlatOne("}", yaml);
    ConcatIsAssociative("}", "", "");
  }

  ghost function MembersText(e: Entries, i: nat, yaml: bool): string
    requires i <= Count(e)
  {
    Flat(MembersLeft(e, i), yaml) + "}"
  }

  lemma MembersTextStart(doc: string, members: Entries, yaml: bool)
    ensures Makes(doc + "{", MembersText(members, 0, yaml), doc + Flat(Tokens(Object(members)), yaml))
  {
    var toks := MemberTokens(members);
    FlatJoins(["{"], toks, yaml);
    FlatJoins(["{"] + toks, ["}"], yaml);
    FlatOne("{", yaml);
    FlatOne("}", yaml);
    ConcatIsAssociative("{", Flat(toks, yaml), "}");
    ConcatIsAssociative(doc, "{", MembersText(members, 0, yaml));
  }

  lemma MembersTextStep(doc: string, members: Entries, i: nat, yaml: bool, all: string)
    requires WellFormed(Object(members)) && PrintableEntries(members) && i < Count(members)
    requires Makes(doc, MembersText(members, i, yaml), all)
    ensures var name := MemberNames(members)[i];
            var child, tag := Lookup(members, Name(name)), Quote(name) + if yaml then ": " else ":";
            && WellFormed(child) && Printable(child) && Nodes(child) < NodesIn(members)
            && Makes(((if i == 0 then doc else doc + ",") + tag) + Flat(Tokens(child), yaml),
                     MembersText(members, i + 1, yaml), all)
  {
    var name := MemberNames(members)[i];
    ChildKeeps(members, Name(name));
    MemberLeft(members, i);
    var sep, head, toks := if i == 0 then [] else [","], [Quote(name), ":"], Tokens(Lookup(members, Name(name)));
    var rest := MembersLeft(members, i + 1);
    LabelText(name, yaml);
    hide Flat, MembersLeft, Lookup, Tokens, Quote;
    FlatJoins(head, toks, yaml);
    FlatJoins(sep, head + toks, yaml);
    FlatJoins(sep + (head + toks), rest, yaml);
    FlatOne(",", yaml);
    ConcatIsAssociative(doc + Flat(sep, yaml), Flat(head, yaml), Flat(toks, yaml));
    Regroup(doc, Flat(sep, yaml), Flat(head, yaml) + Flat(toks, yaml), Flat(rest, yaml), "}");
    ConcatIsAssociative(doc, "", "");
  }

  lemma LabelText(name: string, yaml: bool)
    ensures Flat([Quote(name), ":"], yaml) == Quote(name) + if yaml then ": " else ":"
  {
    ScalarText(Quote(name), yaml);
    FlatOne(":", yaml);
    FlatJoins([Quote(name)], [":"], yaml);
    assert [Quote(name)] + [":"] == [Quote(name), ":"];
  }

  class FastWriter {
    var yamlCompatibility: bool
    var document: string

    constructor ()
      ensures !yamlCompatibility
    {
      yamlCompatibility := false;
      document := "";
    }

    method EnableYamlCompatibility()
      modifies `yamlCompatibility
      ensures yamlCompatibility
    {
      yamlCompatibility := true;
    }

    method Write(root: Value) returns (text: string)
      requires WellFormed(root) && Printable(root)
      modifies `document
      ensures text == document == Flat(Tokens(root), yamlCompatibility) + "\n"
      ensures Laid(text, Tokens(root))
    {
      document := "";
      WriteValue(root);
      ConcatIsAssociative(Flat(Tokens(root), yamlCompatibility), "", "");
      assert AllSpace("\n") by { assert "\n"[1..] == ""; }
      TokensAreSolid(root);
      hide Flat, Tokens, Printable, WellFormed;
      FlatIsLaid(Tokens(root), yamlCompatibility);
      AppendSpace(document, Tokens(root), "\n");
      document := document + "\n";
      text := document;
    }

    method WriteValue(value: Value)
      requires WellFormed(value) && Printable(value)
      modifies `document
      ensures document == old(document) + Flat(Tokens(value), yamlCompatibility)
      decreases Nodes(value), 1
    {
      match value {
        case Null =>
          ScalarText("null", yamlCompatibility);
          document := document + "null";
        case Int(i) =>
          NumberText(i);
          var text := ValueToString(i);
          document := document + text;
        case UInt(u) =>
          NumberText(u);
          var text := UnsignedToString(u);
          document := document + text;
        case Str(s) =>
          ScalarText(Quote(s.text), yamlCompatibility);
          var text := ValueToQuotedString(s.text);
          document := document + text;
        case Bool(b) =>
          ScalarText("true", yamlCompatibility);
          ScalarText("false", yamlCompatibility);
          document := document + if b then "true" else "false";
        case Array(items) => WriteItems(items);
        case Object(members) => WriteMembers(members);
      }
    }

    lemma NumberText(i: int)
      ensures Flat([IntegerText(i)], yamlCompatibility) == IntegerText(i)
    {
      IntegerTextShape(i);
      ScalarText(IntegerText(i), yamlCompatibility);
    }

    method WriteItems(items: Entries)
      requires WellFormed(Array(items)) && PrintableEntries(items)
      modifies `document
      ensures document == old(document) + Flat(Tokens(Array(items)), yamlCompatibility)
      decreases NodesIn(items), 2
    {
      hide Flat, Tokens, ItemsText, Lookup, WellFormed, Printable, PrintableEntries, Nodes, NodesIn, Makes;
      ghost var yaml, all := yamlCompatibility, document + Flat(Tokens(Array(items)), yamlCompatibility);
      ItemsTextStart(document, items, yaml);
      ItemsTextEnd(items, yaml);
      document := document + "[";
      var size := ArraySize(items);
      for index := 0 to size
        invariant Makes(document, ItemsText(items, index, yaml), all)
      {
        ItemsTextStep(document, items, index, yaml, all);
        if index > 0 { document := document + ","; }
        WriteValue(Lookup(items, Index(index)));
      }
      MakesAll(document, "]", all);
      document := document + "]";
    }

    // What stands before a member's value.
    method WriteLabel(name: string, first: bool)
      modifies `document
      ensures document == (if first then old(document) else old(document) + ",")
                          + (Quote(name) + if yamlCompatibility then ": " else ":")
    {
      if !first { document := document + ","; }
      var quoted := ValueToQuotedString(name);
      ConcatIsAssociative(document, quoted, if yamlCompatibility then ": " else ":");
      document := document + quoted;
      document := document + if yamlCompatibility then ": " else ":";
    }

    method WriteMembers(members: Entries)
      requires WellFormed(Object(members)) && PrintableEntries(members)
      modifies `document
      ensures document == old(document) + Flat(Tokens(Object(members)), yamlCompatibility)
      decreases NodesIn(members), 2
    {
      hide Flat, Tokens, MembersText, Lookup, WellFormed, Printable, PrintableEntries, Quote;
      hide Nodes, NodesIn, MemberNames, Ascending, AllNames, Makes;
      ghost var yaml, all := yamlCompatibility, document + Flat(Tokens(Object(members)), yamlCompatibility);
      MembersTextStart(document, members, yaml);
      MembersTextEnd(members, yaml);
      var names := MemberNames(members);
      document := document + "{";
      for it := 0 to |names|
        invariant Makes(document, MembersText(members, it, yaml), all)
      {
        MembersTextStep(document, members, it, yaml, all);
        var name := names[it];
        WriteLabel(name, it == 0);
        WriteValue(Lookup(members, Name(name)));
      }
      MakesAll(document, "}", all);
      document := document + "}";
    }
  }

  // ----------------------------------------------------------- StyledWriter

  class StyledWriter {
    const rightMargin := RIGHT_MARGIN
    var document: string
    var indentString: string
    var childValues: seq<string>
    var addChildValues: bool

    constructor ()
    {
      document, indentString, childValues, addChildValues := "", "", [], false;
    }

    method Write(root: Value) returns (text: string)
      requires WellFormed(root) && Printable(root)
      modifies this
      ensures text == document == Pretty(root, "") + "\n"
      ensures Laid(text, Tokens(root))
    {
      document := "";
      addChildValues := false;
      indentString := "";
      WriteValue(root);
      Blanks("");
      PrettyIsLaid(root, "");
      hide Laid, AllSpace, Pretty, Tokens;
      ConcatIsAssociative(Pretty(root, ""), "", "");
      assert NewLine("") == "\n" by { ConcatIsAssociative("\n", "", ""); }
      AppendSpace(document, Tokens(root), "\n");
      document := document + "\n";
      text := document;
    }

    // While addChildValues is set nothing reaches the document: the value goes to
    // childValues, as one piece.
    method WriteValue(value: Value)
      requires WellFormed(value) && Printable(value)
      requires if addChildValues then OnePiece(value) else Ready(document, indentString)
      modifies `document, `indentString, `childValues, `addChildValues
      ensures addChildValues == old(addChildValues) && indentString == old(indentString)
      ensures if addChildValues then document == old(document) && childValues == old(childValues) + [OneText(value)]
              else document == old(document) + Pretty(value, indentString)
      decreases Nodes(value), 1
    {
      match value {
        case Null => PushValue("null");
        case Int(i) =>
          var text := ValueToString(i);
          PushValue(text);
        case UInt(u) =>
          var text := UnsignedToString(u);
          PushValue(text);
        case Str(s) =>
          var text := ValueToQuotedString(s.text);
          PushValue(text);
        case Bool(b) => PushValue(if b then "true" else "false");
        case Array(items) => WriteArrayValue(items);
        case Object(members) => WriteObjectValue(members);
      }
    }

    method PushValue(value: string)
      modifies `document, `childValues
      ensures document == old(document) + if addChildValues then "" else value
      ensures childValues == old(childValues) + if addChildValues then [value] else []
    {
      if addChildValues {
        childValues := childValues + [value];
      } else {
        document := document + value;
      }
    }

    // A new line with its indentation, unless the line is already indented.
    method WriteIndent()
      modifies `document
      ensures document == Indented(old(document), indentString)
    {
      if document != "" {
        var last := document[|document| - 1];
        if last == ' ' { return; }
        if last != '\n' {
          document := document + "\n";
        }
      }
      document := document + indentString;
    }

    method WriteWithIndent(value: string)
      modifies `document
      ensures document == Indented(old(document), indentString) + value
    {
      WriteIndent();
      document := document + value;
    }

    method Indent()
      modifies `indentString
      ensures indentString == Deeper(old(indentString))
    {
      indentString := indentString + "   ";
    }

    // Undoes the last Indent.
    method Unindent()
      requires |indentString| >= 3
      modifies `indentString
      ensures indentString == old(indentString)[..|old(indentString)| - 3]
    {
      indentString := indentString[..|indentString| - 3];
    }

    method WriteObjectValue(members: Entries)
      requires WellFormed(Object(members)) && PrintableEntries(members)
      requires if addChildValues then members.End? else Ready(document, indentString)
      modifies `document, `indentString, `childValues, `addChildValues
      ensures addChildValues == old(addChildValues) && indentString == old(indentString)
      ensures if addChildValues then document == old(document) && childValues == old(childValues) + ["{}"]
              else document == old(document) + Pretty(Object(members), indentString)
      decreases NodesIn(members), 4
    {
      var names := MemberNames(members);
      if names == [] {
        PushValue("{}");
      } else {
        WriteMembers(members, names);
      }
    }

    // An object that is not empty, one member a line.
    method WriteMembers(members: Entries, names: seq<string>)
      requires WellFormed(Object(members)) && PrintableEntries(members)
      requires names == MemberNames(members) != [] && !addChildValues && Ready(document, indentString)
      modifies `document, `indentString, `childValues, `addChildValues
      ensures !addChildValues && indentString == old(indentString)
      ensures document == old(document) + Pretty(Object(members), indentString)
      decreases NodesIn(members), 3
    {
      hide Quote, Lookup, Makes, Pretty, MemberLines, WellFormed, Printable, PrintableEntries, Nodes, NodesIn, NewLine;
      hide MemberNames, Indented, Settled, Ready, Label;
      ghost var indent, all := indentString, document + Pretty(Object(members), indentString);
      MemberLinesStart(document, members, indent);
      ReadyIsUnchanged(document, indent);
      WriteWithIndent("{");
      Indent();
      var it := 0;
      while true
        invariant it < |names| && !addChildValues && indentString == Deeper(indent)
        invariant Settled(document) && Makes(document, MemberLines(members, it, indent), all)
        decreases |names| - it
      {
        MemberLinesStep(document, members, it, indent, all);
        var name := names[it];
        var childValue := Lookup(members, Name(name));
        WriteName(name);
        WriteValue(childValue);
        it := it + 1;
        if it == |names| { break; }
        document := document + ",";
      }
      BackTo(indent);
      Unindent();
      NewLineIsIndented(document, indent);
      ConcatIsAssociative(document, NewLine(indent), "}");
      MakesAll(document, NewLine(indent) + "}", all);
      WriteWithIndent("}");
    }

    // The line of a member up to its value.
    method WriteName(name: string)
      requires Settled(document)
      modifies `document
      ensures document == old(document) + Label(name, indentString)
      ensures Ready(document, indentString)
    {
      var quoted := ValueToQuotedString(name);
      ConcatIsAssociative(document, NewLine(indentString), Quote(name));
      ConcatIsAssociative(document, NewLine(indentString) + Quote(name), " : ");
      WriteWithIndent(quoted);
      ReadyAfter(document, indentString, indentString);
      document := document + " : ";
    }

    method WriteArrayValue(items: Entries)
      requires WellFormed(Array(items)) && PrintableEntries(items)
      requires if addChildValues then ArraySize(items) == 0 else Ready(document, indentString)
      modifies `document, `indentString, `childValues, `addChildValues
      ensures addChildValues == old(addChildValues) && indentString == old(indentString)
      ensures if addChildValues then document == old(document) && childValues == old(childValues) + ["[]"]
              else document == old(document) + Pretty(Array(items), indentString)
      decreases NodesIn(items), 5
    {
      hide Lookup, LineText, ItemLines, Texts, LineLength;
      var size := ArraySize(items);
      if size == 0 {
        PushValue("[]");
      } else {
        OneLineIff(items);
        var isArrayMultiLine := IsMultineArray(items);
        if isArrayMultiLine {
          WriteLines(items);
        } else {
          WriteLine(items);
        }
      }
    }

    // An array over several lines, its elements printed already or not.
    method WriteLines(items: Entries)
      requires WellFormed(Array(items)) && PrintableEntries(items)
      requires ArraySize(items) > 0 && !addChildValues && Ready(document, indentString) && !OneLine(items)
      requires childValues != [] ==> AllPieces(items) && childValues == Texts(items, ArraySize(items))
      modifies `document, `indentString, `childValues, `addChildValues
      ensures !addChildValues && indentString == old(indentString)
      ensures document == old(document) + Pretty(Array(items), indentString)
      decreases NodesIn(items), 2
    {
      hide Lookup, Makes, Pretty, ItemLines, WellFormed, Printable, PrintableEntries, Nodes, NodesIn, ArraySize;
      hide NewLine;
      hide OneText, Texts, Indented, Settled, Ready, OneLine, AllPieces;
      ghost var indent, all := indentString, document + Pretty(Array(items), indentString);
      ItemLinesStart(document, items, indent);
      ReadyIsUnchanged(document, indent);
      var size := ArraySize(items);
      TextsAt(items, size);
      WriteWithIndent("[");
      Indent();
      var hasChildValue := childValues != [];
      var index := 0;
      while true
        invariant index < size && !addChildValues && indentString == Deeper(indent)
        invariant hasChildValue ==> childValues == Texts(items, size)
        invariant Settled(document) && Makes(document, ItemLines(items, index, indent), all)
        decreases size - index
      {
        ItemLinesStep(document, items, index, indent, all);
        NewLineIsIndented(document, indentString);
        var childValue := Lookup(items, Index(index));
        if hasChildValue {
          PieceIsPretty(items, index, indentString);
          WriteWithIndent(childValues[index]);
        } else {
          WriteIndent();
          WriteValue(childValue);
        }
        index := index + 1;
        if index == size { break; }
        document := document + ",";
      }
      BackTo(indent);
      Unindent();
      NewLineIsIndented(document, indent);
      ConcatIsAssociative(document, NewLine(indent), "]");
      MakesAll(document, NewLine(indent) + "]", all);
      WriteWithIndent("]");
    }

    // An array on one line.
    method WriteLine(items: Entries)
      requires ArraySize(items) > 0 && !addChildValues && OneLine(items)
      requires childValues == Texts(items, ArraySize(items))
      modifies `document
      ensures document == old(document) + Pretty(Array(items), indentString)
    {
      ghost var all := document + Pretty(Array(items), indentString);
      hide Lookup, Makes, Pretty, OneText, ArraySize, OneLine, AllPieces, LineText, LineLeft, Texts;
      var size := ArraySize(items);
      TextsAt(items, size);
      LineStart(document, items, indentString);
      document := document + "[ ";
      for index := 0 to size
        invariant Makes(document, LineLeft(items, index), all)
      {
        LineStep(document, items, index, all);
        if index > 0 { document := document + ", "; }
        document := document + childValues[index];
      }
      MakesAll(document, " ]", all);
      document := document + " ]";
    }

    // The texts of all elements, and the length of the line that they make.
    method CollectChildValues(items: Entries) returns (lineLength: int)
      requires WellFormed(Array(items)) && PrintableEntries(items) && AllPieces(items)
      requires ArraySize(items) > 0 && !addChildValues && childValues == []
      modifies `document, `indentString, `childValues, `addChildValues
      ensures !addChildValues && document == old(document) && indentString == old(indentString)
      ensures childValues == Texts(items, ArraySize(items)) && lineLength == LineLength(childValues)
      decreases NodesIn(items), 3
    {
      hide Lookup, WellFormed, Printable, PrintableEntries, Nodes, NodesIn, ArraySize, OneLine, OneText;
      hide Pretty, Ready, Texts, TotalLength, PiecesBefore, AllPieces;
      var size := ArraySize(items);
      NoTexts(items);
      TextsAt(items, size);
      addChildValues := true;
      lineLength := 4 + (size - 1) * 2;
      for i := 0 to size
        invariant addChildValues && document == old(document) && indentString == old(indentString)
        invariant childValues == Texts(items, i) && |childValues| == i
        invariant lineLength == 4 + (size - 1) * 2 + TotalLength(childValues)
      {
        ChildKeepsAt(items, i);
        PieceAt(items, i);
        TextsGrow(items, i);
        WriteValue(Lookup(items, Index(i)));
        lineLength := lineLength + |childValues[i]|;
      }
      addChildValues := false;
    }

    // An array takes several lines when it is long, holds a container that is not empty, or
    // would pass the right margin; unless one of the first two applies, its elements are
    // printed to childValues, one text each, and the document is untouched.
    method IsMultineArray(items: Entries) returns (isMultiLine: bool)
      requires WellFormed(Array(items)) && PrintableEntries(items)
      requires ArraySize(items) > 0 && !addChildValues
      modifies `document, `indentString, `childValues, `addChildValues
      ensures !addChildValues && document == old(document) && indentString == old(indentString)
      ensures isMultiLine == !OneLine(items)
      ensures childValues ==
              if ArraySize(items) * 3 < rightMargin && AllPieces(items) then Texts(items, ArraySize(items)) else []
      decreases NodesIn(items), 4
    {
      hide Lookup, WellFormed, Printable, PrintableEntries, Nodes, NodesIn, ArraySize, OneLine, OneText;
      hide Pretty, Ready, Texts, TotalLength, PiecesBefore, AllPieces, LineLength, LineText;
      var size := ArraySize(items);
      OneLineIff(items);
      NextPiece(items, 0);
      isMultiLine := size * 3 >= rightMargin;
      childValues := [];
      var index := 0;
      while index < size && !isMultiLine
        invariant index <= size && childValues == [] && !addChildValues
        invariant document == old(document) && indentString == old(indentString)
        invariant isMultiLine <==> size * 3 >= rightMargin || !PiecesBefore(items, index)
      {
        var childValue := Lookup(items, Index(index));
        isMultiLine := (IsArray(childValue) || IsObject(childValue)) && Size(childValue) > 0;
        NextPiece(items, index);
        index := index + 1;
      }
      NextPiece(items, index);
      assert isMultiLine <==> !(size * 3 < rightMargin && AllPieces(items)) by { PiecesAre(items); }
      if !isMultiLine {
        var lineLength := CollectChildValues(items);
        isMultiLine := lineLength >= rightMargin;
      }
    }
  }

  // ------------------------------------------- how the styled text is put together

  function Label(name: string, indent: string): string {
    NewLine(indent) + Quote(name) + " : "
  }

  lemma MemberLinesStart(doc: string, members: Entries, indent: string)
    requires Count(members) > 0
    ensures Makes(doc + "{", MemberLines(members, 0, indent), doc + Pretty(Object(members), indent))
    ensures Settled(doc + "{")
  {
    ConcatIsAssociative(doc, "{", MemberLines(members, 0, indent));
  }

  lemma MemberLinesStep(doc: string, members: Entries, i: nat, indent: string, all: string)
    requires WellFormed(Object(members)) && PrintableEntries(members) && i < Count(members)
    requires Makes(doc, MemberLines(members, i, indent), all)
    ensures var name, deeper := MemberNames(members)[i], Deeper(indent);
            var child := Lookup(members, Name(name));
            var t := (doc + Label(name, deeper)) + Pretty(child, deeper);
            && WellFormed(child) && Printable(child) && Nodes(child) < NodesIn(members) && Settled(t)
            && if i + 1 == Count(members) then Makes(t, NewLine(indent) + "}", all)
               else Settled(t + ",") && Makes(t + ",", MemberLines(members, i + 1, indent), all)
  {
    var name, deeper := MemberNames(members)[i], Deeper(indent);
    var child := Lookup(members, Name(name));
    ChildKeeps(members, Name(name));
    PrettySettled(child, deeper);
    var head, text := Label(name, deeper), Pretty(child, deeper);
    SettledAfter(doc + head, text);
    SettledAfter((doc + head) + text, ",");
    var left := if i + 1 == Count(members) then NewLine(indent) + "}" else "," + MemberLines(members, i + 1, indent);
    assert MemberLines(members, i, indent) == (head + text) + left;
    hide Pretty, Quote, MemberLines, Label, NewLine, Lookup;
    MakesBoth(doc, head, text, left, all);
    if i + 1 < Count(members) {
      MakesStep((doc + head) + text, ",", MemberLines(members, i + 1, indent), all);
    }
  }

  lemma MakesBoth(doc: string, head: string, text: string, left: string, all: string)
    requires Makes(doc, (head + text) + left, all)
    ensures Makes((doc + head) + text, left, all)
  {
    ConcatIsAssociative(doc, head, text);
    ConcatIsAssociative(doc, head + text, left);
  }

  lemma ItemLinesStart(doc: string, items: Entries, indent: string)
    requires ArraySize(items) > 0 && !OneLine(items)
    ensures Makes(doc + "[", ItemLines(items, 0, indent), doc + Pretty(Array(items), indent))
    ensures Settled(doc + "[")
  {
    ConcatIsAssociative(doc, "[", ItemLines(items, 0, indent));
  }

  lemma ItemLinesStep(doc: string, items: Entries, k: nat, indent: string, all: string)
    requires WellFormed(Array(items)) && PrintableEntries(items) && k < ArraySize(items)
    requires Makes(doc, ItemLines(items, k, indent), all)
    ensures var child, deeper := Lookup(items, Index(k)), Deeper(indent);
            var t := (doc + NewLine(deeper)) + Pretty(child, deeper);
            && WellFormed(child) && Printable(child) && Nodes(child) < NodesIn(items) && Settled(t)
            && if k + 1 == ArraySize(items) then Makes(t, NewLine(indent) + "]", all)
               else Settled(t + ",") && Makes(t + ",", ItemLines(items, k + 1, indent), all)
    ensures Ready(doc + NewLine(Deeper(indent)), Deeper(indent))
  {
    var child, deeper := Lookup(items, Index(k)), Deeper(indent);
    ChildKeeps(items, Index(k));
    PrettySettled(child, deeper);
    ReadyAfter(doc, indent, deeper);
    var head, text := NewLine(deeper), Pretty(child, deeper);
    SettledAfter(doc + head, text);
    SettledAfter((doc + head) + text, ",");
    var left := if k + 1 == ArraySize(items) then NewLine(indent) + "]" else "," + ItemLines(items, k + 1, indent);
    assert ItemLines(items, k, indent) == (head + text) + left;
    hide Pretty, ItemLines, NewLine, Lookup;
    MakesBoth(doc, head, text, left, all);
    if k + 1 < ArraySize(items) {
      MakesStep((doc + head) + text, ",", ItemLines(items, k + 1, indent), all);
    }
  }

  // What stands on an array's line from index k on, its separator included.
  function LineLeft(items: Entries, k: nat): string
    requires k <= ArraySize(items)
  {
    if k == ArraySize(items) then " ]" else (if k == 0 then "" else ", ") + LineText(items, k)
  }

  lemma LineStart(doc: string, items: Entries, indent: string)
    requires ArraySize(items) > 0 && OneLine(items)
    ensures Makes(doc + "[ ", LineLeft(items, 0), doc + Pretty(Array(items), indent))
    ensures LineLeft(items, ArraySize(items)) == " ]"
  {
    ConcatIsAssociative(doc, "[ ", LineText(items, 0));
    ConcatIsAssociative(LineText(items, 0), "", "");
  }

  lemma LineStep(doc: string, items: Entries, k: nat, all: string)
    requires k < ArraySize(items) && Makes(doc, LineLeft(items, k), all)
    ensures Makes((if k == 0 then doc else doc + ", ") + OneText(Lookup(items, Index(k))), LineLeft(items, k + 1), all)
  {
    var text := OneText(Lookup(items, Index(k)));
    assert LineText(items, k) == text + LineLeft(items, k + 1);
    ConcatIsAssociative(LineText(items, k), "", "");
    hide OneText, LineText, Lookup;
    if k > 0 { MakesStep(doc, ", ", LineText(items, k), all); }
    MakesStep(if k == 0 then doc else doc + ", ", text, LineLeft(items, k + 1), all);
  }

  lemma PieceIsPretty(items: Entries, k: nat, indent: string)
    requires AllPieces(items) && k < ArraySize(items)
    ensures |Texts(items, ArraySize(items))| == ArraySize(items)
    ensures Texts(items, ArraySize(items))[k] == Pretty(Lookup(items, Index(k)), indent)
  {
    TextsAt(items, ArraySize(items));
  }

  // The indentation starts a new line after text, and none where the line has it already.
  lemma NewLineIsIndented(doc: string, indent: string)
    requires Settled(doc)
    ensures Indented(doc, indent) == doc + NewLine(indent)
  {
  }

  lemma ReadyIsUnchanged(doc: string, indent: string)
    requires Ready(doc, indent)
    ensures Indented(doc, indent) == doc
  {
  }

  lemma BackTo(indent: string)
    ensures |Deeper(indent)| >= 3 && Deeper(indent)[..|Deeper(indent)| - 3] == indent
  {
    assert (indent + "   ")[..|indent|] == indent;
  }

  lemma ChildKeepsAt(items: Entries, k: nat)
    requires WellFormed(Array(items)) && PrintableEntries(items) && ArraySize(items) > 0
    ensures var child := Lookup(items, Index(k));
            WellFormed(child) && Printable(child) && Nodes(child) < NodesIn(items)
  {
    ChildKeeps(items, Index(k));
  }
}
