/**
 The layout of the styled writers as a list of lines: a container has its brackets on lines of their
 own, at its own indentation, and its entries between them, one unit further in.
 */
module JsonLines {
  import opened JsonParser
  import opened JsonRoundTrip
  import opened JsonStyled
  import opened JsonTokens
  import opened JsonTool
  import opened JsonValue
  import opened JsonWriter
  import opened Wrappers

  // ---------------------------------------------------------------- lines

  function Indented(unit: string, lines: seq<string>): seq<string> {
    if lines == [] then [] else [unit + lines[0]] + Indented(unit, lines[1..])
  }

  function WithComma(lines: seq<string>, comma: bool): seq<string>
    requires lines != []
  {
    if comma then lines[..|lines| - 1] + [lines[|lines| - 1] + ","] else lines
  }

  function Prefixed(prefix: string, lines: seq<string>): seq<string>
    requires lines != []
  {
    [prefix + lines[0]] + lines[1..]
  }

  /** The stream writer begins a new line in front of every bracket. */
  function Opening(st: Style, bracket: string): seq<string> {
    if st.stream then ["", bracket] else [bracket]
  }

  /** The lines of a value without the indentation of the value itself */
  function Lines(st: Style, lib: CLibrary, v: Value): (r: seq<string>)
    ensures r != []
    decreases v, 0, 0
  {
    if IsSimple(v.data) then [SimpleText(lib, v.data)]
    else if v.data.Obj? then Opening(st, "{") + Indented(st.unit, MemberLines(st, lib, v.data.members)) + ["}"]
    else if IsMultiline(lib, v.data.elems) then
      Opening(st, "[") + Indented(st.unit, ElementLines(st, lib, v.data.elems, 0, ArraySize(v.data.elems))) + ["]"]
    else ["[ " + JoinTexts(ElementTexts(lib, v.data.elems, 0, ArraySize(v.data.elems))) + " ]"]
  }

  function LinesAt(st: Style, lib: CLibrary, es: Entries, index: nat): (r: seq<string>)
    ensures r != []
    decreases es, 0, 0
  {
    match Find(es, Index(index))
    case Some(v) => Lines(st, lib, v)
    case None => ["null"]
  }

  /** The elements one after the other, with a comma behind all but the last */
  function ElementLines(st: Style, lib: CLibrary, es: Entries, index: nat, size: nat): seq<string>
    decreases es, 1, size - index
  {
    if index >= size then []
    else WithComma(LinesAt(st, lib, es, index), index + 1 < size) + ElementLines(st, lib, es, index + 1, size)
  }

  function MemberLines(st: Style, lib: CLibrary, es: Entries): seq<string>
    decreases es, 1, 0
  {
    match es
    case Nil => []
    case Cons(k, v, rest) =>
      WithComma(Prefixed(Quote(KeyText(k)) + " : ", Lines(st, lib, v)), rest.Cons?) + MemberLines(st, lib, rest)
  }

  /** Lines as a text, each behind a separator */
  function Lead(lines: seq<string>, sep: string): string {
    if lines == [] then "" else sep + lines[0] + Lead(lines[1..], sep)
  }

  /** Lines as a text, with separators between them */
  function Page(lines: seq<string>, sep: string): string
    requires lines != []
  {
    lines[0] + Lead(lines[1..], sep)
  }

  lemma LeadIsPage(lines: seq<string>, sep: string)
    requires lines != []
    ensures Lead(lines, sep) == sep + Page(lines, sep)
  {
    assert sep + lines[0] + Lead(lines[1..], sep) == sep + (lines[0] + Lead(lines[1..], sep));
  }

  lemma {:induction false} LeadAppend(a: seq<string>, b: seq<string>, sep: string)
    ensures Lead(a + b, sep) == Lead(a, sep) + Lead(b, sep)
  {
    if a == [] {
      assert a + b == b;
    } else {
      assert (a + b)[1..] == a[1..] + b;
      LeadAppend(a[1..], b, sep);
    }
  }

  lemma {:induction false} LeadIndented(unit: string, lines: seq<string>, sep: string)
    ensures Lead(Indented(unit, lines), sep) == Lead(lines, sep + unit)
  {
    if lines != [] {
      LeadIndented(unit, lines[1..], sep);
      assert ([unit + lines[0]] + Indented(unit, lines[1..]))[1..] == Indented(unit, lines[1..]);
      assert sep + (unit + lines[0]) == (sep + unit) + lines[0];
    }
  }

  lemma PageAppend(a: seq<string>, b: seq<string>, sep: string)
    requires a != []
    ensures Page(a + b, sep) == Page(a, sep) + Lead(b, sep)
  {
    assert (a + b)[1..] == a[1..] + b;
    LeadAppend(a[1..], b, sep);
  }

  lemma PagePrefixed(prefix: string, lines: seq<string>, sep: string)
    requires lines != []
    ensures Page(Prefixed(prefix, lines), sep) == prefix + Page(lines, sep)
  {
    assert Prefixed(prefix, lines)[1..] == lines[1..];
  }

  lemma OneLine(line: string, sep: string)
    ensures Page([line], sep) == line && Lead([line], sep) == sep + line
  {
    assert [line][1..] == [];
  }

  lemma PageWithComma(lines: seq<string>, comma: bool, sep: string)
    requires lines != []
    ensures Page(WithComma(lines, comma), sep) == Page(lines, sep) + if comma then "," else ""
  {
    if comma {
      var front, last := lines[..|lines| - 1], lines[|lines| - 1];
      assert lines == front + [last];
      OneLine(last, sep);
      OneLine(last + ",", sep);
      if front == [] {
        assert lines == [last] && WithComma(lines, true) == [last + ","];
      } else {
        PageAppend(front, [last], sep);
        PageAppend(front, [last + ","], sep);
      }
    }
  }

  // ---------------------------------------------------------------- the last character of a value

  /** The text ends with something that is neither a blank nor the end of a line. */
  predicate EndsPlain(s: string) {
    s != "" && s[|s| - 1] != ' ' && s[|s| - 1] != '\n'
  }

  lemma AppendEndsPlain(a: string, b: string)
    requires EndsPlain(b)
    ensures EndsPlain(a + b)
  {
  }

  lemma ScalarEndsPlain(lib: CLibrary, d: Data)
    requires PrintsReal(lib, d) && (d.Str? ==> d.s.Some?) && IsSimple(d)
    ensures EndsPlain(SimpleText(lib, d))
  {
    hide DecodeNumber, EscapeAll;
    match d
    case Int(i) => IntTextIsNumber(i);
    case UInt(u) => DigitsNonEmpty(u);
    case _ =>
  }

  lemma LinesEndPlain(st: Style, lib: CLibrary, v: Value)
    requires PrintsReals(lib, v) && HasBuffers(v)
    ensures var lines := Lines(st, lib, v); EndsPlain(lines[|lines| - 1])
  {
    hide SimpleText, ElementLines, MemberLines, JoinTexts, ElementTexts, IsMultiline, Indented;
    if IsSimple(v.data) {
      PrintsRealsParts(lib, v);
      ScalarEndsPlain(lib, v.data);
    }
  }

  lemma PageEndsPlain(lines: seq<string>, sep: string)
    requires lines != [] && EndsPlain(lines[|lines| - 1])
    ensures EndsPlain(Page(lines, sep))
  {
    var front, last := lines[..|lines| - 1], lines[|lines| - 1];
    assert lines == front + [last];
    OneLine(last, sep);
    if front == [] {
      assert lines == [last];
    } else {
      PageAppend(front, [last], sep);
      AppendEndsPlain(Page(front, sep) + sep, last);
      assert Page(front, sep) + sep + last == Page(front, sep) + (sep + last);
    }
  }

  // ---------------------------------------------------------------- the text is made of these lines

  /** What the styled writer needs of an indentation to recognise it: that it ends with a blank. */
  predicate IsIndent(st: Style, indent: string) {
    st.stream || indent == "" || indent[|indent| - 1] == ' '
  }

  /** A bracket that comes next is on the line that was begun, except in the stream writer. */
  predicate AtStart(st: Style, indent: string, last: Option<char>) {
    st.stream || IndentText(st, indent, last) == ""
  }

  lemma AfterIndent(st: Style, indent: string, last: Option<char>)
    requires IsIndent(st, indent) && (last == Some('[') || last == Some('{') || last == Some(','))
    ensures IndentText(st, indent, last) == "\n" + indent
    ensures AtStart(st, indent, LastOf(IndentText(st, indent, last), last))
  {
    var head := "\n" + indent;
    assert indent != "" ==> head[|head| - 1] == indent[|indent| - 1];
  }

  lemma IndentGrows(st: Style, indent: string)
    requires IsIndent(st, indent) && IsIndent(st, st.unit)
    ensures IsIndent(st, indent + st.unit)
  {
    if st.unit == "" {
      assert indent + st.unit == indent;
    }
  }

  lemma OpeningPage(st: Style, indent: string, last: Option<char>, open: string)
    requires AtStart(st, indent, last)
    ensures Opening(st, open) != [] && Page(Opening(st, open), "\n" + indent) == IndentText(st, indent, last) + open
  {
    OneLine(open, "\n" + indent);
    if st.stream {
      assert ["", open][1..] == [open];
      assert "" + (("\n" + indent) + open) == ("\n" + indent) + open;
    } else {
      assert "" + open == open;
    }
  }

  lemma BracketLines(st: Style, indent: string, last: Option<char>, open: string, body: seq<string>, close: string)
    requires AtStart(st, indent, last)
    ensures Opening(st, open) != []
    ensures Page(Opening(st, open) + Indented(st.unit, body) + [close], "\n" + indent)
         == IndentText(st, indent, last) + open + Lead(body, "\n" + (indent + st.unit)) + ("\n" + indent) + close
  {
    hide Page, Lead, Indented, Opening, IndentText, AtStart;
    var sep := "\n" + indent;
    OpeningPage(st, indent, last, open);
    var first := Opening(st, open);
    PageAppend(first + Indented(st.unit, body), [close], sep);
    PageAppend(first, Indented(st.unit, body), sep);
    LeadIndented(st.unit, body, sep);
    OneLine(close, sep);
    assert sep + st.unit == "\n" + (indent + st.unit);
    var inner := Lead(body, "\n" + (indent + st.unit));
    assert (Page(first, sep) + inner) + (sep + close) == Page(first, sep) + inner + sep + close;
  }

  lemma {:induction false} TextIsLines(st: Style, lib: CLibrary, indent: string, last: Option<char>, v: Value)
    requires PrintsReals(lib, v) && HasBuffers(v) && IsIndent(st, indent) && IsIndent(st, st.unit)
    requires AtStart(st, indent, last)
    ensures StyledText(st, lib, indent, last, v) == Page(Lines(st, lib, v), "\n" + indent)
    decreases v, 0, 0
  {
    hide SimpleText, JoinTexts, ElementTexts, IsMultiline, Indented, StyledElements, StyledMembers, Page, IndentText;
    hide ElementLines, MemberLines, AtStart, Opening, IsIndent, AllPrintReals, AllHaveBuffers;
    PrintsRealsParts(lib, v);
    IndentGrows(st, indent);
    if IsSimple(v.data) {
      OneLine(SimpleText(lib, v.data), "\n" + indent);
    } else if v.data.Obj? {
      var es, indent' := v.data.members, indent + st.unit;
      var body := StyledMembers(st, lib, indent', Some('{'), es);
      MembersAreLines(st, lib, indent', Some('{'), es);
      BracketLines(st, indent, last, "{", MemberLines(st, lib, es), "}");
      EndIndent(st, indent, body, Some('{'));
    } else if IsMultiline(lib, v.data.elems) {
      var es, indent' := v.data.elems, indent + st.unit;
      var body := StyledElements(st, lib, indent', Some('['), es, 0, ArraySize(es));
      ElementsAreLines(st, lib, indent', Some('['), es, 0, ArraySize(es));
      BracketLines(st, indent, last, "[", ElementLines(st, lib, es, 0, ArraySize(es)), "]");
      EndIndent(st, indent, body, Some('['));
    } else {
      OneLine("[ " + JoinTexts(ElementTexts(lib, v.data.elems, 0, ArraySize(v.data.elems))) + " ]", "\n" + indent);
    }
  }

  /** The closing bracket begins a new line. */
  lemma EndIndent(st: Style, indent: string, body: string, last: Option<char>)
    requires EndsPlain(body)
    ensures IndentText(st, indent, LastOf(body, last)) == "\n" + indent
  {
  }

  lemma {:induction false} ElementsAreLines(st: Style, lib: CLibrary, indent: string, last: Option<char>, es: Entries,
                                            index: nat, size: nat)
    requires AllPrintReals(lib, es) && AllHaveBuffers(es) && IsIndent(st, indent) && IsIndent(st, st.unit)
    requires last == Some('[') || last == Some(',')
    ensures var body := StyledElements(st, lib, indent, last, es, index, size);
            && body == Lead(ElementLines(st, lib, es, index, size), "\n" + indent)
            && (index < size ==> EndsPlain(body))
    decreases es, 1, size - index
  {
    hide StyledText, Lines, Lead, Page, IndentText, WithComma, PrintsReals, HasBuffers, AtStart, IsIndent, EndsPlain;
    hide AllPrintReals, AllHaveBuffers, StyledElement, LinesAt;
    var sep := "\n" + indent;
    if index >= size {
      NoLines(sep);
    } else {
      var lines := LinesAt(st, lib, es, index);
      var more := ElementLines(st, lib, es, index + 1, size);
      ElementIsLines(st, lib, indent, last, es, index);
      LeadAppend(WithComma(lines, index + 1 < size), more, sep);
      PageWithComma(lines, index + 1 < size, sep);
      CommaIsSome(lines, index + 1 < size);
      LeadIsPage(WithComma(lines, index + 1 < size), sep);
      var element := StyledElement(st, lib, indent, last, es, index);
      if index + 1 < size {
        ElementsAreLines(st, lib, indent, Some(','), es, index + 1, size);
        AppendEndsPlain(element + ",", StyledElements(st, lib, indent, Some(','), es, index + 1, size));
        assert sep + (Page(lines, sep) + ",") == (sep + Page(lines, sep)) + ",";
      } else {
        NoLines(sep);
        LastElement(st, lib, es, index, size);
        assert sep + (Page(lines, sep) + "") + "" == sep + Page(lines, sep);
      }
    }
  }

  lemma LastElement(st: Style, lib: CLibrary, es: Entries, index: nat, size: nat)
    requires index + 1 >= size
    ensures ElementLines(st, lib, es, index + 1, size) == []
  {
  }

  lemma NoLines(sep: string)
    ensures Lead([], sep) == ""
  {
  }

  lemma {:induction false} ElementIsLines(st: Style, lib: CLibrary, indent: string, last: Option<char>, es: Entries,
                                          index: nat)
    requires AllPrintReals(lib, es) && AllHaveBuffers(es) && IsIndent(st, indent) && IsIndent(st, st.unit)
    requires last == Some('[') || last == Some(',')
    ensures var element := StyledElement(st, lib, indent, last, es, index);
            && element == ("\n" + indent) + Page(LinesAt(st, lib, es, index), "\n" + indent) && EndsPlain(element)
    decreases es, 0, 0
  {
    hide StyledText, Lines, Lead, Page, PrintsReals, HasBuffers, IsIndent, EndsPlain, IndentText, AtStart;
    hide AllPrintReals, AllHaveBuffers;
    var sep := "\n" + indent;
    AfterIndent(st, indent, last);
    FoundPrintsReals(lib, es, Index(index));
    match Find(es, Index(index)) {
      case Some(v) =>
        FoundHasBuffers(es, Index(index));
        TextIsLines(st, lib, indent, LastOf(IndentText(st, indent, last), last), v);
        LinesEndPlain(st, lib, v);
        PageEndsPlain(Lines(st, lib, v), sep);
        AppendEndsPlain(sep, Page(Lines(st, lib, v), sep));
      case None =>
        OneLine("null", sep);
        NullEndsPlain();
        AppendEndsPlain(sep, "null");
    }
  }

  lemma NullEndsPlain()
    ensures EndsPlain("null")
  {
  }

  lemma {:induction false} MemberIsLines(st: Style, lib: CLibrary, indent: string, last: Option<char>, k: Key, v: Value)
    requires PrintsReals(lib, v) && HasBuffers(v) && IsIndent(st, indent) && IsIndent(st, st.unit)
    requires last == Some('{') || last == Some(',')
    ensures var member := StyledMember(st, lib, indent, last, k, v);
            && member == ("\n" + indent)
                         + Page(Prefixed(Quote(KeyText(k)) + " : ", Lines(st, lib, v)), "\n" + indent)
            && EndsPlain(member)
    decreases v, 1, 0
  {
    hide StyledText, Lines, Lead, Page, PrintsReals, HasBuffers, IsIndent, EndsPlain, IndentText, AtStart, Quote;
    hide KeyText, Prefixed;
    var sep, lines := "\n" + indent, Lines(st, lib, v);
    AfterIndent(st, indent, last);
    BehindBlank(st, indent);
    TextIsLines(st, lib, indent, Some(' '), v);
    PagePrefixed(Quote(KeyText(k)) + " : ", lines, sep);
    LinesEndPlain(st, lib, v);
    PageEndsPlain(lines, sep);
    AppendEndsPlain(sep + Quote(KeyText(k)) + " : ", Page(lines, sep));
    assert sep + (Quote(KeyText(k)) + " : " + Page(lines, sep)) == sep + Quote(KeyText(k)) + " : " + Page(lines, sep);
  }

  lemma BehindBlank(st: Style, indent: string)
    ensures AtStart(st, indent, Some(' '))
  {
  }

  lemma {:induction false} MembersAreLines(st: Style, lib: CLibrary, indent: string, last: Option<char>, es: Entries)
    requires AllPrintReals(lib, es) && AllHaveBuffers(es) && IsIndent(st, indent) && IsIndent(st, st.unit)
    requires last == Some('{') || last == Some(',')
    ensures var body := StyledMembers(st, lib, indent, last, es);
            body == Lead(MemberLines(st, lib, es), "\n" + indent) && (es.Cons? ==> EndsPlain(body))
    decreases es, 2, 0
  {
    hide StyledText, Lines, Lead, Page, WithComma, PrintsReals, HasBuffers, IsIndent, EndsPlain, StyledMember, Prefixed;
    hide Quote, KeyText;
    var sep := "\n" + indent;
    if es.Nil? {
      NoLines(sep);
    } else {
      var lines := Prefixed(Quote(KeyText(es.key)) + " : ", Lines(st, lib, es.value));
      var comma := es.rest.Cons?;
      PrefixedIsSome(Quote(KeyText(es.key)) + " : ", Lines(st, lib, es.value));
      MemberIsLines(st, lib, indent, last, es.key, es.value);
      LeadAppend(WithComma(lines, comma), MemberLines(st, lib, es.rest), sep);
      PageWithComma(lines, comma, sep);
      CommaIsSome(lines, comma);
      LeadIsPage(WithComma(lines, comma), sep);
      var member := StyledMember(st, lib, indent, last, es.key, es.value);
      if comma {
        MembersAreLines(st, lib, indent, Some(','), es.rest);
        AppendEndsPlain(member + ",", StyledMembers(st, lib, indent, Some(','), es.rest));
        assert sep + (Page(lines, sep) + ",") == (sep + Page(lines, sep)) + ",";
      } else {
        NoLines(sep);
        assert sep + (Page(lines, sep) + "") + "" == sep + Page(lines, sep);
      }
    }
  }

  lemma PrefixedIsSome(prefix: string, lines: seq<string>)
    requires lines != []
    ensures Prefixed(prefix, lines) != []
  {
  }

  lemma CommaIsSome(lines: seq<string>, comma: bool)
    requires lines != []
    ensures WithComma(lines, comma) != []
  {
  }

  /** A styled document is the lines of its value, each ended by a line feed. */
  lemma StyledDocumentIs(st: Style, lib: CLibrary, v: Value)
    requires PrintsReals(lib, v) && HasBuffers(v) && IsIndent(st, st.unit)
    ensures StyledDocument(st, lib, v) == Page(Lines(st, lib, v), "\n") + "\n"
  {
    hide StyledText, Lines, Page, PrintsReals, HasBuffers;
    TextIsLines(st, lib, "", None, v);
    assert "\n" + "" == "\n";
  }
}
