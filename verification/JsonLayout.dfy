/**
 The layout of the styled writers does not change what is printed: the tokens are those of
 the value, so between any two tokens only whitespace differs from FastWriter.
 */
module JsonLayout {
  import opened JsonGrammar
  import opened JsonLexer
  import opened JsonParser
  import opened JsonRoundTrip
  import opened JsonStyled
  import opened JsonTokens
  import opened JsonTool
  import opened JsonValue
  import opened JsonWriter
  import opened Wrappers

  predicate AllSpaces(s: string) {
    forall i :: 0 <= i < |s| ==> IsSpace(s[i])
  }

  lemma {:induction false} TextsSpaces(w: string, s: string)
    requires AllSpaces(w)
    ensures Texts(w + s) == Texts(s)
  {
    hide Texts;
    if w == "" {
      assert w + s == s;
    } else {
      TextsSpace(w[0], w[1..] + s);
      TextsSpaces(w[1..], s);
      assert w + s == [w[0]] + (w[1..] + s);
    }
  }

  lemma IndentIsSpaces(st: Style, indent: string, last: Option<char>)
    requires AllSpaces(indent)
    ensures AllSpaces(IndentText(st, indent, last))
  {
  }

  lemma TextsIndent(st: Style, indent: string, last: Option<char>, s: string)
    requires AllSpaces(indent)
    ensures Texts(IndentText(st, indent, last) + s) == Texts(s)
  {
    IndentIsSpaces(st, indent, last);
    hide Texts, IndentText;
    TextsSpaces(IndentText(st, indent, last), s);
  }

  /** After whitespace or at a closing bracket no number goes on. */
  lemma IndentEndsNumber(st: Style, indent: string, last: Option<char>, s: string)
    requires AllSpaces(indent) && EndsNumber(s)
    ensures EndsNumber(IndentText(st, indent, last) + s)
  {
    IndentIsSpaces(st, indent, last);
    hide IndentText;
    if IndentText(st, indent, last) == "" {
      assert "" + s == s;
    }
  }

  lemma SimpleTexts(lib: CLibrary, d: Data, s: string)
    requires IsSimple(d) && PrintsReal(lib, d) && EndsNumber(s)
    ensures Texts(SimpleText(lib, d) + s) == TokensOf(false, lib, Leaf(d)) + Texts(s)
  {
    hide Texts, ScalarText, ScalarTokens, PrintsReal;
    if d.Arr? {
      TextsPunctuation('[', "]" + s);
      TextsPunctuation(']', s);
      assert "[]" + s == ['['] + ("]" + s);
      assert ElementsTokens(false, lib, d.elems, 0, 0) == [];
    } else if d.Obj? {
      TextsPunctuation('{', "}" + s);
      TextsPunctuation('}', s);
      assert "{}" + s == ['{'] + ("}" + s);
      assert MembersTokens(false, lib, Nil, true) == [];
    } else {
      ScalarTexts(lib, d, s);
    }
  }

  lemma TokensIgnoreOffsets(drop: bool, lib: CLibrary, v: Value)
    ensures TokensOf(drop, lib, Leaf(v.data)) == TokensOf(drop, lib, v)
  {
    hide ElementsTokens, MembersTokens, ScalarTokens;
  }

  lemma {:induction false} StyledTexts(st: Style, lib: CLibrary, indent: string, last: Option<char>, v: Value,
                                       s: string)
    requires PrintsReals(lib, v) && AllSpaces(indent) && AllSpaces(st.unit) && EndsNumber(s)
    ensures Texts(StyledText(st, lib, indent, last, v) + s) == TokensOf(false, lib, v) + Texts(s)
    decreases v, 0, 0
  {
    hide Texts, IndentText, IsSimple, SimpleText, StyledElements, StyledMembers, IsMultiline, JoinTexts, ElementTexts;
    hide TokensOf, PrintsReals, PrintsReal;
    PrintsRealsParts(lib, v);
    if IsSimple(v.data) {
      SimpleTexts(lib, v.data, s);
      TokensIgnoreOffsets(false, lib, v);
    } else if v.data.Arr? {
      ContainersAreNotSimple(v.data);
      if IsMultiline(lib, v.data.elems) {
        StyledArrayTexts(st, lib, indent, last, v, s);
      } else {
        JoinedArrayTexts(st, lib, indent, last, v, s);
      }
    } else {
      ContainersAreNotSimple(v.data);
      StyledObjectTexts(st, lib, indent, last, v, s);
    }
  }

  lemma ContainersAreNotSimple(d: Data)
    requires !IsSimple(d)
    ensures d.Arr? || d.Obj?
    ensures d.Arr? ==> ArraySize(d.elems) > 0
    ensures d.Obj? ==> d.members.Cons?
  {
  }

  lemma {:induction false} StyledArrayTexts(st: Style, lib: CLibrary, indent: string, last: Option<char>, v: Value,
                                            s: string)
    requires PrintsReals(lib, v) && AllSpaces(indent) && AllSpaces(st.unit) && EndsNumber(s)
    requires v.data.Arr? && !IsSimple(v.data) && IsMultiline(lib, v.data.elems)
    ensures Texts(StyledText(st, lib, indent, last, v) + s) == TokensOf(false, lib, v) + Texts(s)
    decreases v.data, 3, 0
  {
    hide Texts, IndentText, IsSimple, StyledElements, ElementsTokens, IsMultiline, PrintsReals, AllPrintReals;
    PrintsRealsParts(lib, v);
    var es := v.data.elems;
    var body := StyledElements(st, lib, indent + st.unit, Some('['), es, 0, ArraySize(es));
    var head := IndentText(st, indent, last);
    var foot := IndentText(st, indent, LastOf(body, Some('[')));
    var close := foot + ("]" + s);
    TextsIndent(st, indent, last, "[" + (body + close));
    TextsPunctuation('[', body + close);
    IndentEndsNumber(st, indent, LastOf(body, Some('[')), "]" + s);
    StyledElementsTexts(st, lib, indent + st.unit, Some('['), es, 0, ArraySize(es), close);
    TextsIndent(st, indent, LastOf(body, Some('[')), "]" + s);
    TextsPunctuation(']', s);
    assert StyledText(st, lib, indent, last, v) + s == head + ("[" + (body + close)) by {
      Grouped(head, "[", body, foot, "]", s);
    }
  }

  lemma Grouped(a: string, b: string, c: string, d: string, e: string, s: string)
    ensures a + b + c + d + e + s == a + (b + (c + (d + (e + s))))
  {
  }

  lemma {:induction false} StyledObjectTexts(st: Style, lib: CLibrary, indent: string, last: Option<char>, v: Value,
                                             s: string)
    requires PrintsReals(lib, v) && AllSpaces(indent) && AllSpaces(st.unit) && EndsNumber(s)
    requires v.data.Obj? && v.data.members.Cons?
    ensures Texts(StyledText(st, lib, indent, last, v) + s) == TokensOf(false, lib, v) + Texts(s)
    decreases v.data, 3, 0
  {
    hide Texts, IndentText, StyledMembers, MembersTokens, PrintsReals, AllPrintReals;
    PrintsRealsParts(lib, v);
    var es := v.data.members;
    var body := StyledMembers(st, lib, indent + st.unit, Some('{'), es);
    var head := IndentText(st, indent, last);
    var foot := IndentText(st, indent, LastOf(body, Some('{')));
    var close := foot + ("}" + s);
    TextsIndent(st, indent, last, "{" + (body + close));
    TextsPunctuation('{', body + close);
    IndentEndsNumber(st, indent, LastOf(body, Some('{')), "}" + s);
    StyledMembersTexts(st, lib, indent + st.unit, Some('{'), es, true, close);
    TextsIndent(st, indent, LastOf(body, Some('{')), "}" + s);
    TextsPunctuation('}', s);
    assert StyledText(st, lib, indent, last, v) + s == head + ("{" + (body + close)) by {
      Grouped(head, "{", body, foot, "}", s);
    }
  }

  lemma {:induction false} StyledElementTexts(st: Style, lib: CLibrary, indent: string, last: Option<char>,
                                              es: Entries, index: nat, s: string)
    requires AllPrintReals(lib, es) && AllSpaces(indent) && AllSpaces(st.unit) && EndsNumber(s)
    ensures Texts(StyledElement(st, lib, indent, last, es, index) + s)
            == ElementTokens(false, lib, es, index) + Texts(s)
    decreases es, 0, 0
  {
    hide Texts, IndentText, StyledText, TokensOf, PrintsReals, AllPrintReals;
    FoundPrintsReals(lib, es, Index(index));
    var head := IndentText(st, indent, last);
    match Find(es, Index(index))
    case Some(v) =>
      var text := StyledText(st, lib, indent, LastOf(head, last), v);
      StyledTexts(st, lib, indent, LastOf(head, last), v, s);
      TextsIndent(st, indent, last, text + s);
      assert StyledElement(st, lib, indent, last, es, index) + s == head + (text + s);
    case None =>
      TextsLiteral("null", NullToken, s);
      TextsIndent(st, indent, last, "null" + s);
      assert StyledElement(st, lib, indent, last, es, index) + s == head + ("null" + s);
  }

  lemma {:induction false} StyledElementsTexts(st: Style, lib: CLibrary, indent: string, last: Option<char>,
                                               es: Entries, index: nat, size: nat, s: string)
    requires AllPrintReals(lib, es) && AllSpaces(indent) && AllSpaces(st.unit) && EndsNumber(s)
    ensures Texts(StyledElements(st, lib, indent, last, es, index, size) + s)
         == Unseparated(index, ElementsTokens(false, lib, es, index, size)) + Texts(s)
    decreases es, 1, size - index
  {
    hide Texts, StyledElement, ElementTokens, ElementsTokens, Unseparated, AllPrintReals;
    if index >= size {
      NoElements(lib, es, index, size);
      assert "" + s == s;
    } else {
      var element := StyledElement(st, lib, indent, last, es, index);
      if index + 1 == size {
        StyledElementTexts(st, lib, indent, last, es, index, s);
        UnseparatedLast(lib, es, index, size);
      } else {
        var more := StyledElements(st, lib, indent, Some(','), es, index + 1, size);
        StyledElementTexts(st, lib, indent, last, es, index, "," + (more + s));
        TextsPunctuation(',', more + s);
        StyledElementsTexts(st, lib, indent, Some(','), es, index + 1, size, s);
        SeparatedRest(lib, es, index, size);
        assert StyledElements(st, lib, indent, last, es, index, size) + s == element + ("," + (more + s));
      }
    }
  }

  /** The tokens of elements without the separator before the first. */
  function Unseparated(index: nat, ts: seq<Lexeme>): seq<Lexeme> {
    if index > 0 && ts != [] then ts[1..] else ts
  }

  lemma NoElements(lib: CLibrary, es: Entries, index: nat, size: nat)
    requires index >= size
    ensures Unseparated(index, ElementsTokens(false, lib, es, index, size)) == []
  {
  }

  lemma DropSeparator(x: Lexeme, a: seq<Lexeme>, b: seq<Lexeme>)
    ensures ([x] + a + b)[1..] == a + b
  {
  }

  lemma UnseparatedHead(lib: CLibrary, es: Entries, index: nat, size: nat)
    requires index < size
    ensures Unseparated(index, ElementsTokens(false, lib, es, index, size))
         == ElementTokens(false, lib, es, index) + ElementsTokens(false, lib, es, index + 1, size)
  {
    hide ElementTokens;
    DropSeparator(Punctuation(','), ElementTokens(false, lib, es, index),
                  ElementsTokens(false, lib, es, index + 1, size));
  }

  lemma SeparatedNext(lib: CLibrary, es: Entries, index: nat, size: nat)
    requires 0 < index < size
    ensures var ts := ElementsTokens(false, lib, es, index, size);
            ts == [Punctuation(',')] + Unseparated(index, ts)
  {
    hide ElementTokens;
    UnseparatedHead(lib, es, index, size);
  }

  lemma SeparatedRest(lib: CLibrary, es: Entries, index: nat, size: nat)
    requires index + 1 < size
    ensures Unseparated(index, ElementsTokens(false, lib, es, index, size))
         == ElementTokens(false, lib, es, index)
          + ([Punctuation(',')] + Unseparated(index + 1, ElementsTokens(false, lib, es, index + 1, size)))
  {
    hide ElementTokens, ElementsTokens, Unseparated;
    UnseparatedHead(lib, es, index, size);
    SeparatedNext(lib, es, index + 1, size);
  }

  lemma UnseparatedLast(lib: CLibrary, es: Entries, index: nat, size: nat)
    requires index + 1 == size
    ensures Unseparated(index, ElementsTokens(false, lib, es, index, size)) == ElementTokens(false, lib, es, index)
  {
    hide ElementTokens;
    UnseparatedHead(lib, es, index, size);
    assert ElementsTokens(false, lib, es, size, size) == [];
  }

  lemma {:induction false} StyledMembersTexts(st: Style, lib: CLibrary, indent: string, last: Option<char>,
                                              es: Entries, first: bool, s: string)
    requires AllPrintReals(lib, es) && AllSpaces(indent) && AllSpaces(st.unit) && EndsNumber(s)
    ensures Texts(StyledMembers(st, lib, indent, last, es) + s) == MembersTokens(false, lib, es, true) + Texts(s)
    decreases es, 1, 0
  {
    hide Texts, StyledMember, MemberTokens, PrintsReals;
    if es.Nil? {
      assert "" + s == s;
    } else {
      var member := StyledMember(st, lib, indent, last, es.key, es.value);
      if es.rest.Nil? {
        StyledMemberTexts(st, lib, indent, last, es.key, es.value, s);
        assert MembersTokens(false, lib, es.rest, false) == [];
      } else {
        var more := StyledMembers(st, lib, indent, Some(','), es.rest);
        StyledMemberTexts(st, lib, indent, last, es.key, es.value, "," + (more + s));
        TextsPunctuation(',', more + s);
        StyledMembersTexts(st, lib, indent, Some(','), es.rest, false, s);
        SeparatedMembers(lib, es.rest);
        assert StyledMembers(st, lib, indent, last, es) + s == member + ("," + (more + s));
      }
    }
  }

  lemma SeparatedMembers(lib: CLibrary, es: Entries)
    requires es.Cons?
    ensures MembersTokens(false, lib, es, false) == [Punctuation(',')] + MembersTokens(false, lib, es, true)
  {
    hide MemberTokens;
  }

  lemma {:induction false} StyledMemberTexts(st: Style, lib: CLibrary, indent: string, last: Option<char>, k: Key,
                                             v: Value, s: string)
    requires PrintsReals(lib, v) && AllSpaces(indent) && AllSpaces(st.unit) && EndsNumber(s)
    ensures Texts(StyledMember(st, lib, indent, last, k, v) + s) == MemberTokens(false, lib, k, v) + Texts(s)
    decreases v, 1, 0
  {
    hide Texts, IndentText, StyledText, TokensOf, Quote, KeyText, PrintsReals;
    var value := StyledText(st, lib, indent, Some(' '), v) + s;
    StyledTexts(st, lib, indent, Some(' '), v, s);
    ColonWithSpaces(value);
    TextsQuoted(KeyText(k), " : " + value);
    TextsIndent(st, indent, last, Quote(KeyText(k)) + (" : " + value));
    assert StyledMember(st, lib, indent, last, k, v) + s
           == IndentText(st, indent, last) + (Quote(KeyText(k)) + (" : " + value));
  }

  lemma ColonWithSpaces(s: string)
    ensures Texts(" : " + s) == [Punctuation(':')] + Texts(s)
  {
    hide Texts;
    TextsSpace(' ', ": " + s);
    TextsPunctuation(':', " " + s);
    TextsSpace(' ', s);
    assert " : " + s == " " + (": " + s);
    assert ": " + s == ":" + (" " + s);
  }

  // ---------------------------------------------------------------- arrays on one line

  lemma JoinedArrayTexts(st: Style, lib: CLibrary, indent: string, last: Option<char>, v: Value, s: string)
    requires PrintsReals(lib, v) && EndsNumber(s)
    requires v.data.Arr? && !IsSimple(v.data) && !IsMultiline(lib, v.data.elems)
    ensures Texts(StyledText(st, lib, indent, last, v) + s) == TokensOf(false, lib, v) + Texts(s)
  {
    hide Texts, IsSimple, ElementTexts, ElementsTokens, AllSimple, IsMultiline, JoinTexts, PrintsReals, AllPrintReals;
    hide StyledText;
    PrintsRealsParts(lib, v);
    SingleLineIsMeasured(lib, v.data.elems);
    SingleLineText(st, lib, indent, last, v);
    var es := v.data.elems;
    var body := JoinTexts(ElementTexts(lib, es, 0, ArraySize(es)));
    TextsPunctuation('[', " " + (body + (" ]" + s)));
    TextsSpace(' ', body + (" ]" + s));
    JoinedTexts(lib, es, 0, ArraySize(es), " ]" + s);
    TextsSpace(' ', "]" + s);
    TextsPunctuation(']', s);
    assert " ]" + s == " " + ("]" + s);
    assert StyledText(st, lib, indent, last, v) + s == "[" + (" " + (body + (" ]" + s)));
  }

  lemma SingleLineText(st: Style, lib: CLibrary, indent: string, last: Option<char>, v: Value)
    requires v.data.Arr? && !IsSimple(v.data) && !IsMultiline(lib, v.data.elems)
    ensures StyledText(st, lib, indent, last, v)
         == "[ " + JoinTexts(ElementTexts(lib, v.data.elems, 0, ArraySize(v.data.elems))) + " ]"
  {
    hide IsMultiline, JoinTexts, ElementTexts, IsSimple;
  }

  lemma {:induction false} JoinedLength(texts: seq<string>)
    requires texts != []
    ensures |JoinTexts(texts)| == TotalLength(texts) + 2 * (|texts| - 1)
  {
    if |texts| > 1 {
      JoinedLength(texts[1..]);
    }
  }

  /** An array is printed on one line exactly if its elements are simple, few, and the line is short enough. */
  lemma OneLineIff(lib: CLibrary, es: Entries)
    requires ArraySize(es) > 0
    ensures var line := "[ " + JoinTexts(ElementTexts(lib, es, 0, ArraySize(es))) + " ]";
            !IsMultiline(lib, es) <==>
                AllSimple(es, 0, ArraySize(es)) && 3 * ArraySize(es) < 74 && |line| < 74
  {
    hide ElementTexts, JoinTexts, TotalLength, AllSimple, ArraySize;
    ElementTextsLength(lib, es, 0, ArraySize(es));
    JoinedLength(ElementTexts(lib, es, 0, ArraySize(es)));
  }

  lemma JoinStep(texts: seq<string>, s: string)
    requires |texts| > 1
    ensures JoinTexts(texts) + s == texts[0] + ("," + (" " + (JoinTexts(texts[1..]) + s)))
  {
    SplitSeparator(texts[0], JoinTexts(texts[1..]), s);
  }

  lemma SplitSeparator(a: string, b: string, s: string)
    ensures a + ", " + b + s == a + ("," + (" " + (b + s)))
  {
  }

  lemma {:induction false} JoinedTexts(lib: CLibrary, es: Entries, index: nat, size: nat, s: string)
    requires AllPrintReals(lib, es) && AllSimple(es, index, size) && EndsNumber(s)
    ensures Texts(JoinTexts(ElementTexts(lib, es, index, size)) + s)
         == Unseparated(index, ElementsTokens(false, lib, es, index, size)) + Texts(s)
    decreases size - index
  {
    hide Texts, IsSimple, SimpleText, ElementTokens, ElementsTokens, Unseparated, AllPrintReals, Element;
    if index >= size {
      NoElements(lib, es, index, size);
      assert "" + s == s;
    } else {
      var text := SimpleText(lib, Element(es, index).data);
      var texts := ElementTexts(lib, es, index, size);
      var more := ElementTexts(lib, es, index + 1, size);
      assert texts[1..] == more;
      ElementTextsLength(lib, es, index, size);
      if index + 1 == size {
        SimpleElementTexts(lib, es, index, s);
        UnseparatedLast(lib, es, index, size);
      } else {
        var rest := JoinTexts(more) + s;
        SimpleElementTexts(lib, es, index, "," + (" " + rest));
        TextsPunctuation(',', " " + rest);
        TextsSpace(' ', rest);
        JoinedTexts(lib, es, index + 1, size, s);
        SeparatedRest(lib, es, index, size);
        JoinStep(texts, s);
      }
    }
  }

  lemma SimpleElementTexts(lib: CLibrary, es: Entries, index: nat, s: string)
    requires AllPrintReals(lib, es) && IsSimple(Element(es, index).data) && EndsNumber(s)
    ensures Texts(SimpleText(lib, Element(es, index).data) + s) == ElementTokens(false, lib, es, index) + Texts(s)
  {
    hide Texts, IsSimple, SimpleText, TokensOf, PrintsReals, PrintsReal, AllPrintReals, ScalarTokens;
    FoundPrintsReals(lib, es, Index(index));
    PrintsRealsParts(lib, Element(es, index));
    SimpleTexts(lib, Element(es, index).data, s);
    TokensIgnoreOffsets(false, lib, Element(es, index));
    NullTokens(false, lib, NULL_VALUE);
  }

  // ---------------------------------------------------------------- the theorems

  /** The whole output of a styled writer. */
  lemma StyledDocumentTexts(st: Style, lib: CLibrary, v: Value)
    requires PrintsReals(lib, v) && AllSpaces(st.unit)
    ensures Texts(StyledDocument(st, lib, v)) == TokensOf(false, lib, v)
  {
    hide StyledText, PrintsReals, TokensOf;
    StyledTexts(st, lib, "", None, v, "\n");
    assert Texts("\n") == [] by {
      TextsSpace('\n', "");
      assert "\n" + "" == "\n";
    }
  }

  /** Parsing what a styled writer prints gives back the canonical value. */
  lemma StyledRoundTrip(f: Features, lib: CLibrary, st: Style, v: Value, prev: Value)
    requires PrintsReals(lib, v) && AllSpaces(st.unit) && WellFormed(v) && HasBuffers(v)
    ensures var r := ParseDocument(f, lib, StyledDocument(st, lib, v), prev);
            && (r.ok <==> (f.strictRoot ==> IsContainer(v)))
            && (r.ok ==> Erase(r.root) == Canon(lib, v))
  {
    hide ParseDocument, StyledDocument, ReadValue, TokensOf, Texts, PrintsReals, WellFormed, HasBuffers;
    StyledDocumentTexts(st, lib, v);
    DocumentMatches(f, lib, StyledDocument(st, lib, v), prev);
    Reads(f, lib, v, []);
    assert TokensOf(false, lib, v) + [] == TokensOf(false, lib, v);
    CanonKeepsContainer(lib, v);
  }

  /** The tree comes back exactly if no string in it lacks a buffer, and a strict reader takes it. */
  lemma StyledRoundTripIff(f: Features, lib: CLibrary, st: Style, v: Value, prev: Value)
    requires PrintsReals(lib, v) && AllSpaces(st.unit) && WellFormed(v)
    ensures var r := ParseDocument(f, lib, StyledDocument(st, lib, v), prev);
            r.ok && Erase(r.root) == Canon(lib, v) <==> HasBuffers(v) && (f.strictRoot ==> IsContainer(v))
  {
    hide ParseDocument, StyledDocument, PrintsReals, WellFormed, HasBuffers, Canon, Erase;
    if HasBuffers(v) {
      StyledRoundTrip(f, lib, st, v, prev);
    } else {
      NothingReadsAs(f, lib, StyledDocument(st, lib, v), v, prev);
    }
  }
}
