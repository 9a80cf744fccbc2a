/**
 The styled writers print the tokens that FastWriter prints, and deleting the whitespace outside
 string literals turns the output of a styled writer into the output of FastWriter.
 */
module JsonWhitespace {
  import opened JsonLayout
  import opened JsonLexer
  import opened JsonParser
  import opened JsonRoundTrip
  import opened JsonSparse
  import opened JsonStyled
  import opened JsonTokens
  import opened JsonTool
  import opened JsonValue
  import opened JsonWriter

  /** A text without the whitespace between its tokens: its token texts in a row. */
  function Squeeze(ts: seq<Lexeme>): string {
    if ts == [] then "" else ts[0].text + Squeeze(ts[1..])
  }

  lemma {:induction false} SqueezeAppend(a: seq<Lexeme>, b: seq<Lexeme>)
    ensures Squeeze(a + b) == Squeeze(a) + Squeeze(b)
  {
    if a == [] {
      assert a + b == b;
    } else {
      assert (a + b)[1..] == a[1..] + b;
      SqueezeAppend(a[1..], b);
    }
  }

  /** Deletes the whitespace outside string literals. */
  function DeleteSpaces(s: string): string {
    if s == "" then ""
    else if IsSpace(s[0]) then DeleteSpaces(s[1..])
    else if s[0] == '"' then
      var n := 1 + StringScan(s[1..]).len;
      s[..n] + DeleteSpaces(s[n..])
    else [s[0]] + DeleteSpaces(s[1..])
  }

  /** Tokens of JSON proper: no comments, errors or embedded NULs. */
  predicate IsProper(kind: TokenKind) {
    kind != CommentToken && kind != ErrorToken && kind != EndOfStream
  }

  predicate AllProper(ts: seq<Lexeme>) {
    forall i :: 0 <= i < |ts| ==> IsProper(ts[i].kind) && (ts[i].kind == MemberSeparator ==> ts[i].text == ":")
  }

  /** The token texts in a row, with another text for every colon */
  function Row(ts: seq<Lexeme>, colon: string): string {
    if ts == [] then ""
    else (if ts[0].kind == MemberSeparator then colon else ts[0].text) + Row(ts[1..], colon)
  }

  lemma {:induction false} RowAppend(a: seq<Lexeme>, b: seq<Lexeme>, colon: string)
    ensures Row(a + b, colon) == Row(a, colon) + Row(b, colon)
  {
    if a == [] {
      assert a + b == b;
    } else {
      assert (a + b)[1..] == a[1..] + b;
      RowAppend(a[1..], b, colon);
    }
  }

  lemma {:induction false} RowIsSqueeze(ts: seq<Lexeme>)
    requires AllProper(ts)
    ensures Row(ts, ":") == Squeeze(ts)
  {
    if ts != [] {
      RowIsSqueeze(ts[1..]);
    }
  }

  lemma {:induction false} DeleteFromTrim(s: string)
    ensures DeleteSpaces(Trim(s)) == DeleteSpaces(s)
  {
    if s != "" && IsSpace(s[0]) {
      assert Trim(s) == Trim(s[1..]);
      DeleteFromTrim(s[1..]);
    }
  }

  lemma {:induction false} DeletePlain(x: string, s: string)
    requires forall i :: 0 <= i < |x| ==> !IsSpace(x[i]) && x[i] != '"'
    ensures DeleteSpaces(x + s) == x + DeleteSpaces(s)
  {
    if x == "" {
      assert x + s == s;
    } else {
      assert (x + s)[1..] == x[1..] + s;
      DeletePlain(x[1..], s);
      assert x == [x[0]] + x[1..];
    }
  }

  lemma ProperLexemeIsPlain(t: string)
    requires t != "" && IsProper(Scan(t).kind) && Scan(t).kind != StringToken
    ensures forall i :: 0 <= i < Scan(t).len ==> !IsSpace(t[i]) && t[i] != '"'
  {
    hide StringScan, CommentScan, NumberLen;
    var rest := t[1..];
    NumberLenChars(rest);
    forall i | 0 <= i < Scan(t).len ensures !IsSpace(t[i]) && t[i] != '"' {
      if i > 0 {
        assert t[i] == rest[i - 1];
      }
    }
  }

  lemma DeleteInLexeme(t: string)
    requires t != "" && IsProper(Scan(t).kind) && !IsSpace(t[0])
    ensures DeleteSpaces(t) == t[..Scan(t).len] + DeleteSpaces(t[Scan(t).len..])
  {
    hide Scan, DeleteSpaces;
    if Scan(t).kind == StringToken {
      DeleteInString(t);
    } else {
      ProperLexemeIsPlain(t);
      DeletePlain(t[..Scan(t).len], t[Scan(t).len..]);
      assert t[..Scan(t).len] + t[Scan(t).len..] == t;
    }
  }

  lemma DeleteInString(t: string)
    requires t != "" && Scan(t).kind == StringToken
    ensures DeleteSpaces(t) == t[..Scan(t).len] + DeleteSpaces(t[Scan(t).len..])
  {
    StringTokenScan(t);
    hide Scan, StringScan;
  }

  lemma StringTokenScan(t: string)
    requires t != "" && Scan(t).kind == StringToken
    ensures t[0] == '"' && Scan(t).len == 1 + StringScan(t[1..]).len
  {
    hide StringScan, CommentScan, NumberLen;
  }

  lemma {:induction false} TrimStartsPlain(s: string)
    ensures Trim(s) != "" ==> !IsSpace(Trim(s)[0])
  {
    if s != "" && IsSpace(s[0]) {
      assert Trim(s) == Trim(s[1..]);
      TrimStartsPlain(s[1..]);
    }
  }

  /** In a text of proper tokens, deleting whitespace leaves the token texts in a row. */
  lemma {:induction false} DeletingIsSqueezing(s: string)
    requires AllProper(Texts(s))
    ensures DeleteSpaces(s) == Squeeze(Texts(s))
    decreases |s|
  {
    hide Trim, Scan, DeleteSpaces, IsSpace;
    DeleteFromTrim(s);
    UnfoldTexts(s);
    if Trim(s) != "" {
      TrimStartsPlain(s);
      assert IsProper(First(s).kind);
      DeleteInLexeme(Trim(s));
      assert Texts(Rest(s)) == Texts(s)[1..];
      DeletingIsSqueezing(Rest(s));
    } else {
      DeleteNothing();
    }
  }

  lemma DeleteNothing()
    ensures DeleteSpaces("") == ""
  {
  }

  // ---------------------------------------------------------------- the tokens are proper

  lemma ScalarProper(lib: CLibrary, d: Data)
    ensures AllProper(ScalarTokens(false, lib, d))
            && (!d.Arr? && !d.Obj? ==> Squeeze(ScalarTokens(false, lib, d)) == ScalarText(lib, d))
  {
    hide Quote, IntText, Digits;
    forall x: Lexeme ensures Squeeze([x]) == x.text {
      assert [x][1..] == [];
      assert Squeeze([]) == "";
    }
  }

  lemma {:induction false} TokensAreProper(lib: CLibrary, v: Value)
    ensures AllProper(TokensOf(false, lib, v))
    decreases v, 0, 0
  {
    hide ElementsTokens, MembersTokens, ScalarTokens;
    if v.data.Arr? {
      ElementsAreProper(lib, v.data.elems, 0, ArraySize(v.data.elems));
    } else if v.data.Obj? {
      MembersAreProper(lib, v.data.members, true);
    } else {
      ScalarProper(lib, v.data);
    }
  }

  lemma {:induction false} ElementsAreProper(lib: CLibrary, es: Entries, index: nat, size: nat)
    ensures AllProper(ElementsTokens(false, lib, es, index, size))
    decreases es, 1, size - index
  {
    hide TokensOf, ScalarTokens;
    if index < size {
      match Find(es, Index(index)) {
        case Some(v) => TokensAreProper(lib, v);
        case None => ScalarProper(lib, Null);
      }
      ElementsAreProper(lib, es, index + 1, size);
    }
  }

  lemma {:induction false} MembersAreProper(lib: CLibrary, es: Entries, first: bool)
    ensures AllProper(MembersTokens(false, lib, es, first))
    decreases es, 1, 0
  {
    hide TokensOf, Quote;
    if es.Cons? {
      TokensAreProper(lib, es.value);
      MembersAreProper(lib, es.rest, false);
    }
  }

  // ---------------------------------------------------------------- FastWriter's text

  lemma SqueezeOne(x: Lexeme)
    ensures Squeeze([x]) == x.text
  {
    assert [x][1..] == [];
    assert Squeeze([]) == "";
  }

  lemma SqueezeNothing()
    ensures Squeeze([]) == ""
  {
  }

  lemma Bracketed(open: char, body: seq<Lexeme>, close: char)
    ensures Squeeze([Punctuation(open)] + body + [Punctuation(close)]) == [open] + Squeeze(body) + [close]
  {
    hide Squeeze;
    SqueezeAppend([Punctuation(open)] + body, [Punctuation(close)]);
    SqueezeAppend([Punctuation(open)], body);
    SqueezeOne(Punctuation(open));
    SqueezeOne(Punctuation(close));
  }

  function Separator(first: bool): seq<Lexeme> {
    if first then [] else [Punctuation(',')]
  }

  /** A run of tokens in three parts */
  lemma SqueezeThree(a: seq<Lexeme>, b: seq<Lexeme>, c: seq<Lexeme>)
    ensures Squeeze(a + b + c) == Squeeze(a) + Squeeze(b) + Squeeze(c)
  {
    hide Squeeze;
    SqueezeAppend(a + b, c);
    SqueezeAppend(a, b);
  }

  lemma RowOne(x: Lexeme, colon: string)
    ensures Row([x], colon) == if x.kind == MemberSeparator then colon else x.text
    ensures Row([], colon) == ""
  {
    assert [x][1..] == [];
  }

  lemma RowThree(a: seq<Lexeme>, b: seq<Lexeme>, c: seq<Lexeme>, colon: string)
    ensures Row(a + b + c, colon) == Row(a, colon) + Row(b, colon) + Row(c, colon)
  {
    hide Row;
    RowAppend(a + b, c, colon);
    RowAppend(a, b, colon);
  }

  lemma ScalarRow(o: FastOptions, lib: CLibrary, d: Data, colon: string)
    requires !d.Arr? && !d.Obj?
    ensures Row(ScalarTokens(o.dropNulls, lib, d), colon) == if d.Null? then NullText(o) else ScalarText(lib, d)
  {
    hide Quote, IntText, Digits, Row;
    if ScalarTokens(o.dropNulls, lib, d) != [] {
      RowOne(ScalarTokens(o.dropNulls, lib, d)[0], colon);
    } else {
      RowOne(Punctuation(','), colon);
    }
  }

  lemma RowBrackets(open: char, body: seq<Lexeme>, close: char, colon: string)
    requires open != ':' && close != ':'
    ensures Row([Punctuation(open)] + body + [Punctuation(close)], colon) == [open] + Row(body, colon) + [close]
  {
    hide Row;
    RowThree([Punctuation(open)], body, [Punctuation(close)], colon);
    RowOne(Punctuation(open), colon);
    RowOne(Punctuation(close), colon);
  }

  lemma RowSeparator(first: bool, colon: string)
    ensures Row(Separator(first), colon) == if first then "" else ","
  {
    hide Row;
    RowOne(Punctuation(','), colon);
  }

  /** FastWriter's text is its token texts in a row. */
  lemma {:induction false} FastIsRow(o: FastOptions, lib: CLibrary, v: Value)
    requires SizedBelow(v, MAX_INT)
    ensures Row(TokensOf(o.dropNulls, lib, v), ColonText(o)) == FastText(o, lib, v)
    decreases v, 0, 0
  {
    hide Row, FastElements, FastMembers, ElementsTokens, MembersTokens, ScalarText, ScalarTokens, SizedAllBelow;
    hide ColonText, NullText;
    var colon := ColonText(o);
    if v.data.Arr? {
      var es := v.data.elems;
      FastElementsRow(o, lib, es, 0, ArraySize(es));
      RowBrackets('[', ElementsTokens(o.dropNulls, lib, es, 0, ArraySize(es)), ']', colon);
    } else if v.data.Obj? {
      FastMembersRow(o, lib, v.data.members, true);
      RowBrackets('{', MembersTokens(o.dropNulls, lib, v.data.members, true), '}', colon);
    } else {
      ScalarRow(o, lib, v.data, colon);
    }
  }

  lemma {:induction false} FastElementsRow(o: FastOptions, lib: CLibrary, es: Entries, index: nat, size: nat)
    requires SizedAllBelow(es, MAX_INT)
    ensures Row(ElementsTokens(o.dropNulls, lib, es, index, size), ColonText(o))
            == FastElements(o, lib, es, index, size)
    decreases es, 1, size - index
  {
    hide Row, FastText, TokensOf, ScalarTokens, SizedAllBelow, SizedBelow, ColonText, NullText;
    var colon := ColonText(o);
    RowOne(Punctuation(','), colon);
    if index < size {
      FoundIsSized(es, MAX_INT, Index(index));
      match Find(es, Index(index)) {
        case Some(v) => FastIsRow(o, lib, v);
        case None => ScalarRow(o, lib, Null, colon);
      }
      FastElementsRow(o, lib, es, index + 1, size);
      RowSeparator(index == 0, colon);
      RowThree(Separator(index == 0), ElementTokens(o.dropNulls, lib, es, index),
               ElementsTokens(o.dropNulls, lib, es, index + 1, size), colon);
    }
  }

  lemma FastMemberRow(o: FastOptions, lib: CLibrary, k: Key, v: Value, first: bool)
    requires Row(TokensOf(o.dropNulls, lib, v), ColonText(o)) == FastText(o, lib, v)
    ensures (if first then "" else ",") + Row(MemberTokens(o.dropNulls, lib, k, v), ColonText(o))
         == FastMember(o, lib, k, v, first)
  {
    hide Row, FastText, TokensOf, Quote, KeyText, ColonText;
    var colon, name := ColonText(o), Lexeme(StringToken, Quote(KeyText(k)));
    RowOne(name, colon);
    RowOne(Punctuation(':'), colon);
    RowThree([name], [Punctuation(':')], TokensOf(o.dropNulls, lib, v), colon);
    assert [name] + [Punctuation(':')] == [name, Punctuation(':')];
    Regroup(if first then "" else ",", Quote(KeyText(k)), colon, FastText(o, lib, v), "");
  }

  lemma {:induction false} FastMembersRow(o: FastOptions, lib: CLibrary, es: Entries, first: bool)
    requires SizedAllBelow(es, MAX_INT)
    ensures Row(MembersTokens(o.dropNulls, lib, es, first), ColonText(o)) == FastMembers(o, lib, es, first)
    decreases es, 1, 0
  {
    hide Row, TokensOf, FastText, MemberTokens, FastMember, SizedBelow, ColonText;
    var colon := ColonText(o);
    RowOne(Punctuation(','), colon);
    if es.Cons? {
      FastIsRow(o, lib, es.value);
      FastMemberRow(o, lib, es.key, es.value, first);
      FastMembersRow(o, lib, es.rest, false);
      RowSeparator(first, colon);
      RowThree(Separator(first), MemberTokens(o.dropNulls, lib, es.key, es.value),
               MembersTokens(o.dropNulls, lib, es.rest, false), colon);
    }
  }

  /**
   What FastWriter prints, character by character: the token texts with nothing between them, a blank
   behind each colon if YAML is to understand it, and a line feed at the end unless that is omitted.
   */
  lemma FastDocumentIs(o: FastOptions, lib: CLibrary, v: Value)
    requires WellFormed(v)
    ensures FastDocument(o, lib, v)
         == Row(TokensOf(o.dropNulls, lib, Cut(v)), if o.yaml then ": " else ":") + if o.omitLineFeed then "" else "\n"
  {
    hide Row, TokensOf, FastText, WellFormed, SizedBelow, Cut;
    CutPrintsSame(o, lib, v);
    CutIsSized(v);
    FastIsRow(o, lib, Cut(v));
  }

  lemma FastIsSqueezed(o: FastOptions, lib: CLibrary, v: Value)
    requires !o.yaml && !o.dropNulls && SizedBelow(v, MAX_INT)
    ensures Squeeze(TokensOf(false, lib, v)) == FastText(o, lib, v)
  {
    hide Row, Squeeze, TokensOf, FastText, SizedBelow, AllProper;
    FastIsRow(o, lib, v);
    TokensAreProper(lib, v);
    RowIsSqueeze(TokensOf(false, lib, v));
  }

  // ---------------------------------------------------------------- what is cut is missed

  /** Elements behind the first show at least a separator. */
  lemma ElementsShow(lib: CLibrary, es: Entries, size: nat)
    requires size > 1
    ensures Squeeze(ElementsTokens(false, lib, es, 0, size)) != ""
  {
    hide Squeeze, ElementTokens;
    SqueezeAppend(ElementTokens(false, lib, es, 0), ElementsTokens(false, lib, es, 1, size));
    var after := ElementTokens(false, lib, es, 1) + ElementsTokens(false, lib, es, 2, size);
    assert ElementsTokens(false, lib, es, 1, size) == [Punctuation(',')] + after;
    SqueezeAppend([Punctuation(',')], after);
    SqueezeOne(Punctuation(','));
    assert ElementsTokens(false, lib, es, 0, size)
        == ElementTokens(false, lib, es, 0) + ElementsTokens(false, lib, es, 1, size);
    assert |","| == 1;
  }

  /** Cutting makes the token texts shorter, unless nothing is cut. */
  lemma {:induction false} CutShortens(lib: CLibrary, v: Value)
    requires WellFormed(v)
    ensures |Squeeze(TokensOf(false, lib, Cut(v)))| <= |Squeeze(TokensOf(false, lib, v))|
    ensures |Squeeze(TokensOf(false, lib, Cut(v)))| == |Squeeze(TokensOf(false, lib, v))| ==> SizedBelow(v, MAX_INT)
    decreases v, 0, 0
  {
    hide Squeeze, ElementTokens, MembersTokens, ScalarTokens, WellFormedAll, ArraySize, SizedAllBelow;
    if v.data.Arr? {
      var es, size := v.data.elems, ArraySize(v.data.elems);
      Bracketed('[', ElementsTokens(false, lib, es, 0, size), ']');
      CutKeepsSize(es);
      if size > MAX_INT {
        ElementsShow(lib, es, size);
        EmptyArrayTokens(lib);
      } else {
        Bracketed('[', ElementsTokens(false, lib, CutAll(es), 0, size), ']');
        CutElementsShorten(lib, es, 0, size);
        if !SizedAllBelow(es, MAX_INT) {
          var large := UnsizedEntry(es);
          var i := EntryIsFound(es, large);
        }
      }
    } else if v.data.Obj? {
      Bracketed('{', MembersTokens(false, lib, v.data.members, true), '}');
      Bracketed('{', MembersTokens(false, lib, CutAll(v.data.members), true), '}');
      CutMembersShorten(lib, v.data.members, true);
    }
  }

  lemma EmptyArrayTokens(lib: CLibrary)
    ensures Squeeze([Punctuation('[')] + ElementsTokens(false, lib, Nil, 0, ArraySize(Nil)) + [Punctuation(']')])
            == "[]"
  {
    Bracketed('[', ElementsTokens(false, lib, Nil, 0, ArraySize(Nil)), ']');
    SqueezeNothing();
  }

  lemma {:induction false} CutElementsShorten(lib: CLibrary, es: Entries, index: nat, size: nat)
    requires WellFormedAll(es, true)
    ensures var cut := |Squeeze(ElementsTokens(false, lib, CutAll(es), index, size))|;
            var whole := |Squeeze(ElementsTokens(false, lib, es, index, size))|;
            && cut <= whole
            && (cut == whole ==> forall i: nat | index <= i < size && Find(es, Index(i)).Some? ::
                                   SizedBelow(Find(es, Index(i)).value, MAX_INT))
    decreases es, 1, size - index
  {
    hide Squeeze, TokensOf, ScalarTokens, WellFormedAll, SizedBelow;
    if index < size {
      FindCut(es, Index(index));
      FoundIsWellFormed(es, true, Index(index));
      if Find(es, Index(index)).Some? {
        CutShortens(lib, Find(es, Index(index)).value);
      }
      CutElementsShorten(lib, es, index + 1, size);
      SqueezeThree(Separator(index == 0), ElementTokens(false, lib, es, index),
                   ElementsTokens(false, lib, es, index + 1, size));
      SqueezeThree(Separator(index == 0), ElementTokens(false, lib, CutAll(es), index),
                   ElementsTokens(false, lib, CutAll(es), index + 1, size));
    }
  }

  lemma {:induction false} CutMembersShorten(lib: CLibrary, es: Entries, first: bool)
    requires WellFormedAll(es, false)
    ensures var cut := |Squeeze(MembersTokens(false, lib, CutAll(es), first))|;
            var whole := |Squeeze(MembersTokens(false, lib, es, first))|;
            cut <= whole && (cut == whole ==> SizedAllBelow(es, MAX_INT))
    decreases es, 1, 0
  {
    hide Squeeze, TokensOf, Quote, WellFormed, SizedBelow, Cut;
    if es.Cons? {
      CutShortens(lib, es.value);
      CutMembersShorten(lib, es.rest, false);
      var name := [Lexeme(StringToken, Quote(KeyText(es.key))), Punctuation(':')];
      SqueezeAppend(name, TokensOf(false, lib, es.value));
      SqueezeAppend(name, TokensOf(false, lib, Cut(es.value)));
      SqueezeThree(Separator(first), MemberTokens(false, lib, es.key, es.value),
                   MembersTokens(false, lib, es.rest, false));
      SqueezeThree(Separator(first), MemberTokens(false, lib, es.key, Cut(es.value)),
                   MembersTokens(false, lib, CutAll(es.rest), false));
    }
  }

  lemma SameWhenSized(lib: CLibrary, v: Value)
    requires WellFormed(v)
    ensures Squeeze(TokensOf(false, lib, Cut(v))) == Squeeze(TokensOf(false, lib, v)) <==> SizedBelow(v, MAX_INT)
  {
    hide Squeeze, TokensOf, WellFormed, SizedBelow, Cut;
    CutShortens(lib, v);
    if SizedBelow(v, MAX_INT) {
      SizedIsUncut(v);
    }
  }

  // ---------------------------------------------------------------- the theorems

  /**
   The styled writers print the tokens that FastWriter prints, exactly if FastWriter cuts no array.
   */
  lemma LayoutKeepsTokens(st: Style, o: FastOptions, lib: CLibrary, v: Value)
    requires PrintsReals(lib, v) && WellFormed(v) && AllSpaces(st.unit) && !o.dropNulls
    ensures Texts(StyledDocument(st, lib, v)) == Texts(FastDocument(o, lib, v)) <==> SizedBelow(v, MAX_INT)
  {
    hide Texts, StyledDocument, FastDocument, TokensOf, PrintsReals, SizedBelow, WellFormed, Cut, Squeeze;
    StyledDocumentTexts(st, lib, v);
    FastDocumentTexts(o, lib, v);
    SameWhenSized(lib, v);
    if SizedBelow(v, MAX_INT) {
      SizedIsUncut(v);
    }
  }

  /**
   Deleting the whitespace outside string literals from the styled output gives FastWriter's text,
   exactly if FastWriter cuts no array.
   */
  lemma DeletingGivesFastText(st: Style, o: FastOptions, lib: CLibrary, v: Value)
    requires PrintsReals(lib, v) && WellFormed(v) && AllSpaces(st.unit) && !o.yaml && !o.dropNulls
    ensures DeleteSpaces(StyledDocument(st, lib, v)) == FastText(o, lib, v) <==> SizedBelow(v, MAX_INT)
  {
    hide Texts, DeleteSpaces, StyledDocument, FastText, TokensOf, PrintsReals, SizedBelow, WellFormed, Squeeze;
    hide AllProper, Cut;
    StyledDocumentTexts(st, lib, v);
    TokensAreProper(lib, v);
    DeletingIsSqueezing(StyledDocument(st, lib, v));
    CutPrintsSame(o, lib, v);
    CutIsSized(v);
    FastIsSqueezed(o, lib, Cut(v));
    SameWhenSized(lib, v);
  }
}
