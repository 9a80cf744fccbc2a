/**
 The token sequence of a value, and that `FastWriter` prints a text with exactly these tokens.
 */
module JsonTokens {
  import opened JsonLexer
  import opened JsonParser
  import opened JsonSparse
  import opened JsonTool
  import opened JsonValue
  import opened JsonWriter

  // ---------------------------------------------------------------- texts of one token

  lemma TextsSpace(c: char, s: string)
    requires IsSpace(c)
    ensures Texts([c] + s) == Texts(s)
  {
    hide Scan;
    assert ([c] + s)[1..] == s;
    assert Trim([c] + s) == Trim(s);
    SameTrimSameTexts([c] + s, s);
  }

  lemma SameTrimSameTexts(a: string, b: string)
    requires Trim(a) == Trim(b)
    ensures Texts(a) == Texts(b)
  {
    hide Scan, SpaceLen;
    if Trim(a) != "" {
      assert First(a) == First(b) && Rest(a) == Rest(b);
    }
  }

  lemma TextsLexeme(x: string, kind: TokenKind, s: string)
    requires x != "" && !IsSpace(x[0]) && Scan(x + s) == Lexed(kind, |x|)
    ensures Texts(x + s) == [Lexeme(kind, x)] + Texts(s)
  {
    assert SpaceLen(x + s) == 0;
    hide Scan, SpaceLen;
    assert Trim(x + s) == x + s;
    assert (x + s)[..|x|] == x && (x + s)[|x|..] == s;
  }

  lemma TextsPunctuation(c: char, s: string)
    requires c == '{' || c == '}' || c == '[' || c == ']' || c == ',' || c == ':'
    ensures Texts([c] + s) == [Lexeme(PunctuationKind(c), [c])] + Texts(s)
  {
    TextsLexeme([c], PunctuationKind(c), s);
  }

  lemma TextsLiteral(x: string, kind: TokenKind, s: string)
    requires (x == "null" && kind == NullToken) || (x == "true" && kind == TrueToken)
             || (x == "false" && kind == FalseToken)
    ensures Texts(x + s) == [Lexeme(kind, x)] + Texts(s)
  {
    assert (x + s)[1..] == x[1..] + s;
    assert x[1..] <= x[1..] + s;
    assert x[0] == (x + s)[0];
    TextsLexeme(x, kind, s);
  }

  /** The text cannot continue a number. */
  predicate EndsNumber(s: string) {
    s == "" || !IsNumberChar(s[0])
  }

  lemma {:induction false} NumberLenExact(x: string, s: string)
    requires (forall i :: 0 <= i < |x| ==> IsNumberChar(x[i])) && EndsNumber(s)
    ensures NumberLen(x + s) == |x|
  {
    if x == "" {
      assert x + s == s;
    } else {
      assert (x + s)[1..] == x[1..] + s;
      NumberLenExact(x[1..], s);
    }
  }

  lemma TextsNumber(x: string, s: string)
    requires IsNumberText(x) && EndsNumber(s)
    ensures Texts(x + s) == [Lexeme(NumberToken, x)] + Texts(s)
  {
    assert (x + s)[1..] == x[1..] + s;
    NumberLenExact(x[1..], s);
    TextsLexeme(x, NumberToken, s);
  }

  /** The scanner for strings passes over the escape of one character. */
  lemma StringScanEscape(c: char, s: string)
    ensures StringScan(EscapeChar(c) + s) == Further(|EscapeChar(c)|, StringScan(s))
  {
    var e := EscapeChar(c);
    if |e| == 1 {
      assert (e + s)[1..] == s;
    } else if |e| == 2 {
      assert (e + s)[2..] == s && (e + s)[0] == '\\';
    } else {
      StringScanControl(c as int, s);
    }
  }

  lemma StringScanControl(n: nat, s: string)
    requires n < 0x1_0000
    ensures StringScan("\\u" + Hex4(n) + s) == Further(6, StringScan(s))
  {
    var h := Hex4(n);
    var t := "\\u" + h + s;
    assert t[2..] == h + s;
    assert StringScan(t) == Further(2, StringScan(h + s));
    assert forall i :: 0 <= i < 4 ==> h[i] != '"' && h[i] != '\\';
    hide Hex4;
    StringScanPlain(h, s);
  }

  lemma {:induction false} StringScanPlain(x: string, s: string)
    requires forall i :: 0 <= i < |x| ==> x[i] != '"' && x[i] != '\\'
    ensures StringScan(x + s) == Further(|x|, StringScan(s))
  {
    if x == "" {
      assert x + s == s;
    } else {
      assert (x + s)[1..] == x[1..] + s;
      StringScanPlain(x[1..], s);
    }
  }

  /** The scanner stops exactly at the closing quote of a printed string. */
  lemma {:induction false} StringScanQuoted(text: string, s: string)
    ensures StringScan(EscapeAll(text) + "\"" + s) == Scanned(|EscapeAll(text)| + 1, true)
  {
    if text == "" {
      assert EscapeAll(text) + "\"" + s == "\"" + s;
    } else {
      hide EscapeChar;
      var rest := EscapeAll(text[1..]) + "\"" + s;
      assert EscapeAll(text) + "\"" + s == EscapeChar(text[0]) + rest;
      StringScanEscape(text[0], rest);
      StringScanQuoted(text[1..], s);
    }
  }

  lemma TextsQuoted(text: string, s: string)
    ensures Texts(Quote(text) + s) == [Lexeme(StringToken, Quote(text))] + Texts(s)
  {
    hide EscapeAll, StringScan;
    assert (Quote(text) + s)[1..] == EscapeAll(text) + "\"" + s;
    StringScanQuoted(text, s);
    TextsLexeme(Quote(text), StringToken, s);
  }

  // ---------------------------------------------------------------- the tokens of a value

  /** What is required of the C library: a real prints as a number text that it reads, or as null. */
  ghost predicate PrintsReal(lib: CLibrary, d: Data) {
    d.Real? ==>
      || lib.printDouble(d.d) == "null"
      || (IsNumberText(lib.printDouble(d.d)) && DecodeNumber(lib, lib.printDouble(d.d)).Some?)
  }

  /** The same for all reals of a value */
  ghost predicate PrintsReals(lib: CLibrary, v: Value)
    decreases v
  {
    match v.data
    case Arr(es) => AllPrintReals(lib, es)
    case Obj(es) => AllPrintReals(lib, es)
    case _ => PrintsReal(lib, v.data)
  }

  ghost predicate AllPrintReals(lib: CLibrary, es: Entries)
    decreases es
  {
    es.Cons? ==> PrintsReals(lib, es.value) && AllPrintReals(lib, es.rest)
  }

  lemma PrintsRealsParts(lib: CLibrary, v: Value)
    requires PrintsReals(lib, v)
    ensures v.data.Arr? ==> AllPrintReals(lib, v.data.elems)
    ensures v.data.Obj? ==> AllPrintReals(lib, v.data.members)
    ensures PrintsReal(lib, v.data)
  {
  }

  lemma {:induction false} FoundPrintsReals(lib: CLibrary, es: Entries, key: Key)
    requires AllPrintReals(lib, es)
    ensures PrintsReals(lib, Lookup(es, key))
  {
    if es.Cons? && es.key != key {
      FoundPrintsReals(lib, es.rest, key);
      assert Lookup(es, key) == Lookup(es.rest, key);
    }
  }

  function Punctuation(c: char): Lexeme {
    Lexeme(PunctuationKind(c), [c])
  }

  /** A null is dropped if asked for; a string without buffer prints nothing. */
  function ScalarTokens(drop: bool, lib: CLibrary, d: Data): seq<Lexeme> {
    match d
    case Null => if drop then [] else [Lexeme(NullToken, "null")]
    case Int(i) => [Lexeme(NumberToken, IntText(i))]
    case UInt(u) => [Lexeme(NumberToken, Digits(u))]
    case Real(x) =>
      if lib.printDouble(x) == "null" then [Lexeme(NullToken, "null")] else [Lexeme(NumberToken, lib.printDouble(x))]
    case Str(s) => if s.Some? then [Lexeme(StringToken, Quote(s.value))] else []
    case Bool(b) => if b then [Lexeme(TrueToken, "true")] else [Lexeme(FalseToken, "false")]
    case _ => []
  }

  function TokensOf(drop: bool, lib: CLibrary, v: Value): seq<Lexeme>
    decreases v, 0, 0
  {
    match v.data
    case Arr(es) => [Punctuation('[')] + ElementsTokens(drop, lib, es, 0, ArraySize(es)) + [Punctuation(']')]
    case Obj(es) => [Punctuation('{')] + MembersTokens(drop, lib, es, true) + [Punctuation('}')]
    case _ => ScalarTokens(drop, lib, v.data)
  }

  function ElementTokens(drop: bool, lib: CLibrary, es: Entries, index: nat): seq<Lexeme>
    decreases es, 0, 0
  {
    match Find(es, Index(index))
    case Some(v) => TokensOf(drop, lib, v)
    case None => ScalarTokens(drop, lib, Null)
  }

  function ElementsTokens(drop: bool, lib: CLibrary, es: Entries, index: nat, size: nat): seq<Lexeme>
    decreases es, 1, size - index
  {
    if index >= size then []
    else (if index > 0 then [Punctuation(',')] else []) + ElementTokens(drop, lib, es, index)
         + ElementsTokens(drop, lib, es, index + 1, size)
  }

  function MemberTokens(drop: bool, lib: CLibrary, k: Key, v: Value): seq<Lexeme>
    decreases v, 1, 0
  {
    [Lexeme(StringToken, Quote(KeyText(k))), Punctuation(':')] + TokensOf(drop, lib, v)
  }

  function MembersTokens(drop: bool, lib: CLibrary, es: Entries, first: bool): seq<Lexeme>
    decreases es, 1, 0
  {
    match es
    case Nil => []
    case Cons(k, v, rest) =>
      (if first then [] else [Punctuation(',')]) + MemberTokens(drop, lib, k, v) + MembersTokens(drop, lib, rest, false)
  }

  // ---------------------------------------------------------------- FastWriter prints these tokens

  lemma IntTextIsNumber(i: int)
    ensures IsNumberText(IntText(i))
  {
    var n := if i < 0 then -i else i;
    DigitsDenote(n);
    DigitsNonEmpty(n);
  }

  lemma DigitsNonEmpty(n: nat)
    ensures Digits(n) != "" && IsNumberText(Digits(n))
  {
    DigitsDenote(n);
  }

  lemma ScalarTexts(lib: CLibrary, d: Data, s: string)
    requires !d.Arr? && !d.Obj? && PrintsReal(lib, d) && EndsNumber(s)
    ensures Texts(ScalarText(lib, d) + s) == ScalarTokens(false, lib, d) + Texts(s)
  {
    hide Texts, Quote, Digits, IntText, DecodeNumber;
    match d
    case Null => TextsLiteral("null", NullToken, s);
    case Int(i) =>
      IntTextIsNumber(i);
      TextsNumber(IntText(i), s);
    case UInt(u) =>
      DigitsNonEmpty(u);
      TextsNumber(Digits(u), s);
    case Real(x) =>
      if lib.printDouble(x) == "null" {
        TextsLiteral("null", NullToken, s);
      } else {
        TextsNumber(lib.printDouble(x), s);
      }
    case Str(t) =>
      if t.Some? {
        TextsQuoted(t.value, s);
      } else {
        assert "" + s == s;
      }
    case Bool(b) =>
      if b {
        TextsLiteral("true", TrueToken, s);
      } else {
        TextsLiteral("false", FalseToken, s);
      }
  }

  lemma NullTexts(o: FastOptions, lib: CLibrary, s: string)
    ensures Texts(NullText(o) + s) == ScalarTokens(o.dropNulls, lib, Null) + Texts(s)
  {
    hide Texts;
    if o.dropNulls {
      assert "" + s == s;
    } else {
      TextsLiteral("null", NullToken, s);
    }
  }

  lemma {:induction false} FastTexts(o: FastOptions, lib: CLibrary, v: Value, s: string)
    requires PrintsReals(lib, v) && SizedBelow(v, MAX_INT) && EndsNumber(s)
    ensures Texts(FastText(o, lib, v) + s) == TokensOf(o.dropNulls, lib, v) + Texts(s)
    decreases v, 0, 0
  {
    hide Texts, FastElements, FastMembers, ElementsTokens, MembersTokens, ScalarText, SizedAllBelow, PrintsReals;
    hide PrintsReal, AllPrintReals;
    PrintsRealsParts(lib, v);
    if v.data.Arr? {
      var es := v.data.elems;
      var body := FastElements(o, lib, es, 0, ArraySize(es));
      TextsPunctuation('[', body + ("]" + s));
      FastElementsTexts(o, lib, es, 0, ArraySize(es), "]" + s);
      TextsPunctuation(']', s);
      assert FastText(o, lib, v) + s == ['['] + (body + ("]" + s));
    } else if v.data.Obj? {
      var body := FastMembers(o, lib, v.data.members, true);
      TextsPunctuation('{', body + ("}" + s));
      FastMembersTexts(o, lib, v.data.members, true, "}" + s);
      TextsPunctuation('}', s);
      assert FastText(o, lib, v) + s == ['{'] + (body + ("}" + s));
    } else if v.data.Null? {
      NullTexts(o, lib, s);
    } else {
      ScalarTexts(lib, v.data, s);
      NotDropped(o.dropNulls, lib, v.data);
    }
  }

  lemma NotDropped(drop: bool, lib: CLibrary, d: Data)
    requires !d.Null?
    ensures ScalarTokens(drop, lib, d) == ScalarTokens(false, lib, d)
  {
  }

  lemma {:induction false} FastElementTexts(o: FastOptions, lib: CLibrary, es: Entries, index: nat, s: string)
    requires AllPrintReals(lib, es) && SizedAllBelow(es, MAX_INT) && EndsNumber(s)
    ensures Texts(FastElement(o, lib, es, index) + s)
         == (if index > 0 then [Punctuation(',')] else []) + ElementTokens(o.dropNulls, lib, es, index) + Texts(s)
    decreases es, 0, 0
  {
    hide Texts, FastText, TokensOf, NullText, ScalarTokens, SizedBelow, SizedAllBelow, PrintsReals, AllPrintReals;
    FoundPrintsReals(lib, es, Index(index));
    var element := match Find(es, Index(index)) case Some(v) => FastText(o, lib, v) case None => NullText(o);
    FoundIsSized(es, MAX_INT, Index(index));
    match Find(es, Index(index)) {
      case Some(v) => FastTexts(o, lib, v, s);
      case None => NullTexts(o, lib, s);
    }
    if index > 0 {
      TextsPunctuation(',', element + s);
      assert FastElement(o, lib, es, index) + s == [','] + (element + s);
    } else {
      assert FastElement(o, lib, es, index) + s == element + s;
    }
  }

  lemma {:induction false} FastElementsTexts(o: FastOptions, lib: CLibrary, es: Entries, index: nat, size: nat,
                                             s: string)
    requires AllPrintReals(lib, es) && SizedAllBelow(es, MAX_INT) && EndsNumber(s)
    ensures Texts(FastElements(o, lib, es, index, size) + s)
            == ElementsTokens(o.dropNulls, lib, es, index, size) + Texts(s)
    decreases es, 1, size - index
  {
    hide Texts, FastElement, ElementTokens, SizedAllBelow, AllPrintReals;
    if index >= size {
      assert "" + s == s;
    } else {
      var rest := FastElements(o, lib, es, index + 1, size);
      FastElementsTexts(o, lib, es, index + 1, size, s);
      ElementsEndNumber(o, lib, es, index + 1, size, s);
      FastElementTexts(o, lib, es, index, rest + s);
      assert FastElements(o, lib, es, index, size) + s == FastElement(o, lib, es, index) + (rest + s);
    }
  }

  lemma ElementsEndNumber(o: FastOptions, lib: CLibrary, es: Entries, index: nat, size: nat, s: string)
    requires index > 0 && EndsNumber(s)
    ensures EndsNumber(FastElements(o, lib, es, index, size) + s)
  {
    hide FastText, NullText;
    if index < size {
      assert FastElement(o, lib, es, index)[0] == ',';
    } else {
      assert FastElements(o, lib, es, index, size) + s == s;
    }
  }

  lemma {:induction false} FastMembersTexts(o: FastOptions, lib: CLibrary, es: Entries, first: bool, s: string)
    requires AllPrintReals(lib, es) && SizedAllBelow(es, MAX_INT) && EndsNumber(s)
    ensures Texts(FastMembers(o, lib, es, first) + s) == MembersTokens(o.dropNulls, lib, es, first) + Texts(s)
    decreases es, 1, 0
  {
    hide Texts, FastMember, MemberTokens, PrintsReals, SizedBelow, EndsNumber;
    if es.Nil? {
      assert "" + s == s;
    } else {
      var rest := FastMembers(o, lib, es.rest, false);
      FastMembersTexts(o, lib, es.rest, false, s);
      MembersEndNumber(o, lib, es.rest, s);
      FastMemberTexts(o, lib, es.key, es.value, first, rest + s);
      Regroup(FastMember(o, lib, es.key, es.value, first), rest, "", "", s);
    }
  }

  lemma MembersEndNumber(o: FastOptions, lib: CLibrary, es: Entries, s: string)
    requires EndsNumber(s)
    ensures EndsNumber(FastMembers(o, lib, es, false) + s)
  {
    hide FastText, Quote, ColonText;
    if es.Cons? {
      assert FastMember(o, lib, es.key, es.value, false)[0] == ',';
    } else {
      assert FastMembers(o, lib, es, false) + s == s;
    }
  }

  lemma {:induction false} FastMemberTexts(o: FastOptions, lib: CLibrary, k: Key, v: Value, first: bool, s: string)
    requires PrintsReals(lib, v) && SizedBelow(v, MAX_INT) && EndsNumber(s)
    ensures Texts(FastMember(o, lib, k, v, first) + s)
         == (if first then [] else [Punctuation(',')]) + MemberTokens(o.dropNulls, lib, k, v) + Texts(s)
    decreases v, 1, 0
  {
    hide Texts, FastText, TokensOf, Quote, PrintsReals, SizedBelow, KeyText, ColonText;
    FastTexts(o, lib, v, s);
    var value := FastText(o, lib, v) + s;
    ColonTexts(o, value);
    var colon := ColonText(o) + value;
    TextsQuoted(KeyText(k), colon);
    var member := Quote(KeyText(k)) + colon;
    var separator := if first then "" else ",";
    Regroup(separator, Quote(KeyText(k)), ColonText(o), FastText(o, lib, v), s);
    if first {
      assert separator + member == member;
    } else {
      TextsPunctuation(',', member);
    }
  }

  lemma ColonTexts(o: FastOptions, s: string)
    ensures Texts(ColonText(o) + s) == [Punctuation(':')] + Texts(s)
  {
    hide Texts;
    if o.yaml {
      TextsPunctuation(':', " " + s);
      TextsSpace(' ', s);
      assert ": " + s == ":" + (" " + s);
    } else {
      TextsPunctuation(':', s);
    }
  }

  lemma {:induction false} CutPrintsReals(lib: CLibrary, v: Value)
    requires PrintsReals(lib, v)
    ensures PrintsReals(lib, Cut(v))
    decreases v, 0
  {
    hide PrintsReal;
    if v.data.Arr? {
      CutAllPrintReals(lib, v.data.elems);
    } else if v.data.Obj? {
      CutAllPrintReals(lib, v.data.members);
    }
  }

  lemma {:induction false} CutAllPrintReals(lib: CLibrary, es: Entries)
    requires AllPrintReals(lib, es)
    ensures AllPrintReals(lib, CutAll(es))
    decreases es, 1
  {
    if es.Cons? {
      CutPrintsReals(lib, es.value);
      CutAllPrintReals(lib, es.rest);
    }
  }

  /** The whole output of `FastWriter::write`; nothing is printed of the arrays that are cut. */
  lemma FastDocumentTexts(o: FastOptions, lib: CLibrary, v: Value)
    requires PrintsReals(lib, v) && WellFormed(v)
    ensures Texts(FastDocument(o, lib, v)) == TokensOf(o.dropNulls, lib, Cut(v))
  {
    hide FastText, PrintsReals, SizedBelow, TokensOf, WellFormed, Cut;
    var end := if o.omitLineFeed then "" else "\n";
    CutPrintsSame(o, lib, v);
    CutPrintsReals(lib, v);
    CutIsSized(v);
    FastTexts(o, lib, Cut(v), end);
    assert Texts(end) == [] by {
      TextsSpace('\n', "");
      assert "\n" + "" == "\n";
    }
  }
}
