/**
 What the reader takes although the JSON grammar does not have it, each with the exact condition:
 a missing comma behind a comment, a trailing comma behind the empty name, a minus without digits,
 and comments that are taken although they are not allowed.
 */
module JsonExtensions {
  import opened JsonGrammar
  import opened JsonLexer
  import opened JsonParser
  import opened JsonSpelling
  import opened JsonSyntax
  import opened JsonTokens
  import opened JsonTool
  import opened JsonValue
  import opened Wrappers

  // ---------------------------------------------------------------- objects that go on after their members

  /** An object whose members are followed by some other text before its closing brace */
  function SpellObject(space: seq<Blank>, fields: Fields, more: string): string {
    "{" + (SpellBlanks(space) + (SpellFields(fields, true) + more))
  }

  function ObjectReading(r: Entering): Reading {
    match r
    case RejectEntries => Reject
    case AcceptEntries(es, rest) => Accept(Leaf(Obj(es)), rest)
  }

  /** Such an object is read like its members, and then what is behind the last value decides. */
  lemma ObjectGoesOn(f: Features, lib: CLibrary, space: seq<Blank>, fields: Fields, more: string)
    requires AreBlanks(space) && AreFields(fields) && fields.Field? && EndsNumber(more)
    ensures var denoted := DenotedFields(lib, fields, Nil);
            ReadValue(f, lib, Texts(SpellObject(space, fields, more))) ==
              if FieldsFit(f.allowComments, fields) && denoted.Some? then
                ObjectReading(AfterMemberTexts(f, lib, BlankTokens(LastBlanks(fields)) + Texts(more), denoted.value,
                                               LastName(fields)))
              else Reject
  {
    hide Texts, ReadValue, ReadMembers, ReadArray, AfterMemberTexts, SpellBlanks, BlankTokens, AreBlanks, SpellFields;
    hide FieldsTokens, FieldsFit, DenotedFields, LastBlanks, LastName, EndsNumber;
    var inner := SpellFields(fields, true) + more;
    TextsPunctuation('{', SpellBlanks(space) + inner);
    TextsBlanks(space, inner);
    FieldsTexts(fields, true, more);
    Opens(f, lib, '{', BlankTokens(space) + (FieldsTokens(fields, true) + Texts(more)));
    BlanksBeforeName(f, lib, space, FieldsTokens(fields, true) + Texts(more), Nil, "");
    FieldsRead(f, lib, fields, Nil, "", Texts(more));
  }

  // ---------------------------------------------------------------- a missing comma

  lemma HiddenComma(f: Features, lib: CLibrary, bs: seq<Blank>, ts: seq<Lexeme>, entries: Entries, name: string)
    requires ts != [] && ts[0].kind !in {ObjectEnd, ArraySeparator, CommentToken}
    ensures AfterMemberTexts(f, lib, BlankTokens(bs) + ts, entries, name)
         == if NoComments(bs) then RejectEntries else ReadMembers(f, lib, ts[1..], entries, name)
  {
    hide BlankTokens, NoComments, ReadMembers;
    NoCommentsNoTokens(bs);
    DropBlanks(bs, ts);
    assert DropComments(ts) == ts;
  }

  /** The first token of `x + s` is `x`. */
  predicate IsToken(x: string, kind: TokenKind, s: string) {
    x != "" && !IsSpace(x[0]) && Scan(x + s) == Lexed(kind, |x|)
  }

  /**
   Two lists of members with some other token between them instead of a comma, be it a value, a name,
   a bracket or no token of the grammar at all, are accepted exactly if a comment stands between the
   value and that token, which is then skipped.
   */
  lemma MissingCommaIff(f: Features, lib: CLibrary, space: seq<Blank>, fields: Fields, bs: seq<Blank>, x: string,
                        kind: TokenKind, more: Fields, prev: Value)
    requires AreBlanks(space) && AreFields(fields) && fields.Field? && AreBlanks(bs) && AreFields(more) && more.Field?
    requires IsToken(x, kind, SpellFields(more, true) + "}") && kind !in {ObjectEnd, ArraySeparator, CommentToken}
    requires bs != [] || !IsNumberChar(x[0])
    ensures var tail := SpellBlanks(bs) + (x + (SpellFields(more, true) + "}"));
            var r := ParseDocument(f, lib, SpellObject(space, fields, tail), prev);
            && (r.ok <==>
                  && !(NoComments(LastBlanks(fields)) && NoComments(bs))
                  && FieldsFit(f.allowComments, fields) && FieldsFit(f.allowComments, more)
                  && DenotedFields(lib, fields, Nil).Some?
                  && DenotedFields(lib, more, DenotedFields(lib, fields, Nil).value).Some?)
            && (r.ok ==>
                  Erase(r.root) == Leaf(Obj(DenotedFields(lib, more, DenotedFields(lib, fields, Nil).value).value)))
  {
    hide ParseDocument, ReadValue, ReadMembers, AfterMemberTexts, Texts, SpellObject, SpellFields, FieldsTokens, Scan;
    hide AreBlanks, AreFields, FieldsFit, DenotedFields, BlankTokens, NoComments, LastBlanks, LastName, Erase;
    hide SpellBlanks, IsNumberChar;
    var rest := x + (SpellFields(more, true) + "}");
    var tail := SpellBlanks(bs) + rest;
    TailEndsNumber(bs, rest);
    ClosingText();
    FieldsTexts(more, true, "}");
    TextsLexeme(x, kind, SpellFields(more, true) + "}");
    TextsBlanks(bs, rest);
    ObjectGoesOn(f, lib, space, fields, tail);
    var ts := FieldsTokens(more, true) + [Punctuation('}')];
    assert Texts(rest)[1..] == ts;
    if DenotedFields(lib, fields, Nil).Some? {
      var es := DenotedFields(lib, fields, Nil).value;
      BlanksJoin(LastBlanks(fields), bs);
      Associates(BlankTokens(LastBlanks(fields)), BlankTokens(bs), Texts(rest));
      HiddenComma(f, lib, LastBlanks(fields) + bs, Texts(rest), es, LastName(fields));
      FieldsRead(f, lib, more, es, LastName(fields), [Punctuation('}')]);
      if DenotedFields(lib, more, es).Some? {
        BlanksAfterMember(f, lib, LastBlanks(more), [Punctuation('}')], DenotedFields(lib, more, es).value,
                          LastName(more));
      }
    }
    DocumentMatches(f, lib, SpellObject(space, fields, tail), prev);
  }

  lemma TailEndsNumber(bs: seq<Blank>, rest: string)
    requires AreBlanks(bs) && rest != "" && (bs != [] || !IsNumberChar(rest[0]))
    ensures EndsNumber(SpellBlanks(bs) + rest)
  {
    if bs == [] {
      assert SpellBlanks(bs) + rest == rest;
    } else {
      assert (SpellBlanks(bs) + rest)[0] == SpellBlank(bs[0])[0];
    }
  }

  lemma ClosingText()
    ensures Texts("}") == [Punctuation('}')]
    ensures EndsNumber("}")
  {
    TextsPunctuation('}', "");
    NoTextsOfNothing();
    assert "}" + "" == "}" && [Punctuation('}')] + [] == [Punctuation('}')];
  }

  lemma NoTextsOfNothing()
    ensures Texts("") == []
  {
  }

  // ---------------------------------------------------------------- a trailing comma

  lemma ClosesIff(f: Features, lib: CLibrary, entries: Entries, last: string)
    ensures ReadMembers(f, lib, [Punctuation('}')], entries, last)
         == if last == "" then AcceptEntries(entries, []) else RejectEntries
  {
    assert DropComments([Punctuation('}')]) == [Punctuation('}')];
  }

  /** A comma behind the last member is accepted exactly if that member has the empty name. */
  lemma TrailingCommaIff(f: Features, lib: CLibrary, space: seq<Blank>, fields: Fields, bs: seq<Blank>, prev: Value)
    requires AreBlanks(space) && AreFields(fields) && fields.Field? && AreBlanks(bs)
    ensures var r := ParseDocument(f, lib, SpellObject(space, fields, "," + (SpellBlanks(bs) + "}")), prev);
            && (r.ok <==>
                  FieldsFit(f.allowComments, fields) && DenotedFields(lib, fields, Nil).Some? && LastName(fields) == "")
            && (r.ok ==> Erase(r.root) == Leaf(Obj(DenotedFields(lib, fields, Nil).value)))
  {
    hide ParseDocument, ReadValue, ReadMembers, AfterMemberTexts, Texts, SpellObject, SpellBlanks, AreBlanks, AreFields;
    hide FieldsFit, DenotedFields, BlankTokens, LastBlanks, LastName, Erase;
    var tail := "," + (SpellBlanks(bs) + "}");
    var ts := BlankTokens(bs) + [Punctuation('}')];
    ClosingText();
    TextsBlanks(bs, "}");
    TextsPunctuation(',', SpellBlanks(bs) + "}");
    assert Texts(tail) == [Punctuation(',')] + ts && Texts(tail)[1..] == ts;
    ObjectGoesOn(f, lib, space, fields, tail);
    if DenotedFields(lib, fields, Nil).Some? {
      var es := DenotedFields(lib, fields, Nil).value;
      BlanksAfterMember(f, lib, LastBlanks(fields), Texts(tail), es, LastName(fields));
      BlanksBeforeName(f, lib, bs, [Punctuation('}')], es, LastName(fields));
      ClosesIff(f, lib, es, LastName(fields));
    }
    DocumentMatches(f, lib, SpellObject(space, fields, tail), prev);
  }

  // ---------------------------------------------------------------- a minus without digits

  /** Of the number tokens in integer form only the lone minus has no digits. */
  lemma OnlyMinusLacksDigits(text: string)
    requires IsNumberText(text) && HasIntegerForm(text)
    ensures SomeDigits(WithoutSign(text)) <==> text != "-"
  {
    forall i | 0 <= i < |WithoutSign(text)| ensures IsDigit(WithoutSign(text)[i]) {
      var j := if IsNegative(text) then i + 1 else i;
      assert WithoutSign(text)[i] == text[j] && IsNumberChar(text[j]);
    }
    assert text == "-" <==> IsNegative(text) && WithoutSign(text) == "";
  }

  lemma MinusDecodes(lib: CLibrary)
    ensures DecodeNumber(lib, "-") == Some(Int(0))
  {
    assert "-"[1..] == "";
  }

  function OneElement(d: Data): Value {
    Leaf(Arr(Cons(Index(0), Leaf(d), Nil)))
  }

  /** It is read as 0. */
  lemma MinusIsZero(f: Features, lib: CLibrary, prev: Value)
    ensures var r := ParseDocument(f, lib, "[-]", prev); r.ok && Erase(r.root) == OneElement(Int(0))
  {
    hide ParseDocument, ReadValue, ReadArray, Texts, DecodeNumber, Erase;
    MinusDecodes(lib);
    var minus, close := Lexeme(NumberToken, "-"), [Punctuation(']')];
    NoTextsOfNothing();
    TextsPunctuation(']', "");
    TextsNumber("-", "]");
    TextsPunctuation('[', "-]");
    assert "]" + "" == "]" && "-" + "]" == "-]" && ['['] + "-]" == "[-]";
    ScalarTokenReads(f, lib, minus, close);
    ElementGoesOn(f, lib, [minus] + close, Leaf(Int(0)), close, close, Nil, 0);
    assert ReadArray(f, lib, [minus] + close) == ReadElements(f, lib, [minus] + close, Nil, 0) by {
      OpensElements(f, lib, [minus] + close);
    }
    Opens(f, lib, '[', [minus] + close);
    assert Texts("[-]") == [Punctuation('[')] + ([minus] + close);
    assert Put(Nil, Index(0), Leaf(Int(0))) == Cons(Index(0), Leaf(Int(0)), Nil) && close[1..] == [];
    DocumentMatches(f, lib, "[-]", prev);
  }

  lemma OpensElements(f: Features, lib: CLibrary, ts: seq<Lexeme>)
    requires ts != [] && ts[0].kind != ArrayEnd
    ensures ReadArray(f, lib, ts) == ReadElements(f, lib, ts, Nil, 0)
  {
    hide ReadElements;
  }

  // ---------------------------------------------------------------- inputs

  /** An object of one member with the value null */
  function OneNull(name: seq<Char>, after: seq<Blank>): Fields {
    Field([], name, [], [], NullWord, after, NoFields)
  }

  lemma OneNullSpells(name: seq<Char>, after: seq<Blank>)
    ensures SpellFields(OneNull(name, after), true) == SpellString(name) + (":null" + SpellBlanks(after))
  {
    hide SpellString, SpellBlanks;
    var fields := OneNull(name, after);
    assert SpellFields(fields.rest, false) == "" && SpellBlanks(fields.before) == "" by {
      NothingSpells();
    }
  }

  lemma NothingSpells()
    ensures SpellBlanks([]) == "" && SpellFields(NoFields, false) == "" && SpellItems(NoItems, false) == ""
  {
  }

  lemma OneNullDenotes(allow: bool, lib: CLibrary, name: seq<Char>, after: seq<Blank>, before: Entries)
    requires AreChars(name) && AreBlanks(after)
    ensures AreFields(OneNull(name, after)) && FieldsFit(allow, OneNull(name, after))
    ensures LastBlanks(OneNull(name, after)) == after
    ensures DenotedFields(lib, OneNull(name, after), before)
         == match CharsText(name) case Some(s) => Some(Put(before, MemberKey(s), Leaf(Null))) case None => None
    ensures CharsText(name).Some? ==> LastName(OneNull(name, after)) == CharsText(name).value
  {
    hide CharsText, AreChars, Put, MemberKey;
  }

  lemma OneChar(c: char)
    requires IsChar(Raw(c))
    ensures CharsText([Raw(c)]) == Some([c]) && SpellString([Raw(c)]) == ['"', c, '"']
    ensures CharsText([]) == Some("") && SpellString([]) == "\"\""
  {
    assert [Raw(c)][1..] == [];
    assert CharsText([]) == Some("") && [c] + "" == [c];
    assert SpellChars([]) == "" && SpellChars([Raw(c)]) == [c] + SpellChars([]);
  }

  const COMMENT: seq<Blank> := [Block("")]

  lemma EmptyBlock()
    ensures SpellBlanks(COMMENT) == "/**/" && AreBlanks(COMMENT) && !NoComments(COMMENT)
  {
    assert COMMENT[1..] == [];
  }

  lemma OneNullText(c: char, after: seq<Blank>)
    requires IsChar(Raw(c))
    ensures SpellFields(OneNull([Raw(c)], after), true) == ['"', c, '"'] + (":null" + SpellBlanks(after))
  {
    hide SpellString, SpellFields, SpellBlanks, CharsText;
    OneChar(c);
    OneNullSpells([Raw(c)], after);
  }

  lemma MissingCommaLiteral()
    ensures "{" + ("" + (("\"a\"" + (":null" + "/**/")) + ("" + ("\"b\"" + (("\"c\"" + (":null" + "")) + "}")))))
         == "{\"a\":null/**/\"b\"\"c\":null}"
  {
  }

  lemma MissingCommaText()
    ensures SpellObject([], OneNull([Raw('a')], COMMENT),
                        SpellBlanks([]) + ("\"b\"" + (SpellFields(OneNull([Raw('c')], []), true) + "}")))
         == "{\"a\":null/**/\"b\"\"c\":null}"
  {
    hide SpellString, SpellFields, SpellBlanks, CharsText;
    OneChar('b');
    OneNullText('a', COMMENT);
    OneNullText('c', []);
    NothingSpells();
    EmptyBlock();
    MissingCommaLiteral();
  }

  /** A comment behind the first value, and `"b"` is taken for the comma */
  lemma CommentHidesMissingComma(lib: CLibrary, prev: Value)
    ensures ParseDocument(DEFAULT_FEATURES, lib, "{\"a\":null/**/\"b\"\"c\":null}", prev).ok
  {
    hide ParseDocument, CharsText, SpellObject, SpellString, SpellFields, AreFields, FieldsFit, DenotedFields;
    hide LastBlanks, LastName, Put;
    hide SpellBlanks, Scan;
    MissingCommaText();
    var a, c := [Raw('a')], [Raw('c')];
    OneChar('a');
    OneChar('b');
    OneChar('c');
    ScanString([Raw('b')], SpellFields(OneNull(c, []), true) + "}");
    EmptyBlock();
    OneNullDenotes(true, lib, a, COMMENT, Nil);
    OneNullDenotes(true, lib, c, [], DenotedFields(lib, OneNull(a, COMMENT), Nil).value);
    MissingCommaIff(DEFAULT_FEATURES, lib, [], OneNull(a, COMMENT), [], "\"b\"", StringToken, OneNull(c, []), prev);
  }

  lemma TrailingCommaText()
    ensures SpellObject([], OneNull([], []), "," + (SpellBlanks([]) + "}")) == "{\"\":null,}"
  {
    hide SpellString, SpellFields, SpellBlanks, CharsText;
    OneChar('a');
    OneNullSpells([], []);
    NothingSpells();
    assert SpellFields(OneNull([], []), true) == "\"\":null";
    assert "," + ("" + "}") == ",}";
  }

  /** The comma behind the member with the empty name is taken. */
  lemma TrailingCommaIsTaken(lib: CLibrary, prev: Value)
    ensures ParseDocument(DEFAULT_FEATURES, lib, "{\"\":null,}", prev).ok
  {
    hide ParseDocument, SpellObject, SpellBlanks, Put;
    TrailingCommaText();
    OneChar('a');
    OneNullDenotes(true, lib, [], [], Nil);
    TrailingCommaIff(DEFAULT_FEATURES, lib, [], OneNull([], []), [], prev);
  }

  const WITHOUT_COMMENTS: Features := Features(false, false, false, false)

  lemma EmptyLine()
    ensures SpellBlanks([Line("", '\n')]) == "//\n"
  {
    assert [Line("", '\n')][1..] == [];
  }

  /** An array of one true */
  function OneTrue(after: seq<Blank>): Json {
    List([], Item([], TrueWord, after, NoItems))
  }

  lemma OneTrueSpells(after: seq<Blank>)
    ensures Spell(OneTrue(after)) == "[true" + (SpellBlanks(after) + "]")
  {
    var a := SpellBlanks(after);
    NothingSpells();
    hide SpellBlanks;
    assert SpellItems(Item([], TrueWord, after, NoItems), true) == "true" + a;
    assert Spell(OneTrue(after)) == "[" + ("" + (("true" + a) + "]"));
  }

  lemma TrueDenotes(lib: CLibrary, items: Items, index: nat)
    requires AreItems(items) && items.Item? && items.value == TrueWord && items.rest == NoItems
    ensures DenotedItems(lib, items, index).Some?
  {
    NoneDenoted(true, lib, index + 1);
  }

  lemma OneTrueDenotes(allow: bool, lib: CLibrary, after: seq<Blank>)
    requires AreBlanks(after)
    ensures IsJson(OneTrue(after)) && CommentsFit(allow, OneTrue(after)) && Denoted(lib, OneTrue(after)).Some?
  {
    var items := Item([], TrueWord, after, NoItems);
    assert AreItems(NoItems) && AreItems(items);
    assert ItemsFit(allow, NoItems) && ItemsFit(allow, items);
    TrueDenotes(lib, items, 0);
  }

  /** A comment behind an element is taken although comments are not allowed. */
  lemma CommentIsTakenThoughForbidden(lib: CLibrary, prev: Value)
    ensures ParseDocument(WITHOUT_COMMENTS, lib, "[true//\n]", prev).ok
  {
    hide ParseDocument, SpellBlanks, CommentsFit, Denoted, IsJson, Spell;
    var comment := [Line("", '\n')];
    EmptyLine();
    NothingSpells();
    OneTrueSpells(comment);
    OneTrueDenotes(false, lib, comment);
    GrammarIsRead(WITHOUT_COMMENTS, lib, [], OneTrue(comment), "", prev);
    assert "[true" + ("//\n" + "]") == "[true//\n]";
    assert "" + ("[true//\n]" + "") == "[true//\n]";
  }

  /** A comment in an empty array is refused although comments are allowed. */
  lemma EmptyArrayTakesNoComment(f: Features, lib: CLibrary, prev: Value)
    ensures !ParseDocument(f, lib, "[/**/]", prev).ok
  {
    hide ParseDocument, SpellBlanks, Denoted, Erase;
    EmptyBlock();
    NothingSpells();
    GrammarIsRead(f, lib, [], List(COMMENT, NoItems), "", prev);
    assert Spell(List(COMMENT, NoItems)) == "[/**/]";
    assert "" + ("[/**/]" + "") == "[/**/]";
  }
}
