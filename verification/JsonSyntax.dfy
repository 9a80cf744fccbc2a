/**
 The texts of the JSON grammar (RFC 8259) as syntax trees with any whitespace, any escapes and
 any spelling of numbers, and with comments wherever the grammar has whitespace: what such a
 tree denotes, where the reader takes comments, and that it then reads exactly what is denoted.
 */
module JsonSyntax {
  import opened JsonGrammar
  import opened JsonLexer
  import opened JsonParser
  import opened JsonRoundTrip
  import opened JsonSpelling
  import opened JsonTokens
  import opened JsonTool
  import opened JsonValue
  import opened Wrappers

  // ---------------------------------------------------------------- values (sections 2 to 5)

  datatype Json =
    | NullWord
    | TrueWord
    | FalseWord
    | Num(n: Number)
    | Str(cs: seq<Char>)
    | List(space: seq<Blank>, items: Items)
    | Record(space: seq<Blank>, fields: Fields)

  /** Elements with what is around them */
  datatype Items = NoItems | Item(before: seq<Blank>, value: Json, after: seq<Blank>, rest: Items)

  /** Members with what is around names, colons and values */
  datatype Fields =
    | NoFields
    | Field(before: seq<Blank>, name: seq<Char>, beforeColon: seq<Blank>, afterColon: seq<Blank>, value: Json,
            after: seq<Blank>, rest: Fields)

  predicate IsJson(j: Json) {
    match j
    case Num(n) => IsNumber(n)
    case Str(cs) => AreChars(cs)
    case List(space, items) => AreBlanks(space) && AreItems(items)
    case Record(space, fields) => AreBlanks(space) && AreFields(fields)
    case _ => true
  }

  predicate AreItems(items: Items) {
    match items
    case NoItems => true
    case Item(before, value, after, rest) => AreBlanks(before) && IsJson(value) && AreBlanks(after) && AreItems(rest)
  }

  predicate AreFields(fields: Fields) {
    match fields
    case NoFields => true
    case Field(before, name, beforeColon, afterColon, value, after, rest) =>
      && AreBlanks(before) && AreChars(name) && AreBlanks(beforeColon) && AreBlanks(afterColon)
      && IsJson(value) && AreBlanks(after) && AreFields(rest)
  }

  /**
   Where comments may be: before a value if they are allowed, after a value and before a name
   always, before a colon and in an empty array never.
   */
  predicate CommentsFit(allow: bool, j: Json) {
    match j
    case List(space, items) => (NoComments(space) || (allow && items.Item?)) && ItemsFit(allow, items)
    case Record(_, fields) => FieldsFit(allow, fields)
    case _ => true
  }

  predicate ItemsFit(allow: bool, items: Items) {
    match items
    case NoItems => true
    case Item(before, value, _, rest) =>
      (allow || NoComments(before)) && CommentsFit(allow, value) && ItemsFit(allow, rest)
  }

  predicate FieldsFit(allow: bool, fields: Fields) {
    match fields
    case NoFields => true
    case Field(_, _, beforeColon, afterColon, value, _, rest) =>
      && NoComments(beforeColon) && (allow || NoComments(afterColon))
      && CommentsFit(allow, value) && FieldsFit(allow, rest)
  }

  function Spell(j: Json): string {
    match j
    case NullWord => "null"
    case TrueWord => "true"
    case FalseWord => "false"
    case Num(n) => SpellNumber(n)
    case Str(cs) => SpellString(cs)
    case List(space, items) => "[" + (SpellBlanks(space) + (SpellItems(items, true) + "]"))
    case Record(space, fields) => "{" + (SpellBlanks(space) + (SpellFields(fields, true) + "}"))
  }

  function Separator(first: bool): string {
    if first then "" else ","
  }

  function SpellItems(items: Items, first: bool): string {
    match items
    case NoItems => ""
    case Item(before, value, after, rest) =>
      Separator(first) + (SpellBlanks(before) + (Spell(value) + (SpellBlanks(after) + SpellItems(rest, false))))
  }

  function SpellFields(fields: Fields, first: bool): string {
    match fields
    case NoFields => ""
    case Field(before, name, beforeColon, afterColon, value, after, rest) =>
      Separator(first) + (SpellBlanks(before) + (SpellString(name) + (SpellBlanks(beforeColon) + (":"
        + (SpellBlanks(afterColon) + (Spell(value) + (SpellBlanks(after) + SpellFields(rest, false))))))))
  }

  /** The tree that the text stands for: elements in order, of equal names the last one */
  function Denoted(lib: CLibrary, j: Json): Option<Value>
    requires IsJson(j)
  {
    match j
    case NullWord => Some(Leaf(Null))
    case TrueWord => Some(Leaf(Bool(true)))
    case FalseWord => Some(Leaf(Bool(false)))
    case Num(n) => (match NumberData(lib, n) case Some(d) => Some(Leaf(d)) case None => None)
    case Str(cs) => (match CharsText(cs) case Some(s) => Some(Leaf(Data.Str(Some(CStr(s))))) case None => None)
    case List(_, items) => (match DenotedItems(lib, items, 0) case Some(es) => Some(Leaf(Arr(es))) case None => None)
    case Record(_, fields) =>
      (match DenotedFields(lib, fields, Nil) case Some(es) => Some(Leaf(Obj(es))) case None => None)
  }

  function DenotedItems(lib: CLibrary, items: Items, index: nat): Option<Entries>
    requires AreItems(items)
  {
    match items
    case NoItems => Some(Nil)
    case Item(_, value, _, rest) =>
      match (Denoted(lib, value), DenotedItems(lib, rest, index + 1))
      case (Some(v), Some(es)) => Some(Cons(Index(index), v, es))
      case (_, _) => None
  }

  function DenotedFields(lib: CLibrary, fields: Fields, before: Entries): Option<Entries>
    requires AreFields(fields)
  {
    match fields
    case NoFields => Some(before)
    case Field(_, name, _, _, value, _, rest) =>
      match (CharsText(name), Denoted(lib, value))
      case (Some(s), Some(v)) => DenotedFields(lib, rest, Put(before, MemberKey(s), v))
      case (_, _) => None
  }

  /** The text of the last member with a name */
  function LastNamed(fields: Fields, key: Key): (j: Option<Json>)
    requires AreFields(fields)
    ensures j.Some? ==> IsJson(j.value)
  {
    match fields
    case NoFields => None
    case Field(_, name, _, _, value, _, rest) =>
      if LastNamed(rest, key).Some? then LastNamed(rest, key)
      else if CharsText(name).Some? && MemberKey(CharsText(name).value) == key then Some(value)
      else None
  }

  /** Of members with equal names the object keeps the last. */
  lemma {:induction false} LastNameWins(lib: CLibrary, fields: Fields, before: Entries, key: Key)
    requires AreFields(fields) && DenotedFields(lib, fields, before).Some?
    ensures Find(DenotedFields(lib, fields, before).value, key)
         == (match LastNamed(fields, key) case Some(j) => Denoted(lib, j) case None => Find(before, key))
  {
    hide IsJson, AreChars, Denoted, CharsText, Put;
    if fields.Field? {
      var name, v := MemberKey(CharsText(fields.name).value), Denoted(lib, fields.value).value;
      LastNameWins(lib, fields.rest, Put(before, name, v), key);
      FindPut(before, name, v, key);
    }
  }

  /** Numbers are integers of 64 bits and no literal holds half a surrogate pair. */
  predicate IsPortable(j: Json)
    requires IsJson(j)
  {
    match j
    case Num(n) =>
      n.fraction.None? && n.exponent.None? && DecimalValue(n.digits) <= if n.negative then -MIN_INT64 else MAX_UINT64
    case Str(cs) => MeantText(cs).Some?
    case List(_, items) => ArePortable(items)
    case Record(_, fields) => FieldsArePortable(fields)
    case _ => true
  }

  predicate ArePortable(items: Items)
    requires AreItems(items)
  {
    items.Item? ==> IsPortable(items.value) && ArePortable(items.rest)
  }

  predicate FieldsArePortable(fields: Fields)
    requires AreFields(fields)
  {
    fields.Field? ==> MeantText(fields.name).Some? && IsPortable(fields.value) && FieldsArePortable(fields.rest)
  }

  /** A portable text denotes a tree whatever the C library does. */
  lemma {:induction false} PortableDenotes(lib: CLibrary, j: Json)
    requires IsJson(j) && IsPortable(j)
    ensures Denoted(lib, j).Some?
    decreases j, 0
  {
    hide MeantText, CharsText, DecimalValue, AreChars;
    match j
    case Str(cs) => MeantIsRead(cs);
    case List(_, items) => PortableItemsDenote(lib, items, 0);
    case Record(_, fields) => PortableFieldsDenote(lib, fields, Nil);
    case _ =>
  }

  lemma {:induction false} PortableItemsDenote(lib: CLibrary, items: Items, index: nat)
    requires AreItems(items) && ArePortable(items)
    ensures DenotedItems(lib, items, index).Some?
    decreases items, 1
  {
    hide IsJson, IsPortable, Denoted;
    if items.Item? {
      PortableDenotes(lib, items.value);
      PortableItemsDenote(lib, items.rest, index + 1);
    }
  }

  lemma {:induction false} PortableFieldsDenote(lib: CLibrary, fields: Fields, before: Entries)
    requires AreFields(fields) && FieldsArePortable(fields)
    ensures DenotedFields(lib, fields, before).Some?
    decreases fields, 1
  {
    hide IsJson, IsPortable, Denoted, MeantText, CharsText, AreChars, Put;
    if fields.Field? {
      MeantIsRead(fields.name);
      PortableDenotes(lib, fields.value);
      PortableFieldsDenote(lib, fields.rest, Put(before, MemberKey(CharsText(fields.name).value),
                                                 Denoted(lib, fields.value).value));
    }
  }

  // ---------------------------------------------------------------- the tokens

  function JsonTokensOf(j: Json): seq<Lexeme> {
    match j
    case NullWord => [Lexeme(NullToken, "null")]
    case TrueWord => [Lexeme(TrueToken, "true")]
    case FalseWord => [Lexeme(FalseToken, "false")]
    case Num(n) => [Lexeme(NumberToken, SpellNumber(n))]
    case Str(cs) => [StringLexeme(cs)]
    case List(space, items) =>
        [Punctuation('[')] + (BlankTokens(space) + (ItemsTokens(items, true) + [Punctuation(']')]))
    case Record(space, fields) =>
        [Punctuation('{')] + (BlankTokens(space) + (FieldsTokens(fields, true) + [Punctuation('}')]))
  }

  function StringLexeme(cs: seq<Char>): Lexeme {
    Lexeme(StringToken, SpellString(cs))
  }

  function SeparatorTokens(first: bool): seq<Lexeme> {
    if first then [] else [Punctuation(',')]
  }

  function ItemsTokens(items: Items, first: bool): seq<Lexeme> {
    match items
    case NoItems => []
    case Item(before, value, after, rest) =>
      SeparatorTokens(first)
          + (BlankTokens(before) + (JsonTokensOf(value) + (BlankTokens(after) + ItemsTokens(rest, false))))
  }

  function FieldsTokens(fields: Fields, first: bool): seq<Lexeme> {
    match fields
    case NoFields => []
    case Field(before, name, beforeColon, afterColon, value, after, rest) =>
      SeparatorTokens(first)
          + (BlankTokens(before) + ([StringLexeme(name)] + (BlankTokens(beforeColon) + ([Punctuation(':')]
        + (BlankTokens(afterColon) + (JsonTokensOf(value) + (BlankTokens(after) + FieldsTokens(rest, false))))))))
  }

  lemma SeparatorTexts(first: bool, s: string)
    ensures Texts(Separator(first) + s) == SeparatorTokens(first) + Texts(s)
  {
    hide Texts;
    if first {
      assert "" + s == s;
    } else {
      TextsPunctuation(',', s);
    }
  }

  lemma ItemsEndNumber(items: Items, s: string)
    requires EndsNumber(s)
    ensures EndsNumber(SpellItems(items, false) + s)
  {
    if items.NoItems? {
      assert SpellItems(items, false) + s == s;
    } else {
      assert SpellItems(items, false)[0] == ',';
    }
  }

  lemma FieldsEndNumber(fields: Fields, s: string)
    requires EndsNumber(s)
    ensures EndsNumber(SpellFields(fields, false) + s)
  {
    hide SpellString;
    if fields.NoFields? {
      assert SpellFields(fields, false) + s == s;
    } else {
      assert SpellFields(fields, false)[0] == ',';
    }
  }

  lemma GroupFour<T>(a: seq<T>, b: seq<T>, c: seq<T>, d: seq<T>, s: seq<T>)
    ensures (a + (b + (c + d))) + s == a + (b + (c + (d + s)))
  {
    Associates(c, d, s);
    Associates(b, c + d, s);
    Associates(a, b + (c + d), s);
  }

  /** Whatever the spelling, the text of a value has the tokens of the value. */
  lemma {:induction false} SpellTexts(j: Json, s: string)
    requires IsJson(j) && (j.Num? ==> EndsNumber(s))
    ensures Texts(Spell(j) + s) == JsonTokensOf(j) + Texts(s)
    decreases j, 0
  {
    hide Texts, SpellNumber, SpellString, IsNumber, AreChars, SpellBlanks, BlankTokens, AreBlanks;
    match j
    case NullWord => TextsLiteral("null", NullToken, s);
    case TrueWord => TextsLiteral("true", TrueToken, s);
    case FalseWord => TextsLiteral("false", FalseToken, s);
    case Num(n) =>
      NumberIsText(n);
      TextsNumber(SpellNumber(n), s);
    case Str(cs) => TextsString(cs, s);
    case List(space, items) =>
      ItemsTexts(items, true, "]" + s);
      BracketTexts('[', space, SpellItems(items, true), ']', s);
      GroupFour([Punctuation('[')], BlankTokens(space), ItemsTokens(items, true), [Punctuation(']')], Texts(s));
    case Record(space, fields) =>
      FieldsTexts(fields, true, "}" + s);
      BracketTexts('{', space, SpellFields(fields, true), '}', s);
      GroupFour([Punctuation('{')], BlankTokens(space), FieldsTokens(fields, true), [Punctuation('}')], Texts(s));
  }

  lemma BracketTexts(open: char, space: seq<Blank>, body: string, close: char, s: string)
    requires (open == '[' && close == ']') || (open == '{' && close == '}')
    requires AreBlanks(space)
    ensures Texts(([open] + (SpellBlanks(space) + (body + [close]))) + s)
         == [Punctuation(open)] + (BlankTokens(space) + Texts(body + ([close] + s)))
    ensures Texts([close] + s) == [Punctuation(close)] + Texts(s)
  {
    hide Texts, SpellBlanks, BlankTokens, AreBlanks;
    var inner := body + ([close] + s);
    TextsBlanks(space, inner);
    TextsPunctuation(open, SpellBlanks(space) + inner);
    TextsPunctuation(close, s);
    GroupFour([open], SpellBlanks(space), body, [close], s);
  }

  lemma {:induction false} ItemsTexts(items: Items, first: bool, s: string)
    requires AreItems(items) && EndsNumber(s)
    ensures Texts(SpellItems(items, first) + s) == ItemsTokens(items, first) + Texts(s)
    decreases items, 1
  {
    hide Texts, Spell, JsonTokensOf, EndsNumber, Separator, SeparatorTokens, SpellBlanks, BlankTokens, AreBlanks;
    if items.NoItems? {
      assert "" + s == s;
    } else {
      var rest := SpellItems(items.rest, false) + s;
      var value := Spell(items.value) + (SpellBlanks(items.after) + rest);
      ItemsTexts(items.rest, false, s);
      ItemsEndNumber(items.rest, s);
      BlanksEndNumber(items.after, rest);
      TextsBlanks(items.after, rest);
      SpellTexts(items.value, SpellBlanks(items.after) + rest);
      TextsBlanks(items.before, value);
      SeparatorTexts(first, SpellBlanks(items.before) + value);
      GroupItem(Separator(first), SpellBlanks(items.before), Spell(items.value), SpellBlanks(items.after),
                SpellItems(items.rest, false), s);
      GroupItem(SeparatorTokens(first), BlankTokens(items.before), JsonTokensOf(items.value), BlankTokens(items.after),
                ItemsTokens(items.rest, false), Texts(s));
    }
  }

  lemma GroupItem<T>(a: seq<T>, b: seq<T>, c: seq<T>, d: seq<T>, e: seq<T>, s: seq<T>)
    ensures (a + (b + (c + (d + e)))) + s == a + (b + (c + (d + (e + s))))
  {
    GroupFour(b, c, d, e, s);
    Associates(a, b + (c + (d + e)), s);
  }

  lemma GroupField<T>(a: seq<T>, b: seq<T>, c: seq<T>, d: seq<T>, e: seq<T>, f: seq<T>, g: seq<T>, h: seq<T>, i: seq<T>,
                      s: seq<T>)
    ensures (a + (b + (c + (d + (e + (f + (g + (h + i)))))))) + s
            == a + (b + (c + (d + (e + (f + (g + (h + (i + s))))))))
  {
    GroupItem(e, f, g, h, i, s);
    GroupFour(b, c, d, e + (f + (g + (h + i))), s);
    Associates(a, b + (c + (d + (e + (f + (g + (h + i)))))), s);
  }

  lemma {:induction false} FieldsTexts(fields: Fields, first: bool, s: string)
    requires AreFields(fields) && EndsNumber(s)
    ensures Texts(SpellFields(fields, first) + s) == FieldsTokens(fields, first) + Texts(s)
    decreases fields, 1
  {
    hide Texts, Spell, SpellString, JsonTokensOf, EndsNumber, Separator, SeparatorTokens, AreChars;
    hide SpellBlanks, BlankTokens, AreBlanks;
    if fields.NoFields? {
      assert "" + s == s;
    } else {
      var rest := SpellFields(fields.rest, false) + s;
      var after := SpellBlanks(fields.after) + rest;
      FieldsTexts(fields.rest, false, s);
      FieldsEndNumber(fields.rest, s);
      BlanksEndNumber(fields.after, rest);
      TextsBlanks(fields.after, rest);
      SpellTexts(fields.value, after);
      TextsBlanks(fields.afterColon, Spell(fields.value) + after);
      NameTexts(fields, first, SpellBlanks(fields.afterColon) + (Spell(fields.value) + after));
      GroupField(Separator(first), SpellBlanks(fields.before), SpellString(fields.name),
                 SpellBlanks(fields.beforeColon), ":",
                 SpellBlanks(fields.afterColon), Spell(fields.value), SpellBlanks(fields.after),
                 SpellFields(fields.rest, false), s);
      GroupField(SeparatorTokens(first), BlankTokens(fields.before), [StringLexeme(fields.name)],
                 BlankTokens(fields.beforeColon), [Punctuation(':')], BlankTokens(fields.afterColon),
                 JsonTokensOf(fields.value), BlankTokens(fields.after), FieldsTokens(fields.rest, false), Texts(s));
    }
  }

  lemma NameTexts(fields: Fields, first: bool, value: string)
    requires fields.Field? && AreBlanks(fields.before) && AreBlanks(fields.beforeColon) && AreChars(fields.name)
    ensures Texts(Separator(first) + (SpellBlanks(fields.before) + (SpellString(fields.name)
                + (SpellBlanks(fields.beforeColon) + (":" + value)))))
         == SeparatorTokens(first) + (BlankTokens(fields.before) + ([StringLexeme(fields.name)]
                + (BlankTokens(fields.beforeColon) + ([Punctuation(':')] + Texts(value)))))
  {
    hide Texts, SpellString, AreChars, Separator, SeparatorTokens, SpellBlanks, BlankTokens, AreBlanks;
    var colon := SpellBlanks(fields.beforeColon) + (":" + value);
    TextsPunctuation(':', value);
    TextsBlanks(fields.beforeColon, ":" + value);
    TextsString(fields.name, colon);
    TextsBlanks(fields.before, SpellString(fields.name) + colon);
    SeparatorTexts(first, SpellBlanks(fields.before) + (SpellString(fields.name) + colon));
  }

  // ---------------------------------------------------------------- reading them

  function ReadingOf(fits: bool, v: Option<Value>, rest: seq<Lexeme>): Reading {
    if fits && v.Some? then Accept(v.value, rest) else Reject
  }

  lemma ScalarTokenReads(f: Features, lib: CLibrary, t: Lexeme, rest: seq<Lexeme>)
    requires t.kind in {NumberToken, StringToken, TrueToken, FalseToken, NullToken}
    ensures ReadValue(f, lib, [t] + rest)
            == match Scalar(lib, t) case Some(d) => Accept(Leaf(d), rest) case None => Reject
  {
    hide ReadArray, ReadMembers, Scalar;
    var ts := [t] + rest;
    assert ValueTexts(f, ts) == ts && ts[1..] == rest;
  }

  lemma StringScalar(lib: CLibrary, cs: seq<Char>)
    requires AreChars(cs)
    ensures Scalar(lib, StringLexeme(cs))
         == match CharsText(cs) case Some(s) => Some(Data.Str(Some(CStr(s)))) case None => None
  {
    hide Unquote, CharsText, SpellString, AreChars, CStr;
    StringReads(cs);
  }

  /** Comments in front of a value are skipped if they are allowed and refused if not. */
  lemma BlanksBeforeValue(f: Features, lib: CLibrary, bs: seq<Blank>, ts: seq<Lexeme>)
    ensures ReadValue(f, lib, BlankTokens(bs) + ts)
         == if f.allowComments || NoComments(bs) then ReadValue(f, lib, ts) else Reject
  {
    hide BlankTokens, NoComments, ReadMembers, ReadArray, DropComments;
    NoCommentsNoTokens(bs);
    DropBlanks(bs, ts);
    if NoComments(bs) {
      assert BlankTokens(bs) + ts == ts;
    }
  }

  /** Comments in front of a name are skipped whether they are allowed or not. */
  lemma BlanksBeforeName(f: Features, lib: CLibrary, bs: seq<Blank>, ts: seq<Lexeme>, acc: Entries, last: string)
    ensures ReadMembers(f, lib, BlankTokens(bs) + ts, acc, last) == ReadMembers(f, lib, ts, acc, last)
  {
    hide BlankTokens, ReadValue, DropComments, NameText, AfterMemberTexts, Put;
    DropBlanks(bs, ts);
  }

  /** Reading the tokens of a value gives what it denotes, or fails where something denotes nothing. */
  lemma {:induction false} JsonReads(f: Features, lib: CLibrary, j: Json, rest: seq<Lexeme>)
    requires IsJson(j)
    ensures ReadValue(f, lib, JsonTokensOf(j) + rest)
         == ReadingOf(CommentsFit(f.allowComments, j), Denoted(lib, j), rest)
    decreases j, 0
  {
    hide ReadValue, SpellNumber, SpellString, NumberData, CharsText, DecodeNumber, Unquote, BlankTokens;
    match j
    case NullWord => ScalarTokenReads(f, lib, Lexeme(NullToken, "null"), rest);
    case TrueWord => ScalarTokenReads(f, lib, Lexeme(TrueToken, "true"), rest);
    case FalseWord => ScalarTokenReads(f, lib, Lexeme(FalseToken, "false"), rest);
    case Num(n) =>
      NumberReads(lib, n);
      ScalarTokenReads(f, lib, Lexeme(NumberToken, SpellNumber(n)), rest);
    case Str(cs) =>
      StringScalar(lib, cs);
      ScalarTokenReads(f, lib, StringLexeme(cs), rest);
    case List(space, items) =>
      ListReads(f, lib, space, items, rest);
      GroupFour([Punctuation('[')], BlankTokens(space), ItemsTokens(items, true), [Punctuation(']')], rest);
      Opens(f, lib, '[', BlankTokens(space) + (ItemsTokens(items, true) + ([Punctuation(']')] + rest)));
    case Record(space, fields) =>
      RecordReads(f, lib, space, fields, rest);
      GroupFour([Punctuation('{')], BlankTokens(space), FieldsTokens(fields, true), [Punctuation('}')], rest);
      Opens(f, lib, '{', BlankTokens(space) + (FieldsTokens(fields, true) + ([Punctuation('}')] + rest)));
  }

  /** An opening token hands over to the reader of elements or members. */
  lemma Opens(f: Features, lib: CLibrary, open: char, inner: seq<Lexeme>)
    requires open == '[' || open == '{'
    ensures var r := if open == '[' then ReadArray(f, lib, inner) else ReadMembers(f, lib, inner, Nil, "");
            ReadValue(f, lib, [Punctuation(open)] + inner) ==
              match r
              case RejectEntries => Reject
              case AcceptEntries(es, left) => Accept(Leaf(if open == '[' then Arr(es) else Obj(es)), left)
  {
    hide ReadArray, ReadMembers;
    var ts := [Punctuation(open)] + inner;
    assert ValueTexts(f, ts) == ts && ts[1..] == inner;
  }

  lemma StartsValue(j: Json)
    ensures JsonTokensOf(j) != [] && JsonTokensOf(j)[0].kind != ArrayEnd
  {
    hide SpellNumber, SpellString;
  }

  lemma {:induction false} ListReads(f: Features, lib: CLibrary, space: seq<Blank>, items: Items, rest: seq<Lexeme>)
    requires AreItems(items)
    ensures ReadArray(f, lib, BlankTokens(space) + (ItemsTokens(items, true) + ([Punctuation(']')] + rest))) ==
              match (CommentsFit(f.allowComments, List(space, items)), DenotedItems(lib, items, 0))
              case (true, Some(es)) => AcceptEntries(es, rest)
              case (_, _) => RejectEntries
    decreases items, 2
  {
    hide ReadElements, ReadValue, JsonTokensOf, Denoted, IsJson, DenotedItems, BlankTokens, NoComments, ItemsFit;
    var inner := ItemsTokens(items, true) + ([Punctuation(']')] + rest);
    NoCommentsNoTokens(space);
    BlanksBeforeValue(f, lib, space, inner);
    if items.NoItems? {
      EmptyListReads(f, lib, space, rest);
      NoneDenoted(f.allowComments, lib, 0);
    } else {
      ItemsRead(f, lib, items, 0, Nil, rest);
      ItemsStart(items, [Punctuation(']')] + rest);
      SameFirstElement(f, lib, BlankTokens(space) + inner, inner, Nil, 0);
      ElementFails(f, lib, BlankTokens(space) + inner, Nil, 0);
      if DenotedItems(lib, items, 0).Some? {
        AppendToNil(DenotedItems(lib, items, 0).value);
      }
    }
  }

  lemma ItemsStart(items: Items, ts: seq<Lexeme>)
    requires items.Item?
    ensures var us := ItemsTokens(items, true) + ts; us != [] && us[0].kind != ArrayEnd
  {
    hide JsonTokensOf, BlankTokens, NoComments;
    StartsValue(items.value);
    NoCommentsNoTokens(items.before);
  }

  /** Comments in an empty array are refused, even if they are allowed. */
  lemma EmptyListReads(f: Features, lib: CLibrary, space: seq<Blank>, rest: seq<Lexeme>)
    ensures ReadArray(f, lib, BlankTokens(space) + ([] + ([Punctuation(']')] + rest)))
         == if NoComments(space) then AcceptEntries(Nil, rest) else RejectEntries
  {
    hide ReadElements, ReadValue, BlankTokens, NoComments;
    var close := [] + ([Punctuation(']')] + rest);
    assert close[1..] == rest;
    NoCommentsNoTokens(space);
    if NoComments(space) {
      assert BlankTokens(space) + close == close;
    } else {
      ClosedIsNoValue(f, lib, close);
      BlanksBeforeValue(f, lib, space, close);
      ElementFails(f, lib, BlankTokens(space) + close, Nil, 0);
    }
  }

  lemma NoneDenoted(allow: bool, lib: CLibrary, index: nat)
    ensures DenotedItems(lib, NoItems, index) == Some(Nil) && ItemsFit(allow, NoItems)
  {
  }

  /** Elements depend on the first value that is read. */
  lemma SameFirstElement(f: Features, lib: CLibrary, ts: seq<Lexeme>, us: seq<Lexeme>, acc: Entries, index: nat)
    ensures ReadValue(f, lib, ts) == ReadValue(f, lib, us)
         ==> ReadElements(f, lib, ts, acc, index) == ReadElements(f, lib, us, acc, index)
  {
    hide ReadValue, Put, DropComments;
  }

  lemma ElementFails(f: Features, lib: CLibrary, ts: seq<Lexeme>, acc: Entries, index: nat)
    ensures ReadValue(f, lib, ts) == Reject ==> ReadElements(f, lib, ts, acc, index) == RejectEntries
  {
    hide ReadValue;
  }

  lemma {:induction false} ItemsRead(f: Features, lib: CLibrary, items: Items, index: nat, acc: Entries,
                                     rest: seq<Lexeme>)
    requires AreItems(items) && items.Item? && AllBelow(acc, Index(index))
    ensures ReadElements(f, lib, ItemsTokens(items, true) + ([Punctuation(']')] + rest), acc, index) ==
              match (ItemsFit(f.allowComments, items), DenotedItems(lib, items, index))
              case (true, Some(es)) => AcceptEntries(Append(acc, es), rest)
              case (_, _) => RejectEntries
    decreases items, 1
  {
    hide ReadValue, ReadElements, JsonTokensOf, Denoted, IsJson, Put, Append, BlankTokens, NoComments, CommentsFit;
    hide DropComments;
    var close := [Punctuation(']')] + rest;
    var next := ItemsTokens(items.rest, false) + close;
    var after := BlankTokens(items.after) + next;
    var ts := ItemsTokens(items, true) + close;
    GroupItem([], BlankTokens(items.before), JsonTokensOf(items.value), BlankTokens(items.after),
              ItemsTokens(items.rest, false), close);
    assert [] + (BlankTokens(items.before) + (JsonTokensOf(items.value) + after))
        == BlankTokens(items.before) + (JsonTokensOf(items.value) + after);
    JsonReads(f, lib, items.value, after);
    BlanksBeforeValue(f, lib, items.before, JsonTokensOf(items.value) + after);
    DropBlanks(items.after, next);
    var v := Denoted(lib, items.value);
    if ReadValue(f, lib, ts) == Reject {
      ElementFails(f, lib, ts, acc, index);
    } else {
      var acc' := Put(acc, Index(index), v.value);
      AppendNext(acc, index, v.value, Nil);
      if items.rest.NoItems? {
        NoneDenoted(f.allowComments, lib, index + 1);
        assert next == close && next[1..] == rest;
        AppendNil(acc');
      } else {
        NextItem(items.rest, close);
        ItemsRead(f, lib, items.rest, index + 1, acc', rest);
        if DenotedItems(lib, items.rest, index + 1).Some? {
          AppendNext(acc, index, v.value, DenotedItems(lib, items.rest, index + 1).value);
        }
      }
      ElementGoesOn(f, lib, ts, v.value, after, next, acc, index);
    }
  }

  lemma NextItem(items: Items, ts: seq<Lexeme>)
    requires items.Item?
    ensures var next := ItemsTokens(items, false) + ts;
            next != [] && next[0] == Punctuation(',') && next[1..] == ItemsTokens(items, true) + ts
  {
    hide JsonTokensOf, BlankTokens;
    var body := BlankTokens(items.before)
        + (JsonTokensOf(items.value) + (BlankTokens(items.after) + ItemsTokens(items.rest, false)));
    assert ItemsTokens(items, true) == body;
    assert ItemsTokens(items, false) == [Punctuation(',')] + body;
  }

  /** Comments behind an element are skipped whether they are allowed or not. */
  lemma ElementGoesOn(f: Features, lib: CLibrary, ts: seq<Lexeme>, v: Value, after: seq<Lexeme>, next: seq<Lexeme>,
                      acc: Entries, index: nat)
    requires ReadValue(f, lib, ts) == Accept(v, after) && DropComments(after) == DropComments(next)
    requires next != [] && (next[0].kind == ArrayEnd || next[0].kind == ArraySeparator)
    ensures ReadElements(f, lib, ts, acc, index)
         == if next[0].kind == ArrayEnd then AcceptEntries(Put(acc, Index(index), v), next[1..])
            else ReadElements(f, lib, next[1..], Put(acc, Index(index), v), index + 1)
  {
    hide ReadValue, Put;
    assert DropComments(next) == next;
  }

  lemma {:induction false} RecordReads(f: Features, lib: CLibrary, space: seq<Blank>, fields: Fields, rest: seq<Lexeme>)
    requires AreFields(fields)
    ensures ReadMembers(f, lib, BlankTokens(space) + (FieldsTokens(fields, true) + ([Punctuation('}')] + rest)), Nil,
            "") ==
              match (FieldsFit(f.allowComments, fields), DenotedFields(lib, fields, Nil))
              case (true, Some(es)) => AcceptEntries(es, rest)
              case (_, _) => RejectEntries
    decreases fields, 2
  {
    hide ReadValue, ReadMembers, JsonTokensOf, SpellString, Denoted, CharsText, IsJson, AreChars, BlankTokens;
    hide NoComments;
    hide AfterMemberTexts, CommentsFit, LastName;
    var close := [Punctuation('}')] + rest;
    BlanksBeforeName(f, lib, space, FieldsTokens(fields, true) + close, Nil, "");
    assert close[1..] == rest;
    if fields.NoFields? {
      assert FieldsTokens(fields, true) + close == close;
      ClosesEmpty(f, lib, close);
    } else {
      FieldsRead(f, lib, fields, Nil, "", close);
      if DenotedFields(lib, fields, Nil).Some? {
        BlanksAfterMember(f, lib, LastBlanks(fields), close, DenotedFields(lib, fields, Nil).value, LastName(fields));
      }
    }
  }

  lemma ClosesEmpty(f: Features, lib: CLibrary, ts: seq<Lexeme>)
    requires ts != [] && ts[0].kind == ObjectEnd
    ensures ReadMembers(f, lib, ts, Nil, "") == AcceptEntries(Nil, ts[1..])
  {
    assert DropComments(ts) == ts;
  }

  /** Comments between a member and its comma or closing brace are skipped whether they are allowed or not. */
  lemma BlanksAfterMember(f: Features, lib: CLibrary, bs: seq<Blank>, ts: seq<Lexeme>, entries: Entries, name: string)
    requires ts != [] && (ts[0].kind == ObjectEnd || ts[0].kind == ArraySeparator)
    ensures AfterMemberTexts(f, lib, BlankTokens(bs) + ts, entries, name)
         == if ts[0].kind == ObjectEnd then AcceptEntries(entries, ts[1..])
            else ReadMembers(f, lib, ts[1..], entries, name)
  {
    hide BlankTokens, NoComments, ReadMembers;
    NoCommentsNoTokens(bs);
    DropBlanks(bs, ts);
    assert DropComments(ts) == ts;
  }

  /** What stands behind the last value */
  function LastBlanks(fields: Fields): seq<Blank>
    requires fields.Field?
  {
    if fields.rest.Field? then LastBlanks(fields.rest) else fields.after
  }

  function LastName(fields: Fields): string
    requires fields.Field? && AreFields(fields)
  {
    if fields.rest.Field? then LastName(fields.rest)
    else
      match CharsText(fields.name)
      case Some(s) => s
      case None => ""
  }

  lemma FieldReads(f: Features, lib: CLibrary, fields: Fields, ts: seq<Lexeme>, acc: Entries, last: string)
    requires fields.Field? && AreChars(fields.name)
    ensures ReadMembers(f, lib, BlankTokens(fields.before)
            + ([StringLexeme(fields.name)] + (BlankTokens(fields.beforeColon)
                        + ([Punctuation(':')] + ts))), acc, last) ==
              match (NoComments(fields.beforeColon), CharsText(fields.name), ReadValue(f, lib, ts))
              case (true, Some(s), Accept(v, rest)) => AfterMemberTexts(f, lib, rest, Put(acc, MemberKey(s), v), s)
              case (_, _, _) => RejectEntries
  {
    hide ReadValue, AfterMemberTexts, Put, SpellString, CharsText, AreChars, Unquote, MemberKey, BlankTokens;
    hide NoComments;
    var us := [StringLexeme(fields.name)] + (BlankTokens(fields.beforeColon) + ([Punctuation(':')] + ts));
    BlanksBeforeName(f, lib, fields.before, us, acc, last);
    NoCommentsNoTokens(fields.beforeColon);
    assert DropComments(us) == us;
    StringReads(fields.name);
    if NoComments(fields.beforeColon) {
      assert us == [StringLexeme(fields.name), Punctuation(':')] + ts && us[2..] == ts;
    } else {
      assert us[1].kind == CommentToken;
    }
  }

  /** Members are read one after the other, up to what stands behind the last value. */
  lemma {:induction false} FieldsRead(f: Features, lib: CLibrary, fields: Fields, acc: Entries, last: string,
                                      ts: seq<Lexeme>)
    requires AreFields(fields) && fields.Field?
    ensures ReadMembers(f, lib, FieldsTokens(fields, true) + ts, acc, last) ==
              match (FieldsFit(f.allowComments, fields), DenotedFields(lib, fields, acc))
              case (true, Some(es)) =>
                  AfterMemberTexts(f, lib, BlankTokens(LastBlanks(fields)) + ts, es, LastName(fields))
              case (_, _) => RejectEntries
    decreases fields, 1
  {
    hide ReadValue, ReadMembers, AfterMemberTexts, JsonTokensOf, SpellString, Denoted, CharsText, IsJson, AreChars, Put;
    hide MemberKey;
    hide BlankTokens, NoComments, CommentsFit;
    var next := FieldsTokens(fields.rest, false) + ts;
    var after := BlankTokens(fields.after) + next;
    GroupField([], BlankTokens(fields.before), [StringLexeme(fields.name)], BlankTokens(fields.beforeColon),
               [Punctuation(':')], BlankTokens(fields.afterColon), JsonTokensOf(fields.value),
                   BlankTokens(fields.after),
               FieldsTokens(fields.rest, false), ts);
    JsonReads(f, lib, fields.value, after);
    var value := BlankTokens(fields.afterColon) + (JsonTokensOf(fields.value) + after);
    BlanksBeforeValue(f, lib, fields.afterColon, JsonTokensOf(fields.value) + after);
    FieldReads(f, lib, fields, value, acc, last);
    DropEmpty(BlankTokens(fields.before) + ([StringLexeme(fields.name)] + (BlankTokens(fields.beforeColon)
                + ([Punctuation(':')] + value))));
    var name, v := CharsText(fields.name), Denoted(lib, fields.value);
    if name.Some? && v.Some? {
      var acc' := Put(acc, MemberKey(name.value), v.value);
      if fields.rest.NoFields? {
        assert next == ts;
        NoMoreFields(f.allowComments, lib, acc');
      } else {
        NextField(fields.rest, ts);
        FieldsRead(f, lib, fields.rest, acc', name.value, ts);
        BlanksAfterMember(f, lib, fields.after, next, acc', name.value);
      }
    }
  }

  lemma DropEmpty<T>(s: seq<T>)
    ensures [] + s == s
  {
  }

  lemma NoMoreFields(allow: bool, lib: CLibrary, acc: Entries)
    ensures DenotedFields(lib, NoFields, acc) == Some(acc) && FieldsFit(allow, NoFields)
  {
  }

  lemma NextField(fields: Fields, ts: seq<Lexeme>)
    requires fields.Field?
    ensures var next := FieldsTokens(fields, false) + ts;
            next != [] && next[0] == Punctuation(',') && next[1..] == FieldsTokens(fields, true) + ts
  {
    hide JsonTokensOf, BlankTokens, SpellString;
    var body := FieldsTokens(fields, true);
    assert FieldsTokens(fields, false) == [Punctuation(',')] + body;
    Associates([Punctuation(',')], body, ts);
  }

  // ---------------------------------------------------------------- documents

  /**
   A text of the grammar with comments anywhere is accepted exactly if its comments are where they
   may be and no string or number in it denotes nothing, and then gives the tree that it denotes,
   whatever follows the value (if it is a number, no character of one); a strict reader takes
   containers only.
   */
  lemma GrammarIsRead(f: Features, lib: CLibrary, space: seq<Blank>, j: Json, after: string, prev: Value)
    requires AreBlanks(space) && IsJson(j) && (j.Num? ==> EndsNumber(after))
    ensures var r := ParseDocument(f, lib, SpellBlanks(space) + (Spell(j) + after), prev);
            && (r.ok <==>
                  && (f.allowComments || NoComments(space)) && CommentsFit(f.allowComments, j)
                  && Denoted(lib, j).Some? && (f.strictRoot ==> j.List? || j.Record?))
            && (r.ok ==> Erase(r.root) == Denoted(lib, j).value)
  {
    hide ParseDocument, ReadValue, Texts, Spell, JsonTokensOf, EndsNumber, Erase, SpellBlanks, BlankTokens, NoComments;
    hide CommentsFit;
    TextsBlanks(space, Spell(j) + after);
    SpellTexts(j, after);
    BlanksBeforeValue(f, lib, space, JsonTokensOf(j) + Texts(after));
    JsonReads(f, lib, j, Texts(after));
    DocumentMatches(f, lib, SpellBlanks(space) + (Spell(j) + after), prev);
    DenotesContainer(lib, j);
  }

  lemma DenotesContainer(lib: CLibrary, j: Json)
    requires IsJson(j)
    ensures Denoted(lib, j).Some? ==> (IsContainer(Denoted(lib, j).value) <==> j.List? || j.Record?)
  {
    hide DecimalValue, SpellNumber, CharsText;
  }
}
