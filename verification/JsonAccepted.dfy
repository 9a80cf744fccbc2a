/**
 The texts that the reader accepts, in both directions: syntax trees in literal characters that have
 the JSON grammar and everything that the reader takes beyond it, and nothing else.
 */
module JsonAccepted {
  import JsonExtensions
  import opened JsonGrammar
  import opened JsonLexemes
  import opened JsonLexer
  import opened JsonLiterals
  import opened JsonParser
  import opened JsonSpelling
  import JsonRoundTrip
  import JsonSyntax
  import opened JsonTokens
  import opened JsonTool
  import opened JsonValue
  import opened Wrappers

  /** A value; a gap is a dropped null. */
  datatype Text =
    | Word(word: string)
    | Num(digits: string)
    | Lit(cs: seq<Char>)
    | Gap
    | EmptyList(space: string)
    | List(items: Items)
    | Record(members: Members)

  datatype Items =
    | Last(before: seq<Blank>, value: Text, after: seq<Blank>)
    | More(before: seq<Blank>, value: Text, after: seq<Blank>, rest: Items)

  datatype Naming = LitName(cs: seq<Char>) | NumName(digits: string)

  datatype Member = Member(before: seq<Blank>, name: Naming, space: string, afterColon: seq<Blank>, value: Text,
                           after: seq<Blank>)

  /** What stands between the opening brace, or a separator, and the closing brace: `joint` is the separator. */
  datatype Members =
    | Close(before: seq<Blank>)
    | Only(member: Member)
    | Further(member: Member, joint: string, rest: Members)

  // ---------------------------------------------------------------- the characters

  function Spell(t: Text): string {
    match t
    case Word(word) => word
    case Num(digits) => digits
    case Lit(cs) => SpellString(cs)
    case Gap => ""
    case EmptyList(space) => "[" + (space + "]")
    case List(items) => "[" + SpellItems(items)
    case Record(members) => "{" + SpellMembers(members)
  }

  function SpellItems(items: Items): string {
    match items
    case Last(before, value, after) => SpellBlanks(before) + (Spell(value) + (SpellBlanks(after) + "]"))
    case More(before, value, after, rest) =>
      SpellBlanks(before) + (Spell(value) + (SpellBlanks(after) + ("," + SpellItems(rest))))
  }

  function SpellName(name: Naming): string {
    match name
    case LitName(cs) => SpellString(cs)
    case NumName(digits) => digits
  }

  function SpellMember(m: Member, next: string): string {
    SpellBlanks(m.before) + (SpellName(m.name) + (m.space + (":"
    + (SpellBlanks(m.afterColon) + (Spell(m.value) + (SpellBlanks(m.after) + next))))))
  }

  function SpellMembers(ms: Members): string {
    match ms
    case Close(before) => SpellBlanks(before) + "}"
    case Only(m) => SpellMember(m, "}")
    case Further(m, joint, rest) => SpellMember(m, joint + SpellMembers(rest))
  }

  // ---------------------------------------------------------------- what is taken

  /** Comments in front of a value have to be allowed. */
  predicate BlanksFit(f: Features, bs: seq<Blank>) {
    AreBlanks(bs) && (f.allowComments || NoComments(bs))
  }

  predicate HasText(cs: seq<Char>) {
    AreChars(cs) && CharsText(cs).Some?
  }

  /** Digits, signs, points and the letter of exponents in any order, as long as they decode */
  predicate IsNumeral(lib: CLibrary, digits: string, behind: string) {
    && digits != "" && digits[0] in "-0123456789" && AllNumberLetters(digits) && NumberEnds(behind)
    && DecodeNumber(lib, digits).Some?
  }

  /** After whitespace comes a comma. */
  predicate CommaComes(s: string) {
    s != "" && (s[0] == ',' || (s[0] in WHITE && CommaComes(s[1..])))
  }

  /** Between two members stands a comma, or any other token but the closing brace behind a comment. */
  predicate IsJoint(after: seq<Blank>, joint: string, behind: string) {
    || joint == ","
    || (!NoComments(after) && joint != "" && joint[0] !in WHITE && behind != "" && IsOtherToken(joint, behind))
  }

  /** Any token but a closing brace, a comma and a comment */
  predicate IsOtherToken(x: string, behind: string) {
    || x == "{" || x == "[" || x == "]" || x == ":" || x == "true" || x == "false" || x == "null" || x == "\0"
    || (x != "" && x[0] in "-0123456789" && AllNumberLetters(x) && NumberEnds(behind))
    || (|x| >= 2 && x[0] == '"' && x[|x| - 1] == '"' && IsInside(x[1..|x| - 1]))
    || IsStray(x, behind)
  }

  /** The reader takes the text in front of `behind`. */
  predicate Fits(f: Features, lib: CLibrary, t: Text, behind: string)
    decreases t
  {
    match t
    case Word(word) => word == "null" || word == "true" || word == "false"
    case Num(digits) => IsNumeral(lib, digits, behind)
    case Lit(cs) => HasText(cs)
    case Gap => f.allowDroppedNullPlaceholders && CommaComes(behind)
    case EmptyList(space) => AllWhite(space)
    case List(items) => ItemsFit(f, lib, items, behind)
    case Record(members) => MembersFit(f, lib, members, "", behind)
  }

  predicate ItemsFit(f: Features, lib: CLibrary, items: Items, behind: string)
    decreases items
  {
    match items
    case Last(before, value, after) =>
      BlanksFit(f, before) && AreBlanks(after) && Fits(f, lib, value, SpellBlanks(after) + ("]" + behind))
    case More(before, value, after, rest) =>
      && BlanksFit(f, before) && AreBlanks(after)
      && Fits(f, lib, value, SpellBlanks(after) + ("," + (SpellItems(rest) + behind)))
      && ItemsFit(f, lib, rest, behind)
  }

  predicate NameFits(f: Features, lib: CLibrary, name: Naming) {
    match name
    case LitName(cs) => HasText(cs)
    case NumName(digits) => f.allowNumericKeys && IsNumeral(lib, digits, "")
  }

  /** The text of a name */
  function NameOf(lib: CLibrary, name: Naming): string {
    match name
    case LitName(cs) => if HasText(cs) then CharsText(cs).value else ""
    case NumName(digits) =>
      match DecodeNumber(lib, digits)
      case Some(d) => NumberAsString(lib, d)
      case None => ""
  }

  predicate MemberFits(f: Features, lib: CLibrary, m: Member, next: string)
    decreases m
  {
    && AreBlanks(m.before) && NameFits(f, lib, m.name) && AllWhite(m.space) && BlanksFit(f, m.afterColon)
    && AreBlanks(m.after) && Fits(f, lib, m.value, SpellBlanks(m.after) + next)
  }

  /** Nothing but the empty name may be in front of a separator that is followed by the closing brace. */
  predicate MembersFit(f: Features, lib: CLibrary, ms: Members, last: string, behind: string)
    decreases ms
  {
    match ms
    case Close(before) => AreBlanks(before) && last == ""
    case Only(m) => MemberFits(f, lib, m, "}" + behind)
    case Further(m, joint, rest) =>
      && MemberFits(f, lib, m, joint + (SpellMembers(rest) + behind))
      && IsJoint(m.after, joint, SpellMembers(rest) + behind)
      && MembersFit(f, lib, rest, NameOf(lib, m.name), behind)
  }

  // ---------------------------------------------------------------- what it stands for

  function ValueOf(lib: CLibrary, t: Text): Value {
    match t
    case Word(word) => Leaf(if word == "true" then Bool(true) else if word == "false" then Bool(false) else Null)
    case Num(digits) => Leaf(match DecodeNumber(lib, digits) case Some(d) => d case None => Null)
    case Lit(cs) => Leaf(Str(Some(CStr(if HasText(cs) then CharsText(cs).value else ""))))
    case Gap => Leaf(Null)
    case EmptyList(_) => Leaf(Arr(Nil))
    case List(items) => Leaf(Arr(ItemsOf(lib, items, Nil, 0)))
    case Record(members) => Leaf(Obj(MembersOf(lib, members, Nil)))
  }

  /** The elements get ascending indices. */
  function ItemsOf(lib: CLibrary, items: Items, before: Entries, index: nat): Entries {
    match items
    case Last(_, value, _) => Put(before, Index(index), ValueOf(lib, value))
    case More(_, value, _, rest) => ItemsOf(lib, rest, Put(before, Index(index), ValueOf(lib, value)), index + 1)
  }

  /** Of equal names the last one wins; names end at their first NUL. */
  function MembersOf(lib: CLibrary, ms: Members, before: Entries): Entries {
    match ms
    case Close(_) => before
    case Only(m) => Put(before, Name(CStr(NameOf(lib, m.name))), ValueOf(lib, m.value))
    case Further(m, _, rest) =>
      MembersOf(lib, rest, Put(before, Name(CStr(NameOf(lib, m.name))), ValueOf(lib, m.value)))
  }

  // ---------------------------------------------------------------- spelled texts are accepted

  lemma OtherTokenIs(x: string, behind: string) returns (kind: TokenKind)
    requires IsOtherToken(x, behind)
    ensures kind !in {ObjectEnd, ArraySeparator, CommentToken} && IsSpelled(kind, x, behind)
  {
    hide AllNumberLetters, IsInside, IsStray, IsComment;
    kind := if x == "{" then ObjectBegin else if x == "[" then ArrayBegin else if x == "]" then ArrayEnd
            else if x == ":" then MemberSeparator else if x == "true" then TrueToken
            else if x == "false" then FalseToken else if x == "null" then NullToken else if x == "\0" then EndOfStream
            else if IsStray(x, behind) then ErrorToken
            else if |x| >= 2 && x[0] == '"' && x[|x| - 1] == '"' && IsInside(x[1..|x| - 1]) then StringToken
            else NumberToken;
  }

  lemma {:induction false} CommaTexts(s: string)
    requires CommaComes(s)
    ensures Texts(s) != [] && Texts(s)[0] == Punctuation(',')
  {
    hide Texts;
    assert s == [s[0]] + s[1..];
    if s[0] == ',' {
      TextsPunctuation(',', s[1..]);
    } else {
      WhiteIff(s[0]);
      TextsSpace(s[0], s[1..]);
      CommaTexts(s[1..]);
    }
  }

  lemma GapReads(f: Features, lib: CLibrary, behind: string)
    requires f.allowDroppedNullPlaceholders && CommaComes(behind)
    ensures ReadValue(f, lib, Texts(behind)) == Accept(Leaf(Null), Texts(behind))
  {
    CommaTexts(behind);
    hide Texts, ReadMembers, ReadArray, Scalar;
    assert ValueTexts(f, Texts(behind)) == Texts(behind);
  }

  lemma NumberTexts(lib: CLibrary, digits: string, behind: string)
    requires IsNumeral(lib, digits, behind)
    ensures Texts(digits + behind) == [Lexeme(NumberToken, digits)] + Texts(behind)
  {
    hide Texts, DecodeNumber, AllNumberLetters;
    assert digits[0] !in WHITE;
    SpelledTexts(NumberToken, digits, behind);
  }

  lemma {:induction false} TextReads(f: Features, lib: CLibrary, t: Text, behind: string)
    requires Fits(f, lib, t, behind)
    ensures ReadValue(f, lib, Texts(Spell(t) + behind)) == Accept(ValueOf(lib, t), Texts(behind))
    decreases t, 0
  {
    hide Texts, ReadValue, ReadArray, ReadMembers, SpellString, CharsText, DecodeNumber, AreChars, IsNumeral;
    match t
    case Word(word) =>
      var kind := if word == "null" then NullToken else if word == "true" then TrueToken else FalseToken;
      TextsLiteral(word, kind, behind);
      JsonSyntax.ScalarTokenReads(f, lib, Lexeme(kind, word), Texts(behind));
    case Num(digits) =>
      NumberTexts(lib, digits, behind);
      NumeralDecodes(lib, digits, behind);
      JsonSyntax.ScalarTokenReads(f, lib, Lexeme(NumberToken, digits), Texts(behind));
    case Lit(cs) =>
      TextsString(cs, behind);
      JsonSyntax.StringScalar(lib, cs);
      JsonSyntax.ScalarTokenReads(f, lib, Lexeme(StringToken, SpellString(cs)), Texts(behind));
    case Gap =>
      GapReads(f, lib, behind);
      assert "" + behind == behind;
    case EmptyList(space) => EmptyListReads(f, lib, space, behind);
    case List(items) =>
      ItemsRead(f, lib, items, Nil, 0, behind);
      ListReads(f, lib, SpellItems(items) + behind);
      assert ("[" + SpellItems(items)) + behind == "[" + (SpellItems(items) + behind);
    case Record(members) =>
      MembersRead(f, lib, members, Nil, "", behind);
      var inner := SpellMembers(members) + behind;
      TextsPunctuation('{', inner);
      JsonSyntax.Opens(f, lib, '{', Texts(inner));
      assert ("{" + SpellMembers(members)) + behind == "{" + inner;
  }

  lemma NumeralDecodes(lib: CLibrary, digits: string, behind: string)
    requires IsNumeral(lib, digits, behind)
    ensures DecodeNumber(lib, digits).Some?
  {
  }

  lemma EmptyListReads(f: Features, lib: CLibrary, space: string, behind: string)
    requires AllWhite(space)
    ensures ReadValue(f, lib, Texts(("[" + (space + "]")) + behind)) == Accept(Leaf(Arr(Nil)), Texts(behind))
  {
    hide Texts, ReadValue, ReadElements, AllWhite;
    var inner := space + ("]" + behind);
    TextsPunctuation('[', inner);
    WhiteTexts(space, "]" + behind);
    TextsPunctuation(']', behind);
    assert ("[" + (space + "]")) + behind == "[" + inner;
    var ts := Texts("]" + behind);
    assert ts[1..] == Texts(behind);
    JsonSyntax.Opens(f, lib, '[', ts);
  }

  /** What is read as elements does not begin with the closing bracket. */
  lemma ListReads(f: Features, lib: CLibrary, inner: string)
    requires ReadElements(f, lib, Texts(inner), Nil, 0).AcceptEntries?
    ensures var r := ReadElements(f, lib, Texts(inner), Nil, 0);
            ReadValue(f, lib, Texts("[" + inner)) == Accept(Leaf(Arr(r.entries)), r.rest)
  {
    hide Texts, ReadValue, ReadElements;
    var ts := Texts(inner);
    TextsPunctuation('[', inner);
    JsonSyntax.Opens(f, lib, '[', ts);
    if ts != [] && ts[0].kind == ArrayEnd {
      JsonRoundTrip.ClosedIsNoValue(f, lib, ts);
      JsonSyntax.ElementFails(f, lib, ts, Nil, 0);
    }
  }

  /** A value with what is around it */
  lemma BlankValueReads(f: Features, lib: CLibrary, before: seq<Blank>, t: Text, after: seq<Blank>, next: string)
    requires BlanksFit(f, before) && AreBlanks(after)
    requires ReadValue(f, lib, Texts(Spell(t) + (SpellBlanks(after) + next)))
          == Accept(ValueOf(lib, t), Texts(SpellBlanks(after) + next))
    ensures ReadValue(f, lib, Texts(SpellBlanks(before) + (Spell(t) + (SpellBlanks(after) + next))))
         == Accept(ValueOf(lib, t), BlankTokens(after) + Texts(next))
  {
    hide Texts, ReadValue, Spell, SpellBlanks, BlankTokens, AreBlanks, NoComments, ValueOf;
    var value := Spell(t) + (SpellBlanks(after) + next);
    TextsBlanks(before, value);
    TextsBlanks(after, next);
    JsonSyntax.BlanksBeforeValue(f, lib, before, Texts(value));
  }

  lemma {:induction false} ItemsRead(f: Features, lib: CLibrary, items: Items, acc: Entries, index: nat, behind: string)
    requires ItemsFit(f, lib, items, behind)
    ensures ReadElements(f, lib, Texts(SpellItems(items) + behind), acc, index)
         == AcceptEntries(ItemsOf(lib, items, acc, index), Texts(behind))
    decreases items, 1
  {
    hide Texts, ReadValue, ReadElements, Spell, SpellBlanks, BlankTokens, AreBlanks, BlanksFit, ValueOf, Put;
    hide DropComments, Fits;
    match items
    case Last(before, value, after) =>
      var next := "]" + behind;
      TextReads(f, lib, value, SpellBlanks(after) + next);
      BlankValueReads(f, lib, before, value, after, next);
      TextsPunctuation(']', behind);
      DropBlanks(after, Texts(next));
      ItemSpelled(SpellBlanks(before), Spell(value), SpellBlanks(after), "]", behind);
      JsonSyntax.ElementGoesOn(f, lib, Texts(SpellItems(items) + behind), ValueOf(lib, value),
                               BlankTokens(after) + Texts(next), Texts(next), acc, index);
      assert Texts(next)[1..] == Texts(behind);
    case More(before, value, after, rest) =>
      var more := SpellItems(rest) + behind;
      var next := "," + more;
      TextReads(f, lib, value, SpellBlanks(after) + next);
      BlankValueReads(f, lib, before, value, after, next);
      TextsPunctuation(',', more);
      DropBlanks(after, Texts(next));
      ItemSpelled(SpellBlanks(before), Spell(value), SpellBlanks(after), "," + SpellItems(rest), behind);
      assert ("," + SpellItems(rest)) + behind == next;
      JsonSyntax.ElementGoesOn(f, lib, Texts(SpellItems(items) + behind), ValueOf(lib, value),
                               BlankTokens(after) + Texts(next), Texts(next), acc, index);
      assert Texts(next)[1..] == Texts(more);
      ItemsRead(f, lib, rest, Put(acc, Index(index), ValueOf(lib, value)), index + 1, behind);
  }

  lemma ItemSpelled(a: string, b: string, c: string, d: string, behind: string)
    ensures (a + (b + (c + d))) + behind == a + (b + (c + (d + behind)))
  {
    JsonSyntax.GroupFour(a, b, c, d, behind);
  }

  /** The token of a name */
  function NameLexeme(name: Naming): Lexeme {
    match name
    case LitName(cs) => Lexeme(StringToken, SpellString(cs))
    case NumName(digits) => Lexeme(NumberToken, digits)
  }

  lemma NameReads(f: Features, lib: CLibrary, name: Naming, s: string)
    requires NameFits(f, lib, name) && (name.NumName? ==> NumberEnds(s))
    ensures Texts(SpellName(name) + s) == [NameLexeme(name)] + Texts(s)
    ensures NameText(f, lib, NameLexeme(name)) == Some(NameOf(lib, name))
  {
    hide Texts, SpellString, CharsText, DecodeNumber, AreChars, AllNumberLetters, Unquote, NumberAsString;
    match name
    case LitName(cs) =>
      TextsString(cs, s);
      StringReads(cs);
    case NumName(digits) =>
      NumberTexts(lib, digits, s);
  }

  lemma NamedReads(f: Features, lib: CLibrary, name: Lexeme, ts: seq<Lexeme>, acc: Entries, last: string)
    requires (name.kind == StringToken || name.kind == NumberToken) && NameText(f, lib, name).Some?
    ensures ReadMembers(f, lib, [name] + ([Punctuation(':')] + ts), acc, last) ==
              match ReadValue(f, lib, ts)
              case Reject => RejectEntries
              case Accept(v, rest) =>
                var s := NameText(f, lib, name).value;
                AfterMemberTexts(f, lib, rest, Put(acc, MemberKey(s), v), s)
  {
    hide ReadValue, AfterMemberTexts, Put, NameText, MemberKey;
    var us := [name] + ([Punctuation(':')] + ts);
    assert us[0] == name && us[1] == Punctuation(':') && us[2..] == ts;
    assert DropComments(us) == us;
  }

  lemma SpaceEndsNumber(space: string, s: string)
    requires AllWhite(space) && NumberEnds(s)
    ensures NumberEnds(space + s)
  {
    if space != "" {
      assert (space + s)[0] == space[0];
    } else {
      assert space + s == s;
    }
  }

  lemma ColonEndsNumber(s: string)
    ensures NumberEnds(":" + s)
  {
    assert (":" + s)[0] == ':';
  }

  /** A member, up to what stands behind its value */
  lemma {:induction false} MemberReads(f: Features, lib: CLibrary, m: Member, next: string, acc: Entries, last: string)
    requires MemberFits(f, lib, m, next)
    ensures ReadMembers(f, lib, Texts(SpellMember(m, next)), acc, last)
         == AfterMemberTexts(f, lib, BlankTokens(m.after) + Texts(next),
                             Put(acc, MemberKey(NameOf(lib, m.name)), ValueOf(lib, m.value)), NameOf(lib, m.name))
    decreases m, 1
  {
    hide Texts, ReadValue, ReadMembers, Spell, SpellBlanks, BlankTokens, AreBlanks, BlanksFit, ValueOf, Put, Fits;
    hide AfterMemberTexts, SpellName, NameOf, NameText, NameFits, MemberKey, AllWhite, NumberEnds;
    var value := SpellBlanks(m.afterColon) + (Spell(m.value) + (SpellBlanks(m.after) + next));
    var colon := m.space + (":" + value);
    TextReads(f, lib, m.value, SpellBlanks(m.after) + next);
    BlankValueReads(f, lib, m.afterColon, m.value, m.after, next);
    TextsPunctuation(':', value);
    WhiteTexts(m.space, ":" + value);
    ColonEndsNumber(value);
    SpaceEndsNumber(m.space, ":" + value);
    NameReads(f, lib, m.name, colon);
    TextsBlanks(m.before, SpellName(m.name) + colon);
    JsonSyntax.BlanksBeforeName(f, lib, m.before, Texts(SpellName(m.name) + colon), acc, last);
    NamedReads(f, lib, NameLexeme(m.name), Texts(value), acc, last);
  }

  lemma CloseReads(f: Features, lib: CLibrary, before: seq<Blank>, acc: Entries, behind: string)
    requires AreBlanks(before)
    ensures ReadMembers(f, lib, Texts((SpellBlanks(before) + "}") + behind), acc, "")
         == AcceptEntries(acc, Texts(behind))
  {
    TextsBlanks(before, "}" + behind);
    TextsPunctuation('}', behind);
    hide Texts, SpellBlanks, BlankTokens, AreBlanks;
    Associates(SpellBlanks(before), "}", behind);
    var ts := Texts("}" + behind);
    JsonSyntax.BlanksBeforeName(f, lib, before, ts, acc, "");
    assert DropComments(ts) == ts && ts[1..] == Texts(behind);
  }

  /** What stands between two members is passed over. */
  lemma JointReads(f: Features, lib: CLibrary, after: seq<Blank>, joint: string, behind: string, entries: Entries,
                   name: string)
    requires IsJoint(after, joint, behind)
    ensures AfterMemberTexts(f, lib, BlankTokens(after) + Texts(joint + behind), entries, name)
         == ReadMembers(f, lib, Texts(behind), entries, name)
  {
    hide Texts, BlankTokens, ReadMembers, IsOtherToken, IsSpelled, NoComments;
    if joint == "," {
      TextsPunctuation(',', behind);
      var ts := Texts("," + behind);
      assert ts[1..] == Texts(behind);
      JsonSyntax.BlanksAfterMember(f, lib, after, ts, entries, name);
    } else {
      var kind := OtherTokenIs(joint, behind);
      SpelledTexts(kind, joint, behind);
      var ts := Texts(joint + behind);
      assert ts[1..] == Texts(behind);
      JsonExtensions.HiddenComma(f, lib, after, ts, entries, name);
    }
  }

  lemma MemberSpelled(m: Member, next: string, behind: string)
    ensures SpellMember(m, next) + behind == SpellMember(m, next + behind)
  {
    hide Spell, SpellBlanks, SpellName;
    JsonSyntax.GroupFour(SpellBlanks(m.afterColon), Spell(m.value), SpellBlanks(m.after), next, behind);
    JsonSyntax.GroupItem(SpellBlanks(m.before), SpellName(m.name), m.space, ":",
                         SpellBlanks(m.afterColon) + (Spell(m.value) + (SpellBlanks(m.after) + next)), behind);
  }

  lemma {:induction false} MembersRead(f: Features, lib: CLibrary, ms: Members, acc: Entries, last: string,
                                       behind: string)
    requires MembersFit(f, lib, ms, last, behind)
    ensures ReadMembers(f, lib, Texts(SpellMembers(ms) + behind), acc, last)
         == AcceptEntries(MembersOf(lib, ms, acc), Texts(behind))
    decreases ms, 2
  {
    hide Texts, ReadMembers, SpellBlanks, BlankTokens, AreBlanks, ValueOf, Put, SpellMember, AfterMemberTexts, NameOf;
    hide IsJoint, MemberFits;
    match ms
    case Close(before) => CloseReads(f, lib, before, acc, behind);
    case Only(m) =>
      MemberSpelled(m, "}", behind);
      MemberReads(f, lib, m, "}" + behind, acc, last);
      TextsPunctuation('}', behind);
      assert Texts("}" + behind)[1..] == Texts(behind);
      JsonSyntax.BlanksAfterMember(f, lib, m.after, Texts("}" + behind), MembersOf(lib, ms, acc), NameOf(lib, m.name));
    case Further(m, joint, rest) =>
      var more := SpellMembers(rest) + behind;
      MemberSpelled(m, joint + SpellMembers(rest), behind);
      assert (joint + SpellMembers(rest)) + behind == joint + more;
      MemberReads(f, lib, m, joint + more, acc, last);
      var entries := Put(acc, MemberKey(NameOf(lib, m.name)), ValueOf(lib, m.value));
      JointReads(f, lib, m.after, joint, more, entries, NameOf(lib, m.name));
      MembersRead(f, lib, rest, entries, NameOf(lib, m.name), behind);
  }

  // ---------------------------------------------------------------- accepted texts are spelled

  lemma OtherTokenIff(kind: TokenKind, x: string, behind: string)
    requires IsSpelled(kind, x, behind) && kind !in {ObjectEnd, ArraySeparator, CommentToken}
    ensures IsOtherToken(x, behind)
  {
    hide AllNumberLetters, IsInside, IsStray;
  }

  /** A literal token that is read spells a text. */
  lemma LiteralSpelled(x: string, t: string) returns (cs: seq<Char>)
    requires |x| >= 2 && x[0] == '"' && x[|x| - 1] == '"' && IsInside(x[1..|x| - 1])
    requires Unquote(Inner(x)) == Unquoted.Text(t)
    ensures AreChars(cs) && CharsText(cs) == Some(t) && SpellString(cs) == x
  {
    hide Unquote, CharsText, AreChars, SpellChars, IsInside;
    var inside := x[1..|x| - 1];
    TextIff(inside, t);
    cs :| AreChars(cs) && SpellChars(cs) == inside && CharsText(cs) == Some(t);
    assert x == "\"" + inside + "\"";
  }

  /** The blanks in front of a value, and that they are allowed */
  lemma ValueBlanks(f: Features, s: string) returns (bs: seq<Blank>, r: string)
    requires ValueTexts(f, Texts(s)) != [] && ValueTexts(f, Texts(s))[0].kind != CommentToken
    ensures BlanksFit(f, bs) && s == SpellBlanks(bs) + r && Texts(r) == ValueTexts(f, Texts(s)) && |r| <= |s|
    ensures r != "" && r[0] !in WHITE
  {
    hide Texts, AreBlanks, SpellBlanks, NoComments;
    assert DropComments(Texts(s)) != [] && (!f.allowComments ==> DropComments(Texts(s)) == Texts(s));
    bs, r := TakeBlanks(s);
  }

  lemma NoWhite(w: string, more: string)
    requires AllWhite(w)
    ensures w == "" || (w + more)[0] in WHITE
  {
    if w != "" {
      assert (w + more)[0] == w[0];
    }
  }

  /** A text that does not begin with whitespace begins with its first token. */
  lemma TakeFirst(s: string) returns (x: string, r: string)
    requires Texts(s) != [] && s != "" && s[0] !in WHITE
    ensures x != "" && x[0] !in WHITE && s == x + r && |r| < |s|
    ensures Texts(s)[0].text == x && Texts(r) == Texts(s)[1..]
    ensures CanEnd(Texts(s)[0].kind) || r != "" ==> IsSpelled(Texts(s)[0].kind, x, r)
  {
    hide Texts, IsSpelled;
    var w;
    w, x, r := Take(s);
    NoWhite(w, x + r);
    assert "" + (x + r) == x + r;
  }

  lemma NumeralSpelled(lib: CLibrary, x: string, r: string)
    requires IsSpelled(NumberToken, x, r) && DecodeNumber(lib, x).Some?
    ensures IsNumeral(lib, x, r)
  {
    hide DecodeNumber, AllNumberLetters;
  }

  lemma CommentIsNoValue(f: Features, lib: CLibrary, ts: seq<Lexeme>)
    requires ReadValue(f, lib, ts).Accept?
    ensures ValueTexts(f, ts) != [] && ValueTexts(f, ts)[0].kind != CommentToken
  {
    hide ReadMembers, ReadArray;
  }

  lemma {:induction false} TextSpelled(f: Features, lib: CLibrary, s: string)
    returns (bs: seq<Blank>, t: Text, behind: string)
    requires ReadValue(f, lib, Texts(s)).Accept?
    ensures BlanksFit(f, bs) && s == SpellBlanks(bs) + (Spell(t) + behind) && Fits(f, lib, t, behind)
    ensures var r := ReadValue(f, lib, Texts(s)); ValueOf(lib, t) == r.value && Texts(behind) == r.rest
    ensures |behind| <= |s|
    decreases |s|, 0
  {
    hide Texts, ReadMembers, ReadArray, AreBlanks, SpellBlanks, NoComments, IsSpelled, Scalar, Fits, ValueOf, Spell;
    CommentIsNoValue(f, lib, Texts(s));
    var r;
    bs, r := ValueBlanks(f, s);
    var us := Texts(r);
    var x, q := TakeFirst(r);
    if us[0].kind == ObjectBegin {
      t, behind := RecordSpelled(f, lib, x, q);
    } else if us[0].kind == ArrayBegin {
      t, behind := ListSpelled(f, lib, x, q);
    } else if us[0].kind == ArraySeparator && f.allowDroppedNullPlaceholders {
      t, behind := Gap, r;
      GapSpelled(f, lib, x, q);
    } else {
      t := ScalarSpelled(f, lib, us[0].kind, x, q);
      behind := q;
    }
  }

  lemma GapSpelled(f: Features, lib: CLibrary, x: string, q: string)
    requires IsSpelled(ArraySeparator, x, q) && f.allowDroppedNullPlaceholders
    ensures Fits(f, lib, Gap, x + q) && ValueOf(lib, Gap) == Leaf(Null) && Spell(Gap) + (x + q) == x + q
  {
    assert (x + q)[0] == ',';
  }

  lemma ScalarSpelled(f: Features, lib: CLibrary, kind: TokenKind, x: string, q: string) returns (t: Text)
    requires Scalar(lib, Lexeme(kind, x)).Some? && (CanEnd(kind) ==> IsSpelled(kind, x, q))
    ensures Fits(f, lib, t, q) && Spell(t) == x && ValueOf(lib, t) == Leaf(Scalar(lib, Lexeme(kind, x)).value)
  {
    hide DecodeNumber, AllNumberLetters, IsInside, Unquote, CharsText, AreChars, SpellString, IsNumeral;
    if kind == NumberToken {
      NumeralSpelled(lib, x, q);
      t := Num(x);
    } else if kind == StringToken {
      var cs := LiteralSpelled(x, Unquote(Inner(x)).text);
      t := Lit(cs);
    } else {
      t := Word(x);
    }
  }

  lemma {:induction false} RecordSpelled(f: Features, lib: CLibrary, x: string, q: string)
    returns (t: Text, behind: string)
    requires IsSpelled(ObjectBegin, x, q) && ReadMembers(f, lib, Texts(q), Nil, "").AcceptEntries?
    ensures x + q == Spell(t) + behind && Fits(f, lib, t, behind) && |behind| <= |x + q|
    ensures var r := ReadMembers(f, lib, Texts(q), Nil, "");
            ValueOf(lib, t) == Leaf(Obj(r.entries)) && Texts(behind) == r.rest
    decreases |q|, 2
  {
    hide Texts, ReadMembers, MembersFit, MembersOf;
    var ms;
    ms, behind := MembersSpelled(f, lib, q, Nil, "");
    t := Record(ms);
    assert "{" + (SpellMembers(ms) + behind) == ("{" + SpellMembers(ms)) + behind;
  }

  lemma {:induction false} ListSpelled(f: Features, lib: CLibrary, x: string, q: string)
    returns (t: Text, behind: string)
    requires IsSpelled(ArrayBegin, x, q) && ReadArray(f, lib, Texts(q)).AcceptEntries?
    ensures x + q == Spell(t) + behind && Fits(f, lib, t, behind) && |behind| <= |x + q|
    ensures var r := ReadArray(f, lib, Texts(q)); ValueOf(lib, t) == Leaf(Arr(r.entries)) && Texts(behind) == r.rest
    decreases |q|, 2
  {
    hide Texts, ReadElements, ItemsFit, ItemsOf, AllWhite;
    var ts := Texts(q);
    if ts != [] && ts[0].kind == ArrayEnd {
      var w, y;
      w, y, behind := Take(q);
      t := EmptyList(w);
      assert "[" + (w + ("]" + behind)) == ("[" + (w + "]")) + behind;
    } else {
      var items;
      items, behind := ItemsSpelled(f, lib, q, Nil, 0);
      t := List(items);
      assert "[" + (SpellItems(items) + behind) == ("[" + SpellItems(items)) + behind;
    }
  }

  /** What `ReadElements` found out about the first element when it accepts */
  lemma ElementsStep(f: Features, lib: CLibrary, ts: seq<Lexeme>, acc: Entries, index: nat)
    requires ReadElements(f, lib, ts, acc, index).AcceptEntries?
    ensures var v := ReadValue(f, lib, ts);
            && v.Accept?
            && var us := DropComments(v.rest);
               && us != [] && (us[0].kind == ArrayEnd || us[0].kind == ArraySeparator)
               && ReadElements(f, lib, ts, acc, index)
                  == if us[0].kind == ArrayEnd then AcceptEntries(Put(acc, Index(index), v.value), us[1..])
                     else ReadElements(f, lib, us[1..], Put(acc, Index(index), v.value), index + 1)
  {
    hide ReadValue, Put, DropComments;
  }

  lemma {:induction false} ItemsSpelled(f: Features, lib: CLibrary, s: string, acc: Entries, index: nat)
    returns (items: Items, behind: string)
    requires ReadElements(f, lib, Texts(s), acc, index).AcceptEntries?
    ensures s == SpellItems(items) + behind && ItemsFit(f, lib, items, behind) && |behind| <= |s|
    ensures var r := ReadElements(f, lib, Texts(s), acc, index);
            ItemsOf(lib, items, acc, index) == r.entries && Texts(behind) == r.rest
    decreases |s|, 1
  {
    hide Texts, ReadValue, ReadElements, Spell, SpellBlanks, AreBlanks, BlanksFit, ValueOf, Put, Fits, DropComments;
    hide IsSpelled;
    ElementsStep(f, lib, Texts(s), acc, index);
    var before, value, b := TextSpelled(f, lib, s);
    var after, r := TakeBlanks(b);
    var x, q := TakeFirst(r);
    SeparatorIs(Texts(r)[0].kind, x, q);
    if x == "]" {
      items, behind := Last(before, value, after), q;
      ItemSpelled(SpellBlanks(before), Spell(value), SpellBlanks(after), "]", behind);
    } else {
      var rest;
      rest, behind := ItemsSpelled(f, lib, q, Put(acc, Index(index), ValueOf(lib, value)), index + 1);
      items := More(before, value, after, rest);
      ItemSpelled(SpellBlanks(before), Spell(value), SpellBlanks(after), "," + SpellItems(rest), behind);
      assert ("," + SpellItems(rest)) + behind == "," + (SpellItems(rest) + behind);
    }
  }

  lemma SeparatorIs(kind: TokenKind, x: string, q: string)
    requires CanEnd(kind) ==> IsSpelled(kind, x, q)
    ensures kind == ArrayEnd ==> x == "]"
    ensures kind == ArraySeparator ==> x == ","
    ensures kind == ObjectEnd ==> x == "}"
    ensures kind == MemberSeparator ==> x == ":"
  {
    hide AllNumberLetters, IsInside, IsStray, IsComment;
  }

  lemma NameSpelled(f: Features, lib: CLibrary, kind: TokenKind, x: string, q: string) returns (name: Naming)
    requires NameText(f, lib, Lexeme(kind, x)).Some? && (CanEnd(kind) ==> IsSpelled(kind, x, q))
    ensures NameFits(f, lib, name) && SpellName(name) == x && (name.NumName? ==> NumberEnds(q))
    ensures NameOf(lib, name) == NameText(f, lib, Lexeme(kind, x)).value
  {
    hide DecodeNumber, AllNumberLetters, IsInside, Unquote, CharsText, AreChars, SpellString, NumberAsString;
    if kind == StringToken {
      var cs := LiteralSpelled(x, Unquote(Inner(x)).text);
      name := LitName(cs);
    } else {
      NumeralSpelled(lib, x, q);
      name := NumName(x);
    }
  }

  /** What `ReadMembers` found out about the first member when it accepts */
  lemma MembersStep(f: Features, lib: CLibrary, ts: seq<Lexeme>, acc: Entries, last: string)
    requires ReadMembers(f, lib, ts, acc, last).AcceptEntries?
    ensures var us := DropComments(ts);
            && us != []
            && (us[0].kind == ObjectEnd && last == "" ==>
                  ReadMembers(f, lib, ts, acc, last) == AcceptEntries(acc, us[1..]))
            && (!(us[0].kind == ObjectEnd && last == "") ==>
                  && NameText(f, lib, us[0]).Some? && |us| >= 2 && us[1].kind == MemberSeparator
                  && var name, v := NameText(f, lib, us[0]).value, ReadValue(f, lib, us[2..]);
                     && v.Accept?
                     && ReadMembers(f, lib, ts, acc, last)
                        == AfterMemberTexts(f, lib, v.rest, Put(acc, MemberKey(name), v.value), name))
  {
    hide ReadValue, Put, DropComments, AfterMemberTexts, NameText;
  }

  /** What was found behind a member */
  lemma AfterStep(f: Features, lib: CLibrary, ts: seq<Lexeme>, entries: Entries, name: string)
    requires AfterMemberTexts(f, lib, ts, entries, name).AcceptEntries?
    ensures var us := DropComments(ts);
            && us != [] && us[0].kind != CommentToken
            && (us[0].kind != ObjectEnd && us[0].kind != ArraySeparator ==> ts[0].kind == CommentToken)
            && AfterMemberTexts(f, lib, ts, entries, name)
               == if us[0].kind == ObjectEnd then AcceptEntries(entries, us[1..])
                  else ReadMembers(f, lib, us[1..], entries, name)
  {
    hide ReadMembers;
    DroppedComments(ts);
    hide DropComments;
  }

  lemma {:induction false} DroppedComments(ts: seq<Lexeme>)
    ensures var us := DropComments(ts); us != [] ==> us[0].kind != CommentToken
    ensures ts != [] && ts[0].kind != CommentToken ==> DropComments(ts) == ts
  {
    if ts != [] && ts[0].kind == CommentToken {
      DroppedComments(ts[1..]);
    }
  }

  /** A name, its colon and its value */
  lemma {:induction false} MemberSplit(f: Features, lib: CLibrary, r: string)
    returns (m: Member, b: string)
    requires r != "" && r[0] !in WHITE
    requires var us := Texts(r);
             && |us| >= 2 && NameText(f, lib, us[0]).Some? && us[1].kind == MemberSeparator
             && ReadValue(f, lib, us[2..]).Accept?
    ensures m.before == [] && m.after == [] && NameFits(f, lib, m.name) && AllWhite(m.space)
    ensures BlanksFit(f, m.afterColon) && Fits(f, lib, m.value, b) && |b| < |r|
    ensures r == SpellName(m.name) + (m.space + (":" + (SpellBlanks(m.afterColon) + (Spell(m.value) + b))))
    ensures var us := Texts(r);
            && NameOf(lib, m.name) == NameText(f, lib, us[0]).value
            && ValueOf(lib, m.value) == ReadValue(f, lib, us[2..]).value && Texts(b) == ReadValue(f, lib, us[2..]).rest
    decreases |r|, 0
  {
    hide Texts, ReadValue, Spell, SpellBlanks, AreBlanks, BlanksFit, ValueOf, Fits, IsSpelled, NameText, NameOf;
    hide NameFits, SpellName, AllWhite;
    var us := Texts(r);
    var x, q := TakeFirst(r);
    assert us[0] == Lexeme(us[0].kind, x);
    NameIsNoError(f, lib, us[0]);
    var name := NameSpelled(f, lib, us[0].kind, x, q);
    assert Texts(q)[0] == us[1] && Texts(q)[1..] == us[2..];
    var w, y, p := Take(q);
    SeparatorIs(us[1].kind, y, p);
    var bs, t;
    bs, t, b := TextSpelled(f, lib, p);
    m := Member([], name, w, bs, t, []);
  }

  lemma NameIsNoError(f: Features, lib: CLibrary, t: Lexeme)
    requires NameText(f, lib, t).Some?
    ensures CanEnd(t.kind)
  {
  }

  lemma MemberWhole(m: Member, before: seq<Blank>, after: seq<Blank>, next: string, r: string)
    requires r == SpellName(m.name) + (m.space + (":" + (SpellBlanks(m.afterColon)
                                       + (Spell(m.value) + (SpellBlanks(after) + next)))))
    ensures SpellBlanks(before) + r == SpellMember(m.(before := before, after := after), next)
  {
  }

  lemma {:induction false} MembersSpelled(f: Features, lib: CLibrary, s: string, acc: Entries, last: string)
    returns (ms: Members, behind: string)
    requires ReadMembers(f, lib, Texts(s), acc, last).AcceptEntries?
    ensures s == SpellMembers(ms) + behind && MembersFit(f, lib, ms, last, behind) && |behind| <= |s|
    ensures var r := ReadMembers(f, lib, Texts(s), acc, last);
            MembersOf(lib, ms, acc) == r.entries && Texts(behind) == r.rest
    decreases |s|, 1
  {
    hide Texts, ReadValue, ReadMembers, AfterMemberTexts, Spell, SpellBlanks, AreBlanks, BlanksFit, ValueOf, Put, Fits;
    hide DropComments, IsSpelled, NameText, NameOf, NameFits, SpellName, AllWhite, SpellMember, IsJoint, NoComments;
    MembersStep(f, lib, Texts(s), acc, last);
    var before, r := TakeBlanks(s);
    var us := Texts(r);
    if us[0].kind == ObjectEnd && last == "" {
      var x;
      x, behind := TakeFirst(r);
      SeparatorIs(us[0].kind, x, behind);
      ms := Close(before);
      Associates(SpellBlanks(before), "}", behind);
    } else {
      var m, b := MemberSplit(f, lib, r);
      var name, v := NameOf(lib, m.name), ValueOf(lib, m.value);
      var entries := Put(acc, MemberKey(name), v);
      AfterStep(f, lib, Texts(b), entries, name);
      var after, d := TakeBlanks(b);
      var x, q := TakeFirst(d);
      var whole := m.(before := before, after := after);
      if Texts(d)[0].kind == ObjectEnd {
        SeparatorIs(ObjectEnd, x, q);
        ms, behind := Only(whole), q;
        MemberWhole(m, before, after, "}" + behind, r);
        MemberSpelled(whole, "}", behind);
      } else {
        assert q != "" by {
          NothingRead(f, lib, entries, name);
        }
        var rest;
        rest, behind := MembersSpelled(f, lib, q, entries, name);
        ms := Further(whole, x, rest);
        JointSpelled(after, Texts(d)[0].kind, x, q);
        MemberWhole(m, before, after, x + (SpellMembers(rest) + behind), r);
        MemberSpelled(whole, x + SpellMembers(rest), behind);
        Associates(x, SpellMembers(rest), behind);
      }
    }
  }

  lemma NothingRead(f: Features, lib: CLibrary, acc: Entries, last: string)
    ensures ReadMembers(f, lib, Texts(""), acc, last) == RejectEntries
  {
    NothingToTake();
    hide Texts;
    assert DropComments([]) == [];
  }

  lemma JointSpelled(after: seq<Blank>, kind: TokenKind, x: string, q: string)
    requires IsSpelled(kind, x, q) && x != "" && x[0] !in WHITE && q != ""
    requires kind != ObjectEnd && kind != CommentToken && (kind != ArraySeparator ==> !NoComments(after))
    ensures IsJoint(after, x, q)
  {
    hide IsSpelled, IsOtherToken, NoComments;
    if kind == ArraySeparator {
      SeparatorIs(kind, x, q);
    } else {
      OtherTokenIff(kind, x, q);
    }
  }

  // ---------------------------------------------------------------- documents

  /** The document is blanks, a value that the reader takes, and a rest that it does not look at. */
  ghost predicate IsSpelling(f: Features, lib: CLibrary, doc: string, bs: seq<Blank>, t: Text, behind: string) {
    && doc == SpellBlanks(bs) + (Spell(t) + behind) && BlanksFit(f, bs) && Fits(f, lib, t, behind)
    && (f.strictRoot ==> t.EmptyList? || t.List? || t.Record?)
  }

  lemma ContainersAre(f: Features, lib: CLibrary, t: Text, behind: string)
    requires Fits(f, lib, t, behind)
    ensures IsContainer(ValueOf(lib, t)) <==> t.EmptyList? || t.List? || t.Record?
  {
    hide ItemsOf, MembersOf, CharsText;
    if t.Num? {
      NumberIsNoContainer(lib, t.digits);
    }
  }

  lemma NumberIsNoContainer(lib: CLibrary, text: string)
    ensures DecodeNumber(lib, text).Some? ==> !DecodeNumber(lib, text).value.Arr? && !DecodeNumber(lib, text).value.Obj?
  {
    hide HasIntegerForm, AllDigits, DecimalValue;
  }

  /** A document is accepted as a tree exactly if it is spelled like one that stands for this tree. */
  lemma AcceptedIff(f: Features, lib: CLibrary, doc: string, prev: Value, v: Value)
    ensures var r := ParseDocument(f, lib, doc, prev);
            r.ok && Erase(r.root) == v <==>
              exists bs, t, behind :: IsSpelling(f, lib, doc, bs, t, behind) && ValueOf(lib, t) == v
  {
    hide ParseDocument, ReadValue, Texts, Spell, Erase, SpellBlanks, BlankTokens, NoComments, Fits, ValueOf, AreBlanks;
    DocumentMatches(f, lib, doc, prev);
    var r := ParseDocument(f, lib, doc, prev);
    if r.ok {
      var bs, t, behind := TextSpelled(f, lib, doc);
      ContainersAre(f, lib, t, behind);
      assert IsSpelling(f, lib, doc, bs, t, behind);
    }
    forall bs, t, behind | IsSpelling(f, lib, doc, bs, t, behind) ensures r.ok && Erase(r.root) == ValueOf(lib, t) {
      SpellingIsRead(f, lib, doc, prev, bs, t, behind);
    }
  }

  lemma SpellingIsRead(f: Features, lib: CLibrary, doc: string, prev: Value, bs: seq<Blank>, t: Text, behind: string)
    requires IsSpelling(f, lib, doc, bs, t, behind)
    ensures var r := ParseDocument(f, lib, doc, prev); r.ok && Erase(r.root) == ValueOf(lib, t)
  {
    hide ParseDocument, ReadValue, Texts, Spell, Erase, SpellBlanks, BlankTokens, NoComments, Fits, ValueOf, AreBlanks;
    TextReads(f, lib, t, behind);
    TextsBlanks(bs, Spell(t) + behind);
    JsonSyntax.BlanksBeforeValue(f, lib, bs, Texts(Spell(t) + behind));
    DocumentMatches(f, lib, doc, prev);
    ContainersAre(f, lib, t, behind);
  }
}
