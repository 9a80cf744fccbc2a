/**
 Why a text is refused, in both directions: a beginning that the reader takes, cut off where a value, a
 name or a separator has to come, and a token there that is none, gives the error for that place at that
 token; and each refused text has such a beginning.
 */
module JsonErrors {
  import opened JsonAccepted
  import opened JsonGrammar
  import opened JsonLexemes
  import opened JsonLexer
  import opened JsonLiterals
  import opened JsonParser
  import opened JsonSpelling
  import JsonSyntax
  import opened JsonTokens
  import opened JsonTool
  import opened JsonValue
  import opened Wrappers

  /** A value that is cut off, at its very beginning or within its elements or members */
  datatype Cut =
    | Here
    | InList(before: seq<Blank>, items: CutItems)
    | InRecord(before: seq<Blank>, members: CutMembers)

  datatype CutItems =
    | AtItem(cut: Cut)
    | BehindItem(before: seq<Blank>, value: Text)
    | NextItem(before: seq<Blank>, value: Text, after: seq<Blank>, rest: CutItems)

  /** A name, a colon and the blanks behind it */
  datatype Lead = Lead(before: seq<Blank>, name: Naming, space: string, afterColon: seq<Blank>)

  /** A gap is what stands between the value of a member and the next member. */
  datatype CutMembers =
    | AtName
    | AtColon(before: seq<Blank>, name: Naming)
    | AtMember(lead: Lead, cut: Cut)
    | BehindMember(lead: Lead, value: Text)
    | NextMember(lead: Lead, value: Text, gap: string, rest: CutMembers)

  /** What has to come where the text is cut off; `last` is the name of the member before a name. */
  datatype Place = AValue | ACommaOrBracket | AName(last: string) | AColon | ACommaOrBrace

  // ---------------------------------------------------------------- the characters

  function SpellCut(c: Cut): string {
    match c
    case Here => ""
    case InList(before, items) => SpellBlanks(before) + ("[" + SpellCutItems(items))
    case InRecord(before, members) => SpellBlanks(before) + ("{" + SpellCutMembers(members))
  }

  function SpellCutItems(items: CutItems): string {
    match items
    case AtItem(cut) => SpellCut(cut)
    case BehindItem(before, value) => SpellBlanks(before) + Spell(value)
    case NextItem(before, value, after, rest) =>
      SpellBlanks(before) + (Spell(value) + (SpellBlanks(after) + ("," + SpellCutItems(rest))))
  }

  function SpellLead(k: Lead, next: string): string {
    SpellBlanks(k.before) + (SpellName(k.name) + (k.space + (":" + (SpellBlanks(k.afterColon) + next))))
  }

  function SpellCutMembers(ms: CutMembers): string {
    match ms
    case AtName => ""
    case AtColon(before, name) => SpellBlanks(before) + SpellName(name)
    case AtMember(lead, cut) => SpellLead(lead, SpellCut(cut))
    case BehindMember(lead, value) => SpellLead(lead, Spell(value))
    case NextMember(lead, value, gap, rest) => SpellLead(lead, Spell(value) + (gap + SpellCutMembers(rest)))
  }

  // ---------------------------------------------------------------- what is taken

  /** The next token; the end of the text is none of the others. */
  function Head(ts: seq<Lexeme>): Lexeme {
    if ts == [] then Lexeme(EndOfStream, "") else ts[0]
  }

  /** A comma after blanks, or behind a comment any token but a closing brace, or the end of the text */
  predicate Joins(gap: string, behind: string) {
    var ts := Texts(gap + behind);
    var us := DropComments(ts);
    && (Head(ts).kind == ArraySeparator || Head(ts).kind == CommentToken)
    && Head(us).kind != ObjectEnd
    && Texts(behind) == if us == [] then [] else us[1..]
  }

  predicate LeadFits(f: Features, lib: CLibrary, k: Lead) {
    AreBlanks(k.before) && NameFits(f, lib, k.name) && AllWhite(k.space) && BlanksFit(f, k.afterColon)
  }

  /** The beginning is taken in front of `behind`. */
  predicate CutFits(f: Features, lib: CLibrary, c: Cut, behind: string)
    decreases c
  {
    match c
    case Here => true
    case InList(before, items) =>
      && BlanksFit(f, before) && CutItemsFit(f, lib, items, behind)
      && Head(Texts(SpellCutItems(items) + behind)).kind != ArrayEnd
    case InRecord(before, members) => BlanksFit(f, before) && CutMembersFit(f, lib, members, "", behind)
  }

  predicate CutItemsFit(f: Features, lib: CLibrary, items: CutItems, behind: string)
    decreases items
  {
    match items
    case AtItem(cut) => CutFits(f, lib, cut, behind)
    case BehindItem(before, value) => BlanksFit(f, before) && Fits(f, lib, value, behind)
    case NextItem(before, value, after, rest) =>
      && BlanksFit(f, before) && AreBlanks(after)
      && Fits(f, lib, value, SpellBlanks(after) + ("," + (SpellCutItems(rest) + behind)))
      && CutItemsFit(f, lib, rest, behind)
  }

  predicate CutMembersFit(f: Features, lib: CLibrary, ms: CutMembers, last: string, behind: string)
    decreases ms
  {
    match ms
    case AtName => true
    case AtColon(before, name) => AreBlanks(before) && NameFits(f, lib, name) && (name.NumName? ==> NumberEnds(behind))
    case AtMember(lead, cut) => LeadFits(f, lib, lead) && lead.afterColon == [] && CutFits(f, lib, cut, behind)
    case BehindMember(lead, value) => LeadFits(f, lib, lead) && Fits(f, lib, value, behind)
    case NextMember(lead, value, gap, rest) =>
      && LeadFits(f, lib, lead)
      && Fits(f, lib, value, gap + (SpellCutMembers(rest) + behind))
      && Joins(gap, SpellCutMembers(rest) + behind)
      && CutMembersFit(f, lib, rest, NameOf(lib, lead.name), behind)
  }

  // ---------------------------------------------------------------- where it stops and why

  function PlaceOf(lib: CLibrary, c: Cut): Place {
    match c
    case Here => AValue
    case InList(_, items) => PlaceOfItems(lib, items)
    case InRecord(_, members) => PlaceOfMembers(lib, members, "")
  }

  function PlaceOfItems(lib: CLibrary, items: CutItems): Place {
    match items
    case AtItem(cut) => PlaceOf(lib, cut)
    case BehindItem(_, _) => ACommaOrBracket
    case NextItem(_, _, _, rest) => PlaceOfItems(lib, rest)
  }

  function PlaceOfMembers(lib: CLibrary, ms: CutMembers, last: string): Place {
    match ms
    case AtName => AName(last)
    case AtColon(_, _) => AColon
    case AtMember(_, cut) => PlaceOf(lib, cut)
    case BehindMember(_, _) => ACommaOrBrace
    case NextMember(lead, _, _, rest) => PlaceOfMembers(lib, rest, NameOf(lib, lead.name))
  }

  /** What is left at a place: comments are passed over except in front of colons and behind members. */
  function Left(f: Features, place: Place, behind: string): seq<Lexeme> {
    var ts := Texts(behind);
    match place
    case AValue => if f.allowComments then DropComments(ts) else ts
    case ACommaOrBracket => DropComments(ts)
    case AName(_) => DropComments(ts)
    case AColon => ts
    case ACommaOrBrace => ts
  }

  /** The error for a token that must not stand at a place, and none for one that may. */
  function Reason(f: Features, lib: CLibrary, place: Place, t: Lexeme): Option<ErrorKind> {
    match place
    case AValue =>
      if t.kind in {ObjectBegin, ArrayBegin, TrueToken, FalseToken, NullToken} then None
      else if t.kind == ArraySeparator && f.allowDroppedNullPlaceholders then None
      else if t.kind == NumberToken then (if DecodeNumber(lib, t.text).Some? then None else Some(NotANumber))
      else if t.kind == StringToken then Unreadable(t.text)
      else Some(ValueExpected)
    case ACommaOrBracket => if t.kind in {ArrayEnd, ArraySeparator} then None else Some(CommaOrBracketExpected)
    case AName(last) =>
      if t.kind == ObjectEnd && last == "" then None
      else if t.kind == StringToken then Unreadable(t.text)
      else if t.kind == NumberToken && f.allowNumericKeys then
        if DecodeNumber(lib, t.text).Some? then None else Some(NotANumber)
      else Some(BraceOrNameExpected)
    case AColon => if t.kind == MemberSeparator then None else Some(ColonExpected)
    case ACommaOrBrace =>
      if t.kind in {ObjectEnd, ArraySeparator, CommentToken} then None else Some(CommaOrBraceExpected)
  }

  function Unreadable(literal: string): Option<ErrorKind> {
    match Unquote(Inner(literal))
    case Text(_) => None
    case Malformed(e) => Some(BadString(e))
  }

  function ReasonAt(f: Features, lib: CLibrary, place: Place, behind: string): Option<ErrorKind> {
    Reason(f, lib, place, Head(Left(f, place, behind)))
  }

  /** One error, of this kind, at the token with which `us` begins, or at the end of the text */
  ghost predicate Reports(doc: string, errors: seq<Error>, kind: Option<ErrorKind>, us: seq<Lexeme>) {
    && |errors| == 1 && Some(errors[0].kind) == kind && errors[0].start <= errors[0].limit <= |doc|
    && if us == [] then errors[0].limit == |doc|
       else doc[errors[0].start..errors[0].limit] == us[0].text && TextsAt(doc, errors[0].start) == us
  }

  // ---------------------------------------------------------------- cut texts are refused

  lemma HeadsReport(doc: string, t: Token, us: seq<Lexeme>, kind: ErrorKind)
    requires t.start <= t.limit <= |doc| && Heads(doc, t, us)
    ensures Head(us).kind == t.kind && Reports(doc, [ErrorAt(kind, t)], Some(kind), us)
  {
    hide TextsAt;
  }

  lemma BlanksBefore(f: Features, bs: seq<Blank>, s: string)
    requires BlanksFit(f, bs)
    ensures ValueTexts(f, Texts(SpellBlanks(bs) + s)) == ValueTexts(f, Texts(s))
  {
    hide Texts, SpellBlanks, BlankTokens, NoComments, DropComments, AreBlanks;
    TextsBlanks(bs, s);
    DropBlanks(bs, Texts(s));
    if NoComments(bs) {
      NoCommentsNoTokens(bs);
      assert [] + Texts(s) == Texts(s);
    }
  }

  /** A complete value at a position, and the tokens behind it */
  lemma ValueParses(f: Features, lib: CLibrary, doc: string, cur: nat, prev: Value, before: seq<Blank>, value: Text,
                    behind: string)
    requires cur <= |doc| && TextsAt(doc, cur) == Texts(SpellBlanks(before) + (Spell(value) + behind))
    requires BlanksFit(f, before) && Fits(f, lib, value, behind)
    ensures var p := ParseValue(f, lib, doc, cur, prev); p.ok && TextsAt(doc, p.cur) == Texts(behind)
  {
    hide Texts, TextsAt, ReadValue, ParseValue, Spell, SpellBlanks, BlankTokens, NoComments, Fits, ValueOf, AreBlanks;
    TextReads(f, lib, value, behind);
    TextsBlanks(before, Spell(value) + behind);
    JsonSyntax.BlanksBeforeValue(f, lib, before, Texts(Spell(value) + behind));
    ValueMatches(f, lib, doc, cur, prev);
  }

  lemma {:induction false} CutFails(f: Features, lib: CLibrary, doc: string, cur: nat, prev: Value, c: Cut,
                                    behind: string)
    requires cur <= |doc| && TextsAt(doc, cur) == Texts(SpellCut(c) + behind)
    requires CutFits(f, lib, c, behind) && ReasonAt(f, lib, PlaceOf(lib, c), behind).Some?
    ensures var p, place := ParseValue(f, lib, doc, cur, prev), PlaceOf(lib, c);
            !p.ok && Reports(doc, p.errors, ReasonAt(f, lib, place, behind), Left(f, place, behind))
    decreases c, 2
  {
    hide Texts, TextsAt, ParseMembers, ParseArray, ParseScalar, ValueToken, DropComments, SpellBlanks, Reason, Reports;
    hide BlanksFit, CutItemsFit, CutMembersFit, SpellCutItems, SpellCutMembers, Heads;
    var t := ValueToken(f, doc, cur);
    ValueTokenHeads(f, doc, cur);
    match c
    case Here =>
      assert "" + behind == behind;
      NoValueFails(f, lib, doc, t, Left(f, AValue, behind), prev);
    case InList(before, items) =>
      var inner := SpellCutItems(items) + behind;
      Associates(SpellBlanks(before), "[" + SpellCutItems(items), behind);
      assert ("[" + SpellCutItems(items)) + behind == "[" + inner;
      BlanksBefore(f, before, "[" + inner);
      OpenHeads(f, doc, t, '[', inner);
      ListFails(f, lib, doc, t.limit, items, behind);
    case InRecord(before, members) =>
      var inner := SpellCutMembers(members) + behind;
      Associates(SpellBlanks(before), "{" + SpellCutMembers(members), behind);
      assert ("{" + SpellCutMembers(members)) + behind == "{" + inner;
      BlanksBefore(f, before, "{" + inner);
      OpenHeads(f, doc, t, '{', inner);
      MembersFail(f, lib, doc, t.limit, Nil, "", members, behind);
  }

  lemma OpenHeads(f: Features, doc: string, t: Token, open: char, inner: string)
    requires open == '[' || open == '{'
    requires t.start <= t.limit <= |doc| && Heads(doc, t, ValueTexts(f, Texts([open] + inner)))
    ensures t.kind == PunctuationKind(open) && TextsAt(doc, t.limit) == Texts(inner)
  {
    hide Texts, TextsAt;
    TextsPunctuation(open, inner);
    var us := Texts([open] + inner);
    assert DropComments(us) == us && us[1..] == Texts(inner);
  }

  lemma NoValueFails(f: Features, lib: CLibrary, doc: string, t: Token, us: seq<Lexeme>, prev: Value)
    requires t.start <= t.limit <= |doc| && Heads(doc, t, us)
    requires t.kind == StringToken ==> t.start + 2 <= t.limit
    requires t.kind == ArraySeparator ==> t.start + 1 == t.limit
    requires Reason(f, lib, AValue, Head(us)).Some?
    ensures t.kind != ObjectBegin && t.kind != ArrayBegin
    ensures var p := ParseScalar(f, lib, doc, t, prev);
            !p.ok && Reports(doc, p.errors, Reason(f, lib, AValue, Head(us)), us)
  {
    hide DecodeNumber, Unquote, TextsAt, Reports;
    var kind := Reason(f, lib, AValue, Head(us)).value;
    HeadsReport(doc, t, us, kind);
    if t.kind == StringToken {
      BodyIsInner(doc, t);
    }
  }

  lemma {:induction false} ListFails(f: Features, lib: CLibrary, doc: string, cur: nat, items: CutItems, behind: string)
    requires cur <= |doc| && TextsAt(doc, cur) == Texts(SpellCutItems(items) + behind)
    requires Head(TextsAt(doc, cur)).kind != ArrayEnd
    requires CutItemsFit(f, lib, items, behind) && ReasonAt(f, lib, PlaceOfItems(lib, items), behind).Some?
    ensures var p, place := ParseArray(f, lib, doc, cur), PlaceOfItems(lib, items);
            !p.ok && Reports(doc, p.errors, ReasonAt(f, lib, place, behind), Left(f, place, behind))
    decreases items, 2
  {
    hide Texts, TextsAt, ParseElements, Next, SpaceLen, CutItemsFit, SpellCutItems, Reports, ReasonAt, Left;
    FirstBracket(doc, cur);
    TextsTrimmed(doc, cur);
    NextHeads(doc, cur);
    ItemsFail(f, lib, doc, cur + SpaceLen(doc[cur..]), Nil, 0, items, behind);
  }

  lemma {:induction false} ItemsFail(f: Features, lib: CLibrary, doc: string, cur: nat, entries: Entries, index: nat,
                                     items: CutItems, behind: string)
    requires cur <= |doc| && TextsAt(doc, cur) == Texts(SpellCutItems(items) + behind)
    requires CutItemsFit(f, lib, items, behind) && ReasonAt(f, lib, PlaceOfItems(lib, items), behind).Some?
    ensures var p, place := ParseElements(f, lib, doc, cur, entries, index), PlaceOfItems(lib, items);
            !p.ok && Reports(doc, p.errors, ReasonAt(f, lib, place, behind), Left(f, place, behind))
    decreases items, 1
  {
    hide Texts, TextsAt, ParseValue, Put, Lookup, NonComment, DropComments, Recover, SpellBlanks, Spell, Reports, Heads;
    hide BlanksFit, Fits, AreBlanks, CutFits;
    var prev := Lookup(entries, Index(index));
    var v := ParseValue(f, lib, doc, cur, prev);
    var t := NonComment(doc, v.cur);
    NonCommentHeads(doc, v.cur);
    match items
    case AtItem(cut) => CutFails(f, lib, doc, cur, prev, cut, behind);
    case BehindItem(before, value) =>
      Associates(SpellBlanks(before), Spell(value), behind);
      ValueParses(f, lib, doc, cur, prev, before, value, behind);
      HeadsReport(doc, t, Left(f, ACommaOrBracket, behind), CommaOrBracketExpected);
    case NextItem(before, value, after, rest) =>
      var more := SpellCutItems(rest) + behind;
      ItemSpelled(SpellBlanks(before), Spell(value), SpellBlanks(after), "," + SpellCutItems(rest), behind);
      assert ("," + SpellCutItems(rest)) + behind == "," + more;
      ValueParses(f, lib, doc, cur, prev, before, value, SpellBlanks(after) + ("," + more));
      CommaHeads(doc, t, after, more);
      ItemsFail(f, lib, doc, t.limit, Put(entries, Index(index), v.value), index + 1, rest, behind);
  }

  lemma CommaHeads(doc: string, t: Token, after: seq<Blank>, more: string)
    requires t.start <= t.limit <= |doc| && AreBlanks(after)
    requires Heads(doc, t, DropComments(Texts(SpellBlanks(after) + ("," + more))))
    ensures t.kind == ArraySeparator && TextsAt(doc, t.limit) == Texts(more)
  {
    hide Texts, TextsAt, SpellBlanks, BlankTokens, AreBlanks;
    TextsBlanks(after, "," + more);
    DropBlanks(after, Texts("," + more));
    TextsPunctuation(',', more);
    var us := Texts("," + more);
    assert DropComments(us) == us && us[1..] == Texts(more);
  }

  /** The tokens of a name behind blanks */
  lemma NameHeads(f: Features, lib: CLibrary, before: seq<Blank>, name: Naming, s: string)
    requires AreBlanks(before) && NameFits(f, lib, name) && (name.NumName? ==> NumberEnds(s))
    ensures DropComments(Texts(SpellBlanks(before) + (SpellName(name) + s))) == [NameLexeme(name)] + Texts(s)
    ensures NameText(f, lib, NameLexeme(name)) == Some(NameOf(lib, name))
    ensures NameLexeme(name).kind == StringToken || NameLexeme(name).kind == NumberToken
  {
    hide Texts, SpellBlanks, BlankTokens, AreBlanks, SpellName, NameFits, NameText, NameOf;
    TextsBlanks(before, SpellName(name) + s);
    NameReads(f, lib, name, s);
    DropBlanks(before, Texts(SpellName(name) + s));
    var us := [NameLexeme(name)] + Texts(s);
    assert DropComments(us) == us;
  }

  /** A name, and what the token behind it is */
  lemma NamedAt(f: Features, lib: CLibrary, doc: string, cur: nat, entries: Entries, last: string,
                before: seq<Blank>, name: Naming, s: string)
    requires cur <= |doc| && TextsAt(doc, cur) == Texts(SpellBlanks(before) + (SpellName(name) + s))
    requires AreBlanks(before) && NameFits(f, lib, name) && (name.NumName? ==> NumberEnds(s))
    ensures var t := NonComment(doc, cur);
            && TextsAt(doc, t.limit) == Texts(s)
            && var colon := Next(doc, t.limit);
               StartMember(f, lib, doc, cur, entries, last)
               == if colon.kind == MemberSeparator then ValueAt(colon.limit, NameOf(lib, name))
                  else NoMember(FailAndRecover(doc, ColonExpected, colon, entries, ObjectEnd))
  {
    hide Texts, TextsAt, NonComment, Next, DropComments, ReadName, NameText, Recover, SpellBlanks, SpellName, AreBlanks;
    hide NameFits, NameOf;
    NonCommentHeads(doc, cur);
    NameHeads(f, lib, before, name, s);
    var t := NonComment(doc, cur);
    NameMatches(f, lib, doc, t);
    assert ([NameLexeme(name)] + Texts(s))[1..] == Texts(s);
  }

  lemma LeadSpelled(k: Lead, next: string, behind: string)
    ensures SpellLead(k, next) + behind == SpellLead(k, next + behind)
  {
    hide SpellBlanks, SpellName;
    JsonSyntax.GroupItem(SpellBlanks(k.before), SpellName(k.name), k.space, ":", SpellBlanks(k.afterColon) + next,
                         behind);
    Associates(SpellBlanks(k.afterColon), next, behind);
  }

  /** A name and its colon lead to the value. */
  lemma LeadParses(f: Features, lib: CLibrary, doc: string, cur: nat, entries: Entries, last: string, k: Lead,
                   s: string)
    requires cur <= |doc| && TextsAt(doc, cur) == Texts(SpellLead(k, s)) && LeadFits(f, lib, k)
    ensures var m := StartMember(f, lib, doc, cur, entries, last);
            && m.ValueAt? && m.name == NameOf(lib, k.name)
            && TextsAt(doc, m.cur) == Texts(SpellBlanks(k.afterColon) + s) && BlanksFit(f, k.afterColon)
  {
    hide Texts, TextsAt, NonComment, Next, StartMember, SpellBlanks, SpellName, AreBlanks, NameFits, NameOf, AllWhite;
    hide BlanksFit, NumberEnds, Recover;
    var value := SpellBlanks(k.afterColon) + s;
    WhiteTexts(k.space, ":" + value);
    TextsPunctuation(':', value);
    ColonEndsNumber(value);
    SpaceEndsNumber(k.space, ":" + value);
    NamedAt(f, lib, doc, cur, entries, last, k.before, k.name, k.space + (":" + value));
    var t := NonComment(doc, cur);
    NextHeads(doc, t.limit);
    assert Texts(":" + value)[1..] == Texts(value);
  }

  lemma {:induction false} MembersFail(f: Features, lib: CLibrary, doc: string, cur: nat, entries: Entries,
                                       last: string, ms: CutMembers, behind: string)
    requires cur <= |doc| && TextsAt(doc, cur) == Texts(SpellCutMembers(ms) + behind)
    requires CutMembersFit(f, lib, ms, last, behind) && ReasonAt(f, lib, PlaceOfMembers(lib, ms, last), behind).Some?
    ensures var p, place := ParseMembers(f, lib, doc, cur, entries, last), PlaceOfMembers(lib, ms, last);
            !p.ok && Reports(doc, p.errors, ReasonAt(f, lib, place, behind), Left(f, place, behind))
    decreases ms, 1
  {
    hide Texts, TextsAt, ParseValue, Put, Lookup, NonComment, Next, DropComments, SpellBlanks, Spell, Reports;
    hide SpellLead;
    hide BlanksFit, Fits, AreBlanks, CutFits, LeadFits, StartMember, AfterMember, NameOf, NameFits, SpellName, Joins;
    match ms
    case AtName =>
      assert "" + behind == behind;
      NoNameFails(f, lib, doc, cur, entries, last, behind);
    case AtColon(before, name) =>
      Associates(SpellBlanks(before), SpellName(name), behind);
      NamedAt(f, lib, doc, cur, entries, last, before, name, behind);
      var t := NonComment(doc, cur);
      NextHeads(doc, t.limit);
      HeadsReport(doc, Next(doc, t.limit), Texts(behind), ColonExpected);
    case AtMember(lead, cut) =>
      LeadSpelled(lead, SpellCut(cut), behind);
      LeadParses(f, lib, doc, cur, entries, last, lead, SpellCut(cut) + behind);
      var m := StartMember(f, lib, doc, cur, entries, last);
      var prev := Lookup(entries, MemberKey(m.name));
      NoBlanks(SpellCut(cut) + behind);
      CutFails(f, lib, doc, m.cur, prev, cut, behind);
      var v := ParseValue(f, lib, doc, m.cur, prev);
      FailedValue(doc, v, Put(entries, MemberKey(m.name), v.value));
    case BehindMember(lead, value) =>
      LeadSpelled(lead, Spell(value), behind);
      LeadParses(f, lib, doc, cur, entries, last, lead, Spell(value) + behind);
      var m := StartMember(f, lib, doc, cur, entries, last);
      var prev := Lookup(entries, MemberKey(m.name));
      ValueParses(f, lib, doc, m.cur, prev, lead.afterColon, value, behind);
      var v := ParseValue(f, lib, doc, m.cur, prev);
      NoCommaFails(doc, f, lib, v, Put(entries, MemberKey(m.name), v.value), behind);
    case NextMember(lead, value, gap, rest) =>
      var more := SpellCutMembers(rest) + behind;
      LeadSpelled(lead, Spell(value) + (gap + SpellCutMembers(rest)), behind);
      Associates(Spell(value), gap + SpellCutMembers(rest), behind);
      Associates(gap, SpellCutMembers(rest), behind);
      LeadParses(f, lib, doc, cur, entries, last, lead, Spell(value) + (gap + more));
      var m := StartMember(f, lib, doc, cur, entries, last);
      var prev := Lookup(entries, MemberKey(m.name));
      ValueParses(f, lib, doc, m.cur, prev, lead.afterColon, value, gap + more);
      var v := ParseValue(f, lib, doc, m.cur, prev);
      var entries' := Put(entries, MemberKey(m.name), v.value);
      var next := GapPassed(doc, v, entries', gap, more);
      MembersFail(f, lib, doc, next, entries', m.name, rest, behind);
  }

  lemma FailedValue(doc: string, v: Parsed, entries: Entries)
    requires v.cur <= |doc| && !v.ok && |v.errors| == 1
    ensures var step := AfterMember(doc, v, entries); step.Stop? && !step.filled.ok && step.filled.errors == v.errors
  {
    hide Recover;
  }

  lemma NoBlanks(s: string)
    ensures SpellBlanks([]) + s == s && AreBlanks([]) && NoComments([])
  {
  }

  lemma NoNameFails(f: Features, lib: CLibrary, doc: string, cur: nat, entries: Entries, last: string, behind: string)
    requires cur <= |doc| && TextsAt(doc, cur) == Texts(behind) && ReasonAt(f, lib, AName(last), behind).Some?
    ensures var m := StartMember(f, lib, doc, cur, entries, last);
            && m.NoMember? && !m.filled.ok
            && Reports(doc, m.filled.errors, ReasonAt(f, lib, AName(last), behind), Left(f, AName(last), behind))
  {
    hide Texts, TextsAt, NonComment, DropComments, DecodeNumber, Unquote, Recover, Reports;
    var t := NonComment(doc, cur);
    var us := Left(f, AName(last), behind);
    NonCommentHeads(doc, cur);
    HeadsReport(doc, t, us, ReasonAt(f, lib, AName(last), behind).value);
    if t.kind == StringToken {
      BodyIsInner(doc, t);
    }
  }

  lemma NoCommaFails(doc: string, f: Features, lib: CLibrary, v: Parsed, entries: Entries, behind: string)
    requires v.cur <= |doc| && v.ok && v.errors == [] && TextsAt(doc, v.cur) == Texts(behind)
    requires ReasonAt(f, lib, ACommaOrBrace, behind).Some?
    ensures var step := AfterMember(doc, v, entries);
            && step.Stop? && !step.filled.ok
            && Reports(doc, step.filled.errors, ReasonAt(f, lib, ACommaOrBrace, behind), Left(f, ACommaOrBrace, behind))
  {
    hide Texts, TextsAt, Next, NonComment, Recover, Reports;
    NextHeads(doc, v.cur);
    HeadsReport(doc, Next(doc, v.cur), Texts(behind), CommaOrBraceExpected);
  }

  lemma GapPassed(doc: string, v: Parsed, entries: Entries, gap: string, more: string) returns (next: nat)
    requires v.cur <= |doc| && v.ok && v.errors == [] && TextsAt(doc, v.cur) == Texts(gap + more) && Joins(gap, more)
    ensures next <= |doc| && AfterMember(doc, v, entries) == Continue(next, entries)
            && TextsAt(doc, next) == Texts(more)
  {
    hide Texts, TextsAt, Next, NonComment, Recover, DropComments;
    NextHeads(doc, v.cur);
    NonCommentHeads(doc, v.cur);
    NoTextsAtEnd(doc);
    next := NonComment(doc, v.cur).limit;
  }

  // ---------------------------------------------------------------- refused texts are cut

  /** Any text that is no value is cut off somewhere. */
  lemma {:induction false} ValueCut(f: Features, lib: CLibrary, s: string) returns (c: Cut, behind: string)
    requires ReadValue(f, lib, Texts(s)).Reject?
    ensures s == SpellCut(c) + behind && CutFits(f, lib, c, behind) && ReasonAt(f, lib, PlaceOf(lib, c), behind).Some?
    decreases |s|, 0
  {
    hide Texts, ReadMembers, ReadElements, DropComments, AreBlanks, SpellBlanks, NoComments, IsSpelled, DecodeNumber;
    hide Unquote, CutItemsFit, CutMembersFit, SpellCutItems, SpellCutMembers;
    var us := ValueTexts(f, Texts(s));
    if us == [] || (us[0].kind != ObjectBegin && us[0].kind != ArrayBegin) {
      c, behind := Here, s;
      assert "" + s == s;
    } else {
      var before, r := ValueBlanks(f, s);
      var x, q := TakeFirst(r);
      OpenIs(us[0].kind, x, q);
      if us[0].kind == ObjectBegin {
        var members;
        members, behind := MembersCut(f, lib, q, Nil, "");
        c := InRecord(before, members);
        Associates("{", SpellCutMembers(members), behind);
        Associates(SpellBlanks(before), "{" + SpellCutMembers(members), behind);
      } else {
        var items;
        items, behind := ItemsCut(f, lib, q, Nil, 0);
        c := InList(before, items);
        Associates("[", SpellCutItems(items), behind);
        Associates(SpellBlanks(before), "[" + SpellCutItems(items), behind);
      }
    }
  }

  lemma OpenIs(kind: TokenKind, x: string, q: string)
    requires CanEnd(kind) ==> IsSpelled(kind, x, q)
    ensures kind == ObjectBegin ==> x == "{"
    ensures kind == ArrayBegin ==> x == "["
  {
    hide AllNumberLetters, IsInside, IsStray, IsComment;
  }

  lemma {:induction false} ItemsCut(f: Features, lib: CLibrary, s: string, acc: Entries, index: nat)
    returns (items: CutItems, behind: string)
    requires ReadElements(f, lib, Texts(s), acc, index).RejectEntries?
    ensures s == SpellCutItems(items) + behind && CutItemsFit(f, lib, items, behind)
    ensures ReasonAt(f, lib, PlaceOfItems(lib, items), behind).Some?
    decreases |s|, 1
  {
    hide Texts, ReadValue, Spell, SpellBlanks, AreBlanks, BlanksFit, ValueOf, Put, Fits, DropComments, IsSpelled;
    hide CutFits, SpellCut;
    if ReadValue(f, lib, Texts(s)).Reject? {
      var cut;
      cut, behind := ValueCut(f, lib, s);
      items := AtItem(cut);
    } else {
      var before, value, b := TextSpelled(f, lib, s);
      var us := DropComments(Texts(b));
      if Head(us).kind !in {ArrayEnd, ArraySeparator} {
        items, behind := BehindItem(before, value), b;
        Associates(SpellBlanks(before), Spell(value), b);
      } else {
        var after, r := TakeBlanks(b);
        var x, q := TakeFirst(r);
        SeparatorIs(us[0].kind, x, q);
        var rest;
        rest, behind := ItemsCut(f, lib, q, Put(acc, Index(index), ValueOf(lib, value)), index + 1);
        items := NextItem(before, value, after, rest);
        ItemSpelled(SpellBlanks(before), Spell(value), SpellBlanks(after), "," + SpellCutItems(rest), behind);
        Associates(",", SpellCutItems(rest), behind);
      }
    }
  }

  lemma NoNameHere(f: Features, lib: CLibrary, us: seq<Lexeme>, last: string)
    requires us == [] || NameText(f, lib, us[0]).None?
    requires us != [] ==> !(us[0].kind == ObjectEnd && last == "")
    ensures Reason(f, lib, AName(last), Head(us)).Some?
  {
    hide DecodeNumber, Unquote;
  }

  lemma EndIsNoName(f: Features, lib: CLibrary, last: string)
    ensures Texts("") == [] && ReasonAt(f, lib, AName(last), "").Some?
  {
    NothingToTake();
    hide Texts, DecodeNumber, Unquote;
    assert DropComments([]) == [];
  }

  lemma NamedRejected(f: Features, lib: CLibrary, ts: seq<Lexeme>, acc: Entries, last: string)
    requires DropComments(ts) != [] && NameText(f, lib, DropComments(ts)[0]).Some?
    ensures var us := DropComments(ts);
            ReadMembers(f, lib, ts, acc, last) == BehindName(f, lib, us[1..], acc, NameText(f, lib, us[0]).value)
  {
    hide ReadValue, AfterMemberTexts, Put, NameText, DropComments;
    var us := DropComments(ts);
    NameKinds(f, lib, us[0]);
    if |us| >= 2 {
      assert us[1..][1..] == us[2..];
    }
  }

  lemma NameKinds(f: Features, lib: CLibrary, t: Lexeme)
    requires NameText(f, lib, t).Some?
    ensures t.kind == StringToken || t.kind == NumberToken
  {
  }

  lemma LeadIs(lead: Lead, next: string)
    ensures SpellLead(lead, next)
         == SpellBlanks(lead.before)
             + (SpellName(lead.name) + (lead.space + (":" + (SpellBlanks(lead.afterColon) + next))))
  {
  }

  lemma LeadWhole(lead: Lead, next: string, behind: string, p: string)
    requires lead.afterColon == [] && p == next + behind
    ensures SpellBlanks(lead.before) + (SpellName(lead.name) + (lead.space + (":" + p)))
            == SpellLead(lead, next) + behind
  {
    hide SpellName;
    LeadSpelled(lead, next, behind);
    NoBlanks(p);
  }

  lemma GapSpelled(lead: Lead, value: string, gap: string, rest: string, behind: string)
    ensures SpellLead(lead, value + (gap + rest)) + behind == SpellLead(lead, value + (gap + (rest + behind)))
  {
    LeadSpelled(lead, value + (gap + rest), behind);
    hide SpellLead;
    Associates(value, gap + rest, behind);
    Associates(gap, rest, behind);
  }

  /** What the reference parser does behind a name */
  function BehindName(f: Features, lib: CLibrary, ts: seq<Lexeme>, acc: Entries, name: string): Entering {
    if Head(ts).kind != MemberSeparator || ts == [] then RejectEntries
    else
      match ReadValue(f, lib, ts[1..])
      case Reject => RejectEntries
      case Accept(v, rest) => AfterMemberTexts(f, lib, rest, Put(acc, MemberKey(name), v), name)
  }

  lemma {:induction false} MembersCut(f: Features, lib: CLibrary, s: string, acc: Entries, last: string)
    returns (ms: CutMembers, behind: string)
    requires ReadMembers(f, lib, Texts(s), acc, last).RejectEntries?
    ensures s == SpellCutMembers(ms) + behind && CutMembersFit(f, lib, ms, last, behind)
    ensures ReasonAt(f, lib, PlaceOfMembers(lib, ms, last), behind).Some?
    decreases |s|, 1
  {
    hide Texts, ReadValue, AfterMemberTexts, SpellBlanks, AreBlanks, Put, DropComments, IsSpelled, NameText, NameOf;
    hide NameFits, SpellName, NoComments, DecodeNumber, Unquote, BehindName;
    var us := DropComments(Texts(s));
    if us == [] || NameText(f, lib, us[0]).None? {
      ms, behind := AtName, s;
      assert "" + s == s;
      NoNameHere(f, lib, us, last);
    } else {
      var before, r := TakeBlanks(s);
      var x, q := TakeFirst(r);
      NameIsNoError(f, lib, us[0]);
      assert us[0] == Lexeme(us[0].kind, x);
      var name := NameSpelled(f, lib, us[0].kind, x, q);
      NamedRejected(f, lib, Texts(s), acc, last);
      ms, behind := BehindNameCut(f, lib, before, name, q, acc, last);
    }
  }

  /** What is wrong behind a name */
  lemma {:induction false} BehindNameCut(f: Features, lib: CLibrary, before: seq<Blank>, name: Naming, q: string,
                                         acc: Entries, last: string)
    returns (ms: CutMembers, behind: string)
    requires AreBlanks(before) && NameFits(f, lib, name) && (name.NumName? ==> NumberEnds(q))
    requires BehindName(f, lib, Texts(q), acc, NameOf(lib, name)).RejectEntries?
    ensures SpellBlanks(before) + (SpellName(name) + q) == SpellCutMembers(ms) + behind
    ensures CutMembersFit(f, lib, ms, last, behind)
    ensures ReasonAt(f, lib, PlaceOfMembers(lib, ms, last), behind).Some?
    decreases |q|, 2
  {
    hide Texts, ReadValue, AfterMemberTexts, SpellBlanks, AreBlanks, Put, DropComments, IsSpelled, NameOf, NameFits;
    hide SpellName, AllWhite, SpellLead, NoComments, Spell, Fits, BlanksFit, ValueOf, SpellCut, CutFits;
    if Head(Texts(q)).kind != MemberSeparator {
      ms, behind := AtColon(before, name), q;
      Associates(SpellBlanks(before), SpellName(name), q);
    } else {
      var w, y, p := Take(q);
      SeparatorIs(Texts(q)[0].kind, y, p);
      if ReadValue(f, lib, Texts(p)).Reject? {
        var cut;
        cut, behind := ValueCut(f, lib, p);
        ms := AtMember(Lead(before, name, w, []), cut);
        NoBlanksFit(f);
        LeadWhole(Lead(before, name, w, []), SpellCut(cut), behind, p);
      } else {
        var bs, t, b := TextSpelled(f, lib, p);
        ms, behind := AfterValueCut(f, lib, Lead(before, name, w, bs), t, b,
                                    Put(acc, MemberKey(NameOf(lib, name)), ReadValue(f, lib, Texts(p)).value), last);
        LeadIs(Lead(before, name, w, bs), Spell(t) + b);
      }
    }
  }

  lemma NoBlanksFit(f: Features)
    ensures BlanksFit(f, [])
  {
    NoBlanks("");
  }

  /** What is wrong behind the value of a member */
  lemma {:induction false} AfterValueCut(f: Features, lib: CLibrary, lead: Lead, value: Text, b: string,
                                         acc: Entries, last: string)
    returns (ms: CutMembers, behind: string)
    requires LeadFits(f, lib, lead) && Fits(f, lib, value, b)
    requires AfterMemberTexts(f, lib, Texts(b), acc, NameOf(lib, lead.name)).RejectEntries?
    ensures SpellLead(lead, Spell(value) + b) == SpellCutMembers(ms) + behind
    ensures CutMembersFit(f, lib, ms, last, behind)
    ensures ReasonAt(f, lib, PlaceOfMembers(lib, ms, last), behind).Some?
    decreases |b|, 2
  {
    hide Texts, ReadMembers, AreBlanks, DropComments, IsSpelled, NameOf, SpellLead, LeadFits, Fits, Spell;
    var ts := Texts(b);
    var us := DropComments(ts);
    DroppedComments(ts);
    if Head(ts).kind !in {ObjectEnd, ArraySeparator, CommentToken} {
      ms, behind := BehindMember(lead, value), b;
      LeadSpelled(lead, Spell(value), b);
    } else {
      var rest, gap;
      if us == [] {
        gap, rest, behind := b, AtName, "";
        assert b + "" == b && "" + "" == "";
        EndIsNoName(f, lib, NameOf(lib, lead.name));
        assert Joins(gap, "");
      } else {
        var after, d := TakeBlanks(b);
        var x, q := TakeFirst(d);
        rest, behind := MembersCut(f, lib, q, acc, NameOf(lib, lead.name));
        gap := SpellBlanks(after) + x;
        Associates(SpellBlanks(after), x, q);
        assert Joins(gap, q);
      }
      ms := NextMember(lead, value, gap, rest);
      GapSpelled(lead, Spell(value), gap, SpellCutMembers(rest), behind);
    }
  }

  // ---------------------------------------------------------------- documents

  /** The document is a beginning that is taken, cut off at a token that must not stand there, and a rest. */
  ghost predicate IsCut(f: Features, lib: CLibrary, doc: string, c: Cut, behind: string) {
    doc == SpellCut(c) + behind && CutFits(f, lib, c, behind)
  }

  /**
   The first error of a document is of a kind exactly if the document is cut off where this is the reason.
   The last one says that the root is no container, exactly if it has to be one and is not.
   */
  lemma FirstErrorIff(f: Features, lib: CLibrary, doc: string, prev: Value, kind: ErrorKind)
    ensures var r := ParseDocument(f, lib, doc, prev);
            && (kind != ContainerExpected ==>
                  (r.errors != [] && r.errors[0].kind == kind <==>
                     exists c, behind ::
                       IsCut(f, lib, doc, c, behind) && ReasonAt(f, lib, PlaceOf(lib, c), behind) == Some(kind)))
            && (r.errors != [] && r.errors[|r.errors| - 1] == Error(ContainerExpected, 0, |doc|) <==>
                  f.strictRoot && !IsContainer(r.root))
  {
    hide ReadValue, ParseValue, Texts, SpellCut, CutFits, PlaceOf, ReasonAt;
    var r := ParseDocument(f, lib, doc, prev);
    var v := ParseValue(f, lib, doc, 0, prev);
    assert doc[0..] == doc;
    ValueMatches(f, lib, doc, 0, prev);
    NotTheRoot(f, lib);
    if !v.ok {
      var c, behind := ValueCut(f, lib, doc);
      assert IsCut(f, lib, doc, c, behind);
      CutIsReported(f, lib, doc, prev, c, behind);
    }
    forall c, behind | IsCut(f, lib, doc, c, behind) && ReasonAt(f, lib, PlaceOf(lib, c), behind) == Some(kind)
      ensures r.errors != [] && r.errors[0].kind == kind
    {
      CutIsReported(f, lib, doc, prev, c, behind);
    }
  }

  lemma NotTheRoot(f: Features, lib: CLibrary)
    ensures forall place, behind :: ReasonAt(f, lib, place, behind) != Some(ContainerExpected)
  {
    hide Texts, Left, DecodeNumber, Unquote;
  }

  /** The error is at the token that must not stand there. */
  lemma CutIsReported(f: Features, lib: CLibrary, doc: string, prev: Value, c: Cut, behind: string)
    requires IsCut(f, lib, doc, c, behind) && ReasonAt(f, lib, PlaceOf(lib, c), behind).Some?
    ensures var r, place := ParseDocument(f, lib, doc, prev), PlaceOf(lib, c);
            && !r.ok && r.errors != []
            && Reports(doc, r.errors[..1], ReasonAt(f, lib, place, behind), Left(f, place, behind))
  {
    hide ParseValue, Texts, SpellCut, CutFits, PlaceOf, ReasonAt, Left;
    assert doc[0..] == doc;
    CutFails(f, lib, doc, 0, prev, c, behind);
    var v := ParseValue(f, lib, doc, 0, prev);
    assert v.errors[..1] == v.errors;
    assert (v.errors + [Error(ContainerExpected, 0, |doc|)])[..1] == v.errors;
  }
}
