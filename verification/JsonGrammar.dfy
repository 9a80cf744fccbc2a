/**
 A reference parser over token texts: no positions, no errors, no recovery. The reader is
 proved to accept exactly what this parser accepts and to build the same tree.
 */
module JsonGrammar {
  import opened JsonLexer
  import opened JsonParser
  import opened JsonTool
  import opened JsonValue
  import opened Wrappers

  datatype Reading = Reject | Accept(value: Value, rest: seq<Lexeme>)

  datatype Entering = RejectEntries | AcceptEntries(entries: Entries, rest: seq<Lexeme>)

  function DropComments(ts: seq<Lexeme>): (r: seq<Lexeme>)
    ensures |r| <= |ts|
  {
    if ts != [] && ts[0].kind == CommentToken then DropComments(ts[1..]) else ts
  }

  /** The tokens that are left when a value is wanted. */
  function ValueTexts(f: Features, ts: seq<Lexeme>): (r: seq<Lexeme>)
    ensures |r| <= |ts|
  {
    if f.allowComments then DropComments(ts) else ts
  }

  function Inner(text: string): string {
    if |text| < 2 then "" else text[1..|text| - 1]
  }

  function Scalar(lib: CLibrary, t: Lexeme): Option<Data> {
    if t.kind == NumberToken then DecodeNumber(lib, t.text)
    else if t.kind == StringToken then UnquotedData(Unquote(Inner(t.text)))
    else if t.kind == TrueToken then Some(Bool(true))
    else if t.kind == FalseToken then Some(Bool(false))
    else if t.kind == NullToken then Some(Null)
    else None
  }

  function NameText(f: Features, lib: CLibrary, t: Lexeme): Option<string> {
    if t.kind == StringToken then
      match Unquote(Inner(t.text))
      case Text(s) => Some(s)
      case Malformed(_) => None
    else if t.kind == NumberToken && f.allowNumericKeys then
      match DecodeNumber(lib, t.text)
      case Some(d) => Some(NumberAsString(lib, d))
      case None => None
    else None
  }

  function Leaf(d: Data): Value {
    Value(d, 0, 0)
  }

  function ReadValue(f: Features, lib: CLibrary, ts: seq<Lexeme>): (r: Reading)
    ensures r.Accept? ==> |r.rest| <= |ts|
    decreases |ts|, 0
  {
    var us := ValueTexts(f, ts);
    if us == [] then Reject
    else if us[0].kind == ObjectBegin then
      match ReadMembers(f, lib, us[1..], Nil, "")
      case RejectEntries => Reject
      case AcceptEntries(es, rest) => Accept(Leaf(Obj(es)), rest)
    else if us[0].kind == ArrayBegin then
      match ReadArray(f, lib, us[1..])
      case RejectEntries => Reject
      case AcceptEntries(es, rest) => Accept(Leaf(Arr(es)), rest)
    else if us[0].kind == ArraySeparator && f.allowDroppedNullPlaceholders then Accept(Leaf(Null), us)
    else
      match Scalar(lib, us[0])
      case Some(d) => Accept(Leaf(d), us[1..])
      case None => Reject
  }

  function ReadArray(f: Features, lib: CLibrary, ts: seq<Lexeme>): (r: Entering)
    ensures r.AcceptEntries? ==> |r.rest| <= |ts|
    decreases |ts|, 2
  {
    if ts != [] && ts[0].kind == ArrayEnd then AcceptEntries(Nil, ts[1..])
    else ReadElements(f, lib, ts, Nil, 0)
  }

  function ReadElements(f: Features, lib: CLibrary, ts: seq<Lexeme>, entries: Entries, index: nat): (r: Entering)
    ensures r.AcceptEntries? ==> |r.rest| <= |ts|
    decreases |ts|, 1
  {
    match ReadValue(f, lib, ts)
    case Reject => RejectEntries
    case Accept(v, rest) =>
      var us := DropComments(rest);
      var entries' := Put(entries, Index(index), v);
      if us == [] then RejectEntries
      else if us[0].kind == ArrayEnd then AcceptEntries(entries', us[1..])
      else if us[0].kind == ArraySeparator then ReadElements(f, lib, us[1..], entries', index + 1)
      else RejectEntries
  }

  function ReadMembers(f: Features, lib: CLibrary, ts: seq<Lexeme>, entries: Entries, last: string): (r: Entering)
    ensures r.AcceptEntries? ==> |r.rest| <= |ts|
    decreases |ts|, 1
  {
    var us := DropComments(ts);
    if us == [] then RejectEntries
    else if us[0].kind == ObjectEnd && last == "" then AcceptEntries(entries, us[1..])
    else
      match NameText(f, lib, us[0])
      case None => RejectEntries
      case Some(name) =>
        if |us| < 2 || us[1].kind != MemberSeparator then RejectEntries
        else
          match ReadValue(f, lib, us[2..])
          case Reject => RejectEntries
          case Accept(v, rest) => AfterMemberTexts(f, lib, rest, Put(entries, MemberKey(name), v), name)
  }

  function AfterMemberTexts(f: Features, lib: CLibrary, ts: seq<Lexeme>, entries: Entries, name: string): (r: Entering)
    ensures r.AcceptEntries? ==> |r.rest| <= |ts|
    decreases |ts|, 2
  {
    var us := DropComments(ts);
    if ts == [] || (ts[0].kind != ObjectEnd && ts[0].kind != ArraySeparator && ts[0].kind != CommentToken)
        then RejectEntries
    else if us == [] then RejectEntries
    else if us[0].kind == ObjectEnd then AcceptEntries(entries, us[1..])
    else ReadMembers(f, lib, us[1..], entries, name)
  }

  // ---------------------------------------------------------------- tokens at positions

  /** The tokens from a position on. */
  function TextsAt(doc: string, cur: nat): seq<Lexeme>
    requires cur <= |doc|
  {
    Texts(doc[cur..])
  }

  /** `t` is the token that `ts` starts with. */
  ghost predicate Heads(doc: string, t: Token, ts: seq<Lexeme>)
    requires t.start <= t.limit <= |doc|
  {
    if ts == [] then t.kind == EndOfStream && t.limit == |doc|
    else
      && ts[0] == Lexeme(t.kind, doc[t.start..t.limit])
      && TextsAt(doc, t.limit) == ts[1..]
      && TextsAt(doc, t.start) == ts
  }

  lemma {:induction false} TrimTrimmed(s: string)
    ensures Trim(Trim(s)) == Trim(s)
  {
    if s != "" && IsSpace(s[0]) {
      TrimTrimmed(s[1..]);
      assert Trim(s) == Trim(s[1..]);
    }
  }

  lemma TextsOfTrim(s: string)
    ensures Texts(Trim(s)) == Texts(s)
  {
    TrimTrimmed(s);
    SameTrim(s, Trim(s));
    UnfoldTexts(s);
    UnfoldTexts(Trim(s));
    hide Trim, First, Rest;
    if Trim(s) != "" {
      assert Texts(s) == [Texts(s)[0]] + Texts(s)[1..];
      assert Texts(Trim(s)) == [Texts(Trim(s))[0]] + Texts(Trim(s))[1..];
    }
  }

  lemma SameTrim(a: string, b: string)
    requires Trim(a) == Trim(b)
    ensures Trim(a) != "" ==> First(a) == First(b) && Rest(a) == Rest(b)
  {
    hide Scan, SpaceLen;
  }

  lemma TextsTrimmed(doc: string, cur: nat)
    requires cur <= |doc|
    ensures TextsAt(doc, cur + SpaceLen(doc[cur..])) == TextsAt(doc, cur)
  {
    hide Texts, SpaceLen, Scan;
    assert doc[cur + SpaceLen(doc[cur..])..] == Trim(doc[cur..]);
    TextsOfTrim(doc[cur..]);
  }

  lemma NextStart(doc: string, cur: nat)
    requires cur <= |doc|
    ensures Next(doc, cur).start == cur + SpaceLen(doc[cur..])
  {
    hide Scan, SpaceLen;
  }

  lemma NextHeads(doc: string, cur: nat)
    requires cur <= |doc|
    ensures Heads(doc, Next(doc, cur), TextsAt(doc, cur))
  {
    hide Next, Texts, SpaceLen;
    NextStart(doc, cur);
    NextTakesText(doc, cur);
    TextsTrimmed(doc, cur);
  }

  lemma {:induction false} NonCommentHeads(doc: string, cur: nat)
    requires cur <= |doc|
    ensures Heads(doc, NonComment(doc, cur), DropComments(TextsAt(doc, cur)))
    decreases |doc| - cur
  {
    NextHeads(doc, cur);
    hide Next, Texts;
    var t := Next(doc, cur);
    if t.kind == CommentToken {
      NonCommentHeads(doc, t.limit);
    }
  }

  lemma ValueTokenHeads(f: Features, doc: string, cur: nat)
    requires cur <= |doc|
    ensures Heads(doc, ValueToken(f, doc, cur), ValueTexts(f, TextsAt(doc, cur)))
  {
    if f.allowComments {
      NonCommentHeads(doc, cur);
    } else {
      NextHeads(doc, cur);
    }
  }

  lemma NoTextsAtEnd(doc: string)
    ensures TextsAt(doc, |doc|) == []
  {
    assert doc[|doc|..] == "";
  }

  // ---------------------------------------------------------------- the reader refines the reference

  ghost predicate Matches(doc: string, p: Parsed, r: Reading)
    requires p.cur <= |doc|
  {
    && (p.ok <==> r.Accept?)
    && (p.ok ==> Erase(p.value) == r.value && TextsAt(doc, p.cur) == r.rest)
  }

  ghost predicate MatchesEntries(doc: string, p: Filled, r: Entering)
    requires p.cur <= |doc|
  {
    && (p.ok <==> r.AcceptEntries?)
    && (p.ok ==> EraseAll(p.entries) == r.entries && TextsAt(doc, p.cur) == r.rest)
  }

  lemma BodyIsInner(doc: string, t: Token)
    requires t.start + 2 <= t.limit <= |doc|
    ensures Body(doc, t) == Inner(doc[t.start..t.limit])
  {
  }

  lemma ScalarMatches(f: Features, lib: CLibrary, doc: string, t: Token, ts: seq<Lexeme>, prev: Value)
    requires t.start <= t.limit <= |doc| && Heads(doc, t, ts)
    requires t.kind == StringToken ==> t.start + 2 <= t.limit
    requires t.kind == ArraySeparator ==> t.start + 1 == t.limit
    requires !(t.kind == ArraySeparator && f.allowDroppedNullPlaceholders)
    ensures var p := ParseScalar(f, lib, doc, t, prev);
            var d := if ts == [] then None else Scalar(lib, ts[0]);
            && (p.ok <==> d.Some?)
            && (p.ok ==> p.value.data == d.value && Erase(p.value) == Leaf(d.value) && TextsAt(doc, p.cur) == ts[1..])
  {
    hide DecodeNumber, Unquote, TextsAt;
    if t.kind == StringToken {
      BodyIsInner(doc, t);
    }
    if t.kind == NumberToken {
      DecodedIsScalar(lib, doc[t.start..t.limit]);
    }
  }

  lemma DecodedIsScalar(lib: CLibrary, text: string)
    ensures var d := DecodeNumber(lib, text); d.Some? ==> EraseData(d.value) == d.value
  {
    hide HasIntegerForm, AllDigits, DecimalValue;
  }

  lemma {:induction false} ValueMatches(f: Features, lib: CLibrary, doc: string, cur: nat, prev: Value)
    requires cur <= |doc|
    ensures Matches(doc, ParseValue(f, lib, doc, cur, prev), ReadValue(f, lib, TextsAt(doc, cur)))
    decreases |doc| - cur, 0
  {
    hide ParseMembers, ParseArray, ParseScalar, ReadMembers, ReadArray, Scalar, ValueToken, ValueTexts, TextsAt;
    hide EraseAll;
    EraseNil();
    var t := ValueToken(f, doc, cur);
    var ts := ValueTexts(f, TextsAt(doc, cur));
    ValueTokenHeads(f, doc, cur);
    if t.kind == ObjectBegin {
      MembersMatch(f, lib, doc, t.limit, Nil, "");
      var c := ParseMembers(f, lib, doc, t.limit, Nil, "");
      assert Erase(Value(Obj(c.entries), t.start, c.cur)) == Leaf(Obj(EraseAll(c.entries)));
    } else if t.kind == ArrayBegin {
      ArrayMatches(f, lib, doc, t.limit);
      var c := ParseArray(f, lib, doc, t.limit);
      assert Erase(Value(Arr(c.entries), t.start, c.cur)) == Leaf(Arr(EraseAll(c.entries)));
    } else if t.kind == ArraySeparator && f.allowDroppedNullPlaceholders {
      DroppedNull(f, lib, doc, t, prev);
      assert Erase(Value(Null, OffsetBefore(t.start), t.start)) == Leaf(Null);
    } else {
      ScalarMatches(f, lib, doc, t, ts, prev);
    }
  }

  lemma DroppedNull(f: Features, lib: CLibrary, doc: string, t: Token, prev: Value)
    requires t.kind == ArraySeparator && t.start + 1 == t.limit <= |doc| && f.allowDroppedNullPlaceholders
    ensures ParseScalar(f, lib, doc, t, prev) == Parsed(true, Value(Null, OffsetBefore(t.start), t.start), t.start, [])
  {
  }

  lemma {:induction false} ArrayMatches(f: Features, lib: CLibrary, doc: string, cur: nat)
    requires cur <= |doc|
    ensures MatchesEntries(doc, ParseArray(f, lib, doc, cur), ReadArray(f, lib, TextsAt(doc, cur)))
    decreases |doc| - cur, 2
  {
    hide ParseElements, ReadElements, Next, TextsAt, SpaceLen, EraseAll;
    var first := cur + SpaceLen(doc[cur..]);
    FirstBracket(doc, cur);
    TextsTrimmed(doc, cur);
    NextHeads(doc, cur);
    EraseNil();
    if !(first < |doc| && doc[first] == ']') {
      ElementsMatch(f, lib, doc, first, Nil, 0);
    }
  }

  lemma EraseNil()
    ensures EraseAll(Nil) == Nil
  {
  }

  /** A `]` after spaces is exactly the token `]`. */
  lemma FirstBracket(doc: string, cur: nat)
    requires cur <= |doc|
    ensures var first := cur + SpaceLen(doc[cur..]);
            first < |doc| && doc[first] == ']' <==> Next(doc, cur).kind == ArrayEnd
    ensures Next(doc, cur).kind == ArrayEnd ==> Next(doc, cur).limit == cur + SpaceLen(doc[cur..]) + 1
  {
    hide SpaceLen, StringScan, CommentScan, NumberLen;
  }

  lemma {:induction false} ElementsMatch(f: Features, lib: CLibrary, doc: string, cur: nat, entries: Entries,
                                         index: nat)
    requires cur <= |doc|
    ensures MatchesEntries(doc, ParseElements(f, lib, doc, cur, entries, index),
                           ReadElements(f, lib, TextsAt(doc, cur), EraseAll(entries), index))
    decreases |doc| - cur, 1
  {
    hide ParseValue, ReadValue, Put, Lookup, NonComment, TextsAt, DropComments, Recover, Erase;
    var v := ParseValue(f, lib, doc, cur, Lookup(entries, Index(index)));
    ValueMatches(f, lib, doc, cur, Lookup(entries, Index(index)));
    NonCommentHeads(doc, v.cur);
    ErasePut(entries, Index(index), v.value);
    var step := AfterElement(doc, v, Put(entries, Index(index), v.value));
    if step.Continue? {
      ElementsMatch(f, lib, doc, step.cur, step.entries, index + 1);
    }
  }

  lemma NameMatches(f: Features, lib: CLibrary, doc: string, t: Token)
    requires t.start <= t.limit <= |doc| && (t.kind == StringToken ==> t.start + 2 <= t.limit)
    ensures var n := ReadName(f, lib, doc, t);
            NameText(f, lib, Lexeme(t.kind, doc[t.start..t.limit])) == if n.Named? then Some(n.name) else None
  {
    hide DecodeNumber, Unquote;
    if t.kind == StringToken {
      BodyIsInner(doc, t);
    }
  }

  lemma {:induction false} StartMemberMatches(f: Features, lib: CLibrary, doc: string, cur: nat, entries: Entries,
                                              last: string)
    requires cur <= |doc|
    ensures var m := StartMember(f, lib, doc, cur, entries, last);
            var us := DropComments(TextsAt(doc, cur));
            if us != [] && us[0].kind == ObjectEnd && last == "" then
              m.NoMember? && m.filled.ok && m.filled.entries == entries && TextsAt(doc, m.filled.cur) == us[1..]
            else if |us| >= 2 && NameText(f, lib, us[0]).Some? && us[1].kind == MemberSeparator then
              m.ValueAt? && m.name == NameText(f, lib, us[0]).value && TextsAt(doc, m.cur) == us[2..]
            else
              m.NoMember? && !m.filled.ok
  {
    hide NonComment, Next, TextsAt, DropComments, ReadName, NameText, Recover;
    var t := NonComment(doc, cur);
    NonCommentHeads(doc, cur);
    NameMatches(f, lib, doc, t);
    NextHeads(doc, t.limit);
    if t.kind == EndOfStream {
      EndHasNoName(f, lib, doc, t);
    }
    if DropComments(TextsAt(doc, cur)) != [] {
      assert TextsAt(doc, t.limit) == DropComments(TextsAt(doc, cur))[1..];
    }
  }

  lemma EndHasNoName(f: Features, lib: CLibrary, doc: string, t: Token)
    requires t.start <= t.limit <= |doc| && t.kind == EndOfStream
    ensures ReadName(f, lib, doc, t) == NoName
  {
  }

  lemma {:induction false} MembersMatch(f: Features, lib: CLibrary, doc: string, cur: nat, entries: Entries,
                                        last: string)
    requires cur <= |doc|
    ensures MatchesEntries(doc, ParseMembers(f, lib, doc, cur, entries, last),
                           ReadMembers(f, lib, TextsAt(doc, cur), EraseAll(entries), last))
    decreases |doc| - cur, 1
  {
    hide StartMember, NameText, DropComments, TextsAt, AfterMember, AfterMemberTexts, Put, Lookup, ParseValue;
    hide ReadValue, Erase;
    StartMemberMatches(f, lib, doc, cur, entries, last);
    var m := StartMember(f, lib, doc, cur, entries, last);
    if m.ValueAt? {
      var v := ParseValue(f, lib, doc, m.cur, Lookup(entries, MemberKey(m.name)));
      ValueMatches(f, lib, doc, m.cur, Lookup(entries, MemberKey(m.name)));
      ErasePut(entries, MemberKey(m.name), v.value);
      AfterMemberMatches(f, lib, doc, v, Put(entries, MemberKey(m.name), v.value), m.name, cur);
    }
  }

  lemma {:induction false} AfterMemberMatches(f: Features, lib: CLibrary, doc: string, v: Parsed, entries: Entries,
                                              name: string, cur: nat)
    requires cur < v.cur <= |doc| && OneErrorIff(v.ok, v.errors)
    ensures var p := match AfterMember(doc, v, entries)
                     case Stop(r) => r
                     case Continue(next, entries') => ParseMembers(f, lib, doc, next, entries', name);
            if v.ok then MatchesEntries(doc, p, AfterMemberTexts(f, lib, TextsAt(doc, v.cur), EraseAll(entries), name))
            else !p.ok
    decreases |doc| - cur, 0
  {
    hide Next, NonComment, TextsAt, DropComments, Recover, ReadMembers, ParseMembers;
    NextHeads(doc, v.cur);
    NonCommentHeads(doc, v.cur);
    NonCommentOfNext(doc, v.cur);
    var step := AfterMember(doc, v, entries);
    if step.Continue? {
      MembersMatch(f, lib, doc, step.cur, step.entries, name);
      if DropComments(TextsAt(doc, v.cur)) == [] {
        NoTextsAtEnd(doc);
        NothingToRead(f, lib, EraseAll(entries), name);
      }
    }
  }

  lemma NothingToRead(f: Features, lib: CLibrary, entries: Entries, name: string)
    ensures ReadMembers(f, lib, [], entries, name) == RejectEntries
  {
  }

  lemma NonCommentOfNext(doc: string, cur: nat)
    requires cur <= |doc|
    ensures Next(doc, cur).kind != CommentToken ==> NonComment(doc, cur) == Next(doc, cur)
  {
  }

  /** Whether `parse` succeeds, and with which tree, depends on the token texts alone. */
  lemma DocumentMatches(f: Features, lib: CLibrary, doc: string, prev: Value)
    ensures var o := ParseDocument(f, lib, doc, prev);
            var r := ReadValue(f, lib, Texts(doc));
            && (o.ok <==> r.Accept? && (f.strictRoot ==> IsContainer(r.value)))
            && (o.ok ==> Erase(o.root) == r.value)
  {
    assert doc[0..] == doc;
    ValueMatches(f, lib, doc, 0, prev);
    hide ParseValue, ReadValue, Texts, Erase;
    assert IsContainer(ParseValue(f, lib, doc, 0, prev).value) <==>
             IsContainer(Erase(ParseValue(f, lib, doc, 0, prev).value)) by {
      EraseKeepsContainer(ParseValue(f, lib, doc, 0, prev).value);
    }
  }

  lemma EraseKeepsContainer(v: Value)
    ensures IsContainer(v) <==> IsContainer(Erase(v))
  {
  }
}
