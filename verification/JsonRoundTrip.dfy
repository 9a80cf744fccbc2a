/**
 Reading back what a writer printed: the reader rebuilds the value in canonical form.
 */
module JsonRoundTrip {
  import opened JsonGrammar
  import opened JsonLexer
  import opened JsonParser
  import opened JsonSparse
  import opened JsonTokens
  import opened JsonTool
  import opened JsonValue
  import opened JsonWriter
  import opened Wrappers

  // ---------------------------------------------------------------- the canonical form

  function CanonScalar(lib: CLibrary, d: Data): Data {
    match d
    case Int(i) => if i <= MAX_INT then Int(i) else UInt(i)
    case UInt(u) => if u <= MAX_INT then Int(u) else UInt(u)
    case Real(x) =>
      var read := DecodeNumber(lib, lib.printDouble(x));
      if lib.printDouble(x) == "null" || read.None? then Null else read.value
    case _ => d
  }

  /** No offsets, gaps of arrays filled with null, and the integer type that the reader picks. */
  function Canon(lib: CLibrary, v: Value): Value
    decreases v, 0, 0
  {
    match v.data
    case Arr(es) => Leaf(Arr(CanonElements(lib, es, 0, ArraySize(es))))
    case Obj(es) => Leaf(Obj(CanonMembers(lib, es)))
    case _ => Leaf(CanonScalar(lib, v.data))
  }

  function CanonElement(lib: CLibrary, es: Entries, index: nat): Value
    decreases es, 0, 0
  {
    match Find(es, Index(index))
    case Some(v) => Canon(lib, v)
    case None => Leaf(Null)
  }

  function CanonElements(lib: CLibrary, es: Entries, index: nat, size: nat): Entries
    decreases es, 1, size - index
  {
    if index >= size then Nil
    else Cons(Index(index), CanonElement(lib, es, index), CanonElements(lib, es, index + 1, size))
  }

  function CanonMembers(lib: CLibrary, es: Entries): Entries
    decreases es, 1, 0
  {
    match es
    case Nil => Nil
    case Cons(k, v, rest) => Cons(k, Canon(lib, v), CanonMembers(lib, rest))
  }

  // ---------------------------------------------------------------- what can be read back

  /** No string value is without a buffer. */
  ghost predicate HasBuffers(v: Value)
    decreases v
  {
    match v.data
    case Str(s) => s.Some?
    case Arr(es) => AllHaveBuffers(es)
    case Obj(es) => AllHaveBuffers(es)
    case _ => true
  }

  ghost predicate AllHaveBuffers(es: Entries)
    decreases es
  {
    es.Cons? ==> HasBuffers(es.value) && AllHaveBuffers(es.rest)
  }

  lemma {:induction false} FoundHasBuffers(es: Entries, key: Key)
    requires AllHaveBuffers(es) && Find(es, key).Some?
    ensures HasBuffers(Find(es, key).value)
  {
    if es.key != key {
      FoundHasBuffers(es.rest, key);
    }
  }

  // ---------------------------------------------------------------- entries and indices

  ghost predicate Holds(es: Entries, v: Value) {
    es.Cons? && (es.value == v || Holds(es.rest, v))
  }

  /** Every entry of an ordered array is found under its index, which is below the size. */
  lemma {:induction false} EntryIsFound(es: Entries, v: Value) returns (i: nat)
    requires Sorted(es) && WellFormedAll(es, true) && Holds(es, v)
    ensures es.key.i <= i < ArraySize(es) && Find(es, Index(i)) == Some(v)
    decreases es
  {
    hide WellFormed;
    if es.value == v {
      i := es.key.i;
      BelowSize(es);
    } else {
      i := EntryIsFound(es.rest, v);
    }
  }

  lemma {:induction false} BelowSize(es: Entries)
    requires Sorted(es) && WellFormedAll(es, true) && es.Cons?
    ensures es.key.i < ArraySize(es)
    decreases es
  {
    if es.rest.Cons? {
      BelowSize(es.rest);
    }
  }

  // ---------------------------------------------------------------- reading tokens

  lemma IntegerDecodes(lib: CLibrary, i: int)
    requires MIN_INT64 <= i <= MAX_UINT64
    ensures DecodeNumber(lib, IntText(i)) == Some(CanonScalar(lib, if i < 0 then Int(i) else UInt(i)))
  {
    var n := if i < 0 then -i else i;
    var text := IntText(i);
    DigitsDenote(n);
    DigitsNonEmpty(n);
    assert WithoutSign(text) == Digits(n);
    hide Digits, DecimalValue;
    assert HasIntegerForm(text);
    assert IsNegative(text) <==> i < 0;
  }

  lemma ScalarReads(lib: CLibrary, d: Data)
    requires PrintsReal(lib, d) && WellFormed(Leaf(d)) && !d.Arr? && !d.Obj? && !d.Null? && (d.Str? ==> d.s.Some?)
    ensures var ts := ScalarTokens(false, lib, d);
            |ts| == 1 && Scalar(lib, ts[0]) == Some(CanonScalar(lib, d))
            && ts[0].kind in {NumberToken, StringToken, TrueToken, FalseToken, NullToken}
  {
    hide DecodeNumber, IntText, Digits, Quote, Unquote;
    match d
    case Int(i) => IntegerDecodes(lib, i);
    case UInt(u) =>
      IntegerDecodes(lib, u);
      assert IntText(u) == Digits(u) by {
        IntTextOfNat(u);
      }
    case Str(s) => QuotedReads(s.value);
    case _ =>
  }

  lemma IntTextOfNat(u: nat)
    ensures IntText(u) == Digits(u)
  {
  }

  lemma QuotedReads(s: string)
    requires NulFree(s)
    ensures UnquotedData(Unquote(Inner(Quote(s)))) == Some(Str(Some(s)))
  {
    hide Unquote, EscapeAll, CStr;
    assert Inner(Quote(s)) == EscapeAll(s);
    UnquoteEscapeAll(s);
    CStrStopsAtNul(s, "");
    assert s + "" == s;
  }

  ghost predicate Readable(lib: CLibrary, v: Value) {
    WellFormed(v) && HasBuffers(v) && PrintsReals(lib, v)
  }

  ghost predicate AllReadable(lib: CLibrary, es: Entries, indexed: bool) {
    WellFormedAll(es, indexed) && AllHaveBuffers(es) && AllPrintReals(lib, es)
  }

  lemma ReadableParts(lib: CLibrary, v: Value)
    requires Readable(lib, v)
    ensures v.data.Arr? ==> Sorted(v.data.elems) && AllReadable(lib, v.data.elems, true)
    ensures v.data.Obj? ==> Sorted(v.data.members) && AllReadable(lib, v.data.members, false)
  {
  }

  lemma FoundIsReadable(lib: CLibrary, es: Entries, key: Key)
    requires AllReadable(lib, es, true)
    ensures Readable(lib, Lookup(es, key))
  {
    FoundPrintsReals(lib, es, key);
    if Find(es, key).Some? {
      FoundIsWellFormed(es, true, key);
      FoundHasBuffers(es, key);
    }
  }

  lemma NullReads(f: Features, lib: CLibrary, rest: seq<Lexeme>)
    ensures ReadValue(f, lib, ScalarTokens(false, lib, Null) + rest) == Accept(Leaf(Null), rest)
  {
    hide ReadMembers, ReadArray, DecodeNumber, Unquote;
    var ts := ScalarTokens(false, lib, Null) + rest;
    assert ts[1..] == rest;
    assert ValueTexts(f, ts) == ts;
  }

  lemma {:induction false} Reads(f: Features, lib: CLibrary, v: Value, rest: seq<Lexeme>)
    requires Readable(lib, v)
    ensures ReadValue(f, lib, TokensOf(false, lib, v) + rest) == Accept(Canon(lib, v), rest)
    decreases v, 0, 0
  {
    hide ReadValue, TokensOf, ElementsTokens, MembersTokens, Canon, CanonElements, CanonMembers, Sorted;
    hide WellFormed, HasBuffers, PrintsReals, WellFormedAll, AllHaveBuffers, AllPrintReals, AllReadable;
    ReadableParts(lib, v);
    if v.data.Arr? {
      ArrayReads(f, lib, v.data.elems, rest);
      ArrayValueReads(f, lib, v, rest);
    } else if v.data.Obj? {
      ObjectReads(f, lib, v.data.members, rest);
      ObjectValueReads(f, lib, v, rest);
    } else if v.data.Null? {
      NullReads(f, lib, rest);
      NullTokens(false, lib, v);
    } else {
      ScalarValueReads(f, lib, false, v, rest);
    }
  }

  lemma NullTokens(drop: bool, lib: CLibrary, v: Value)
    requires v.data.Null?
    ensures TokensOf(drop, lib, v) == ScalarTokens(drop, lib, Null) && Canon(lib, v) == Leaf(Null)
  {
  }

  lemma ArrayValueReads(f: Features, lib: CLibrary, v: Value, rest: seq<Lexeme>)
    requires v.data.Arr?
    requires ReadArray(f, lib, ElementsTokens(false, lib, v.data.elems, 0, ArraySize(v.data.elems))
             + ([Punctuation(']')] + rest))
          == AcceptEntries(CanonElements(lib, v.data.elems, 0, ArraySize(v.data.elems)), rest)
    ensures ReadValue(f, lib, TokensOf(false, lib, v) + rest) == Accept(Canon(lib, v), rest)
  {
    hide ReadArray, ReadValue, ElementsTokens, CanonElements;
    var body := ElementsTokens(false, lib, v.data.elems, 0, ArraySize(v.data.elems));
    ContainerTokens('[', body, ']', rest);
    OpensArray(f, lib, body + ([Punctuation(']')] + rest));
  }

  lemma ObjectValueReads(f: Features, lib: CLibrary, v: Value, rest: seq<Lexeme>)
    requires v.data.Obj?
    requires ReadMembers(f, lib, MembersTokens(false, lib, v.data.members, true) + ([Punctuation('}')] + rest), Nil, "")
          == AcceptEntries(CanonMembers(lib, v.data.members), rest)
    ensures ReadValue(f, lib, TokensOf(false, lib, v) + rest) == Accept(Canon(lib, v), rest)
  {
    hide ReadMembers, ReadValue, MembersTokens, CanonMembers;
    var body := MembersTokens(false, lib, v.data.members, true);
    ContainerTokens('{', body, '}', rest);
    OpensObject(f, lib, body + ([Punctuation('}')] + rest));
  }

  lemma ContainerTokens(open: char, body: seq<Lexeme>, close: char, rest: seq<Lexeme>)
    ensures [Punctuation(open)] + body + [Punctuation(close)] + rest
         == [Punctuation(open)] + (body + ([Punctuation(close)] + rest))
  {
  }

  /** An opening token hands over to the reader of elements or members. */
  lemma OpensArray(f: Features, lib: CLibrary, ts: seq<Lexeme>)
    requires ReadArray(f, lib, ts).AcceptEntries?
    ensures ReadValue(f, lib, [Punctuation('[')] + ts)
         == Accept(Leaf(Arr(ReadArray(f, lib, ts).entries)), ReadArray(f, lib, ts).rest)
  {
    hide ReadArray, ReadMembers;
    var us := [Punctuation('[')] + ts;
    assert ValueTexts(f, us) == us;
    assert us[1..] == ts;
  }

  lemma OpensObject(f: Features, lib: CLibrary, ts: seq<Lexeme>)
    requires ReadMembers(f, lib, ts, Nil, "").AcceptEntries?
    ensures ReadValue(f, lib, [Punctuation('{')] + ts)
         == Accept(Leaf(Obj(ReadMembers(f, lib, ts, Nil, "").entries)), ReadMembers(f, lib, ts, Nil, "").rest)
  {
    hide ReadArray, ReadMembers;
    var us := [Punctuation('{')] + ts;
    assert ValueTexts(f, us) == us;
    assert us[1..] == ts;
  }

  lemma ScalarValueReads(f: Features, lib: CLibrary, drop: bool, v: Value, rest: seq<Lexeme>)
    requires PrintsReals(lib, v) && WellFormed(v) && HasBuffers(v) && !IsContainer(v) && !v.data.Null?
    ensures ReadValue(f, lib, TokensOf(drop, lib, v) + rest) == Accept(Canon(lib, v), rest)
  {
    hide ReadArray, ReadMembers, ScalarTokens, Scalar, CanonScalar, PrintsReals, PrintsReal;
    PrintsRealsParts(lib, v);
    NotDropped(drop, lib, v.data);
    ScalarReads(lib, v.data);
    var ts := TokensOf(drop, lib, v) + rest;
    assert ts[0] == ScalarTokens(false, lib, v.data)[0];
    assert ValueTexts(f, ts) == ts;
    assert ts[1..] == rest;
  }

  lemma {:induction false} ElementReads(f: Features, lib: CLibrary, es: Entries, index: nat, rest: seq<Lexeme>)
    requires AllReadable(lib, es, true)
    ensures ReadValue(f, lib, ElementTokens(false, lib, es, index) + rest) == Accept(CanonElement(lib, es, index), rest)
    decreases es, 0, 0
  {
    hide ReadValue, TokensOf, ScalarTokens, Canon, AllReadable, Readable;
    FoundIsReadable(lib, es, Index(index));
    match Find(es, Index(index))
    case None => NullReads(f, lib, rest);
    case Some(v) => Reads(f, lib, v, rest);
  }

  lemma ClosedIsNoValue(f: Features, lib: CLibrary, ts: seq<Lexeme>)
    requires ts != [] && ts[0].kind == ArrayEnd
    ensures ReadValue(f, lib, ts) == Reject
  {
    hide ReadArray, ReadMembers;
    assert ValueTexts(f, ts) == ts;
  }

  /** The tokens from element `index` on, without the separator before it. */
  function ElementsFrom(drop: bool, lib: CLibrary, es: Entries, index: nat, size: nat, rest: seq<Lexeme>): seq<Lexeme> {
    ElementTokens(drop, lib, es, index) + (ElementsTokens(drop, lib, es, index + 1, size) + ([Punctuation(']')] + rest))
  }

  lemma ElementsFromFirst(drop: bool, lib: CLibrary, es: Entries, size: nat, rest: seq<Lexeme>)
    requires size > 0
    ensures ElementsTokens(drop, lib, es, 0, size) + ([Punctuation(']')] + rest)
            == ElementsFrom(drop, lib, es, 0, size, rest)
  {
    hide ElementTokens;
  }

  lemma ElementsFromNext(drop: bool, lib: CLibrary, es: Entries, index: nat, size: nat, rest: seq<Lexeme>)
    requires 0 < index < size
    ensures ElementsTokens(drop, lib, es, index, size) + ([Punctuation(']')] + rest)
         == [Punctuation(',')] + ElementsFrom(drop, lib, es, index, size, rest)
  {
    hide ElementTokens;
  }

  lemma {:induction false} ArrayReads(f: Features, lib: CLibrary, es: Entries, rest: seq<Lexeme>)
    requires AllReadable(lib, es, true)
    ensures ReadArray(f, lib, ElementsTokens(false, lib, es, 0, ArraySize(es)) + ([Punctuation(']')] + rest))
         == AcceptEntries(CanonElements(lib, es, 0, ArraySize(es)), rest)
    decreases es, 3, 0
  {
    hide ReadElements, ReadValue, AllReadable, ElementsFrom, CanonElement, ElementTokens, ArraySize;
    var size := ArraySize(es);
    var ts := ElementsTokens(false, lib, es, 0, size) + ([Punctuation(']')] + rest);
    if size == 0 {
      assert ts[1..] == rest;
    } else {
      ElementsFromFirst(false, lib, es, size, rest);
      ElementsRead(f, lib, es, 0, Nil, rest);
      AppendToNil(CanonElements(lib, es, 0, size));
    }
  }

  lemma AppendToNil(es: Entries)
    ensures Append(Nil, es) == es
  {
  }

  lemma {:induction false} ElementsRead(f: Features, lib: CLibrary, es: Entries, index: nat, acc: Entries,
                                        rest: seq<Lexeme>)
    requires AllReadable(lib, es, true)
    requires index < ArraySize(es) && AllBelow(acc, Index(index))
    ensures var ts := ElementsFrom(false, lib, es, index, ArraySize(es), rest);
            && !(ts != [] && ts[0].kind == ArrayEnd)
            && ReadElements(f, lib, ts, acc, index)
            == AcceptEntries(Append(acc, CanonElements(lib, es, index, ArraySize(es))), rest)
    decreases es, 2, ArraySize(es) - index
  {
    hide ReadValue, ReadElements, AllReadable, CanonElement, ElementTokens, ArraySize, Lookup, Put, Append;
    var size := ArraySize(es);
    var ts := ElementsFrom(false, lib, es, index, size, rest);
    var after := ElementsTokens(false, lib, es, index + 1, size) + ([Punctuation(']')] + rest);
    var v := CanonElement(lib, es, index);
    var acc' := Put(acc, Index(index), v);
    AppendNext(acc, index, v, CanonElements(lib, es, index + 1, size));
    if index + 1 == size {
      AppendNil(acc');
      assert after == [Punctuation(']')] + rest && after[1..] == rest;
    } else {
      ElementsFromNext(false, lib, es, index + 1, size, rest);
      assert after[1..] == ElementsFrom(false, lib, es, index + 1, size, rest);
      ElementsRead(f, lib, es, index + 1, acc', rest);
    }
    ElementReads(f, lib, es, index, after);
    ElementStep(f, lib, ts, v, after, acc, index);
    if ts != [] && ts[0].kind == ArrayEnd {
      ClosedIsNoValue(f, lib, ts);
    }
  }

  lemma ElementStep(f: Features, lib: CLibrary, ts: seq<Lexeme>, v: Value, after: seq<Lexeme>, acc: Entries, index: nat)
    requires ReadValue(f, lib, ts) == Accept(v, after) && after != []
    requires after[0].kind == ArrayEnd || after[0].kind == ArraySeparator
    ensures ReadElements(f, lib, ts, acc, index)
         == if after[0].kind == ArrayEnd then AcceptEntries(Put(acc, Index(index), v), after[1..])
            else ReadElements(f, lib, after[1..], Put(acc, Index(index), v), index + 1)
  {
    hide ReadValue, Put;
    assert DropComments(after) == after;
  }

  lemma AppendNext(acc: Entries, index: nat, v: Value, more: Entries)
    requires AllBelow(acc, Index(index))
    ensures var acc' := Put(acc, Index(index), v);
            AllBelow(acc', Index(index + 1)) && Append(acc', more) == Append(acc, Cons(Index(index), v, more))
  {
    PutLast(acc, Index(index), v);
    AppendAssoc(acc, Cons(Index(index), v, Nil), more);
    AllBelowWeaken(acc, Index(index), Index(index + 1));
    AllBelowAppend(acc, Cons(Index(index), v, Nil), Index(index + 1));
  }

  // ---------------------------------------------------------------- members

  lemma {:induction false} ObjectReads(f: Features, lib: CLibrary, es: Entries, rest: seq<Lexeme>)
    requires Sorted(es) && AllReadable(lib, es, false)
    ensures ReadMembers(f, lib, MembersTokens(false, lib, es, true) + ([Punctuation('}')] + rest), Nil, "")
         == AcceptEntries(CanonMembers(lib, es), rest)
    decreases es, 3, 0
  {
    hide AllReadable, MemberTokens, ReadValue, AfterMemberTexts, NameText;
    var ts := MembersTokens(false, lib, es, true) + ([Punctuation('}')] + rest);
    if es.Nil? {
      assert ts[1..] == rest;
    } else {
      assert ts == MembersFrom(false, lib, es, rest);
      MembersRead(f, lib, es, Nil, "", rest);
      AppendToNil(CanonMembers(lib, es));
    }
  }

  /** The tokens of members without the separator before the first. */
  function MembersFrom(drop: bool, lib: CLibrary, es: Entries, rest: seq<Lexeme>): seq<Lexeme>
    requires es.Cons?
  {
    MemberTokens(drop, lib, es.key, es.value) + (MembersTokens(drop, lib, es.rest, false) + ([Punctuation('}')] + rest))
  }

  lemma MembersFromNext(drop: bool, lib: CLibrary, es: Entries, rest: seq<Lexeme>)
    requires es.Cons?
    ensures MembersTokens(drop, lib, es, false) + ([Punctuation('}')] + rest)
         == [Punctuation(',')] + MembersFrom(drop, lib, es, rest)
  {
    hide MemberTokens;
  }

  lemma NameReads(f: Features, lib: CLibrary, k: Key)
    requires k.Name? && NulFree(k.s)
    ensures NameText(f, lib, Lexeme(StringToken, Quote(KeyText(k)))) == Some(k.s)
    ensures MemberKey(k.s) == k
  {
    hide Unquote, EscapeAll, CStr;
    assert Inner(Quote(k.s)) == EscapeAll(k.s);
    UnquoteEscapeAll(k.s);
    CStrStopsAtNul(k.s, "");
    assert k.s + "" == k.s;
  }

  /** A member is read when its value is, whatever the value turns out to be. */
  lemma MemberReads(f: Features, lib: CLibrary, drop: bool, k: Key, v: Value, after: seq<Lexeme>, acc: Entries,
                    last: string)
    requires k.Name? && NulFree(k.s)
    ensures ReadMembers(f, lib, MemberTokens(drop, lib, k, v) + after, acc, last) ==
              match ReadValue(f, lib, TokensOf(drop, lib, v) + after)
              case Reject => RejectEntries
              case Accept(w, rest) => AfterMemberTexts(f, lib, rest, Put(acc, k, w), k.s)
  {
    hide ReadValue, AfterMemberTexts, Put, TokensOf, NameText, Quote;
    var ts := MemberTokens(drop, lib, k, v) + after;
    assert ts[0] == Lexeme(StringToken, Quote(KeyText(k))) && ts[1] == Punctuation(':');
    assert ts[2..] == TokensOf(drop, lib, v) + after;
    assert DropComments(ts) == ts;
    NameReads(f, lib, k);
  }

  lemma {:induction false} MembersRead(f: Features, lib: CLibrary, es: Entries, acc: Entries, last: string,
                                       rest: seq<Lexeme>)
    requires Sorted(es) && AllReadable(lib, es, false)
    requires es.Cons? && AllBelow(acc, es.key)
    ensures ReadMembers(f, lib, MembersFrom(false, lib, es, rest), acc, last)
         == AcceptEntries(Append(acc, CanonMembers(lib, es)), rest)
    decreases es, 2, 0
  {
    hide ReadValue, ReadMembers, AfterMemberTexts, Put, Append, TokensOf, MemberTokens, Canon, WellFormed, HasBuffers;
    hide PrintsReals;
    var after := MembersTokens(false, lib, es.rest, false) + ([Punctuation('}')] + rest);
    var acc' := Put(acc, es.key, Canon(lib, es.value));
    AppendMember(acc, es.key, Canon(lib, es.value), es.rest, CanonMembers(lib, es.rest));
    if es.rest.Nil? {
      AppendNil(acc');
      assert after == [Punctuation('}')] + rest && after[1..] == rest;
    } else {
      MembersFromNext(false, lib, es.rest, rest);
      assert after[1..] == MembersFrom(false, lib, es.rest, rest);
      MembersRead(f, lib, es.rest, acc', es.key.s, rest);
    }
    Reads(f, lib, es.value, after);
    MemberReads(f, lib, false, es.key, es.value, after, acc, last);
    AfterMemberStep(f, lib, after, acc', es.key.s);
  }

  lemma AfterMemberStep(f: Features, lib: CLibrary, after: seq<Lexeme>, entries: Entries, name: string)
    requires after != [] && (after[0].kind == ObjectEnd || after[0].kind == ArraySeparator)
    ensures AfterMemberTexts(f, lib, after, entries, name)
         == if after[0].kind == ObjectEnd then AcceptEntries(entries, after[1..])
            else ReadMembers(f, lib, after[1..], entries, name)
  {
    hide ReadMembers;
    assert DropComments(after) == after;
  }

  lemma AppendMember(acc: Entries, key: Key, v: Value, below: Entries, more: Entries)
    requires AllBelow(acc, key) && (below.Cons? ==> KeyLess(key, below.key))
    ensures var acc' := Put(acc, key, v);
            && (below.Cons? ==> AllBelow(acc', below.key))
            && Append(acc', more) == Append(acc, Cons(key, v, more))
  {
    PutLast(acc, key, v);
    AppendAssoc(acc, Cons(key, v, Nil), more);
    if below.Cons? {
      AllBelowWeaken(acc, key, below.key);
      AllBelowAppend(acc, Cons(key, v, Nil), below.key);
    }
  }

  // ---------------------------------------------------------------- documents

  lemma {:induction false} CutHasBuffers(v: Value)
    requires HasBuffers(v)
    ensures HasBuffers(Cut(v))
    decreases v, 0
  {
    if v.data.Arr? {
      CutAllHaveBuffers(v.data.elems);
    } else if v.data.Obj? {
      CutAllHaveBuffers(v.data.members);
    }
  }

  lemma {:induction false} CutAllHaveBuffers(es: Entries)
    requires AllHaveBuffers(es)
    ensures AllHaveBuffers(CutAll(es))
    decreases es, 1
  {
    if es.Cons? {
      CutHasBuffers(es.value);
      CutAllHaveBuffers(es.rest);
    }
  }

  lemma CutIsReadable(lib: CLibrary, v: Value)
    requires Readable(lib, v)
    ensures Readable(lib, Cut(v))
  {
    hide WellFormed, HasBuffers, PrintsReals, Cut;
    CutIsWellFormed(v);
    CutHasBuffers(v);
    CutPrintsReals(lib, v);
  }

  /**
   Parsing what FastWriter prints gives back the canonical value of what was not cut, whatever the
   root held before and for every setting of the reader; a strict reader takes containers only.
   */
  lemma FastRoundTrip(f: Features, lib: CLibrary, o: FastOptions, v: Value, prev: Value)
    requires PrintsReals(lib, v) && WellFormed(v) && HasBuffers(v) && !o.dropNulls
    ensures var r := ParseDocument(f, lib, FastDocument(o, lib, v), prev);
            && (r.ok <==> (f.strictRoot ==> IsContainer(v)))
            && (r.ok ==> Erase(r.root) == Canon(lib, Cut(v)))
  {
    FastDocumentTexts(o, lib, v);
    DocumentMatches(f, lib, FastDocument(o, lib, v), prev);
    CutIsReadable(lib, v);
    CutKeepsContainer(v);
    hide ParseDocument, FastDocument, ReadValue, TokensOf, Texts, PrintsReals, WellFormed, HasBuffers, Cut, Readable;
    Reads(f, lib, Cut(v), []);
    assert TokensOf(false, lib, Cut(v)) + [] == TokensOf(false, lib, Cut(v));
    CanonKeepsContainer(lib, Cut(v));
  }

  lemma CutKeepsContainer(v: Value)
    ensures IsContainer(Cut(v)) <==> IsContainer(v)
  {
  }

  lemma CanonKeepsContainer(lib: CLibrary, v: Value)
    ensures IsContainer(Canon(lib, v)) <==> IsContainer(v)
  {
    hide DecodeNumber;
    if !IsContainer(v) {
      ScalarStaysScalar(lib, v.data);
    }
  }

  lemma ScalarStaysScalar(lib: CLibrary, d: Data)
    requires !d.Arr? && !d.Obj?
    ensures !CanonScalar(lib, d).Arr? && !CanonScalar(lib, d).Obj?
  {
    hide HasIntegerForm, AllDigits, DecimalValue;
  }

  // ---------------------------------------------------------------- strings without a buffer

  lemma {:induction false} PutHasBuffers(es: Entries, key: Key, v: Value)
    requires AllHaveBuffers(es) && HasBuffers(v)
    ensures AllHaveBuffers(Put(es, key, v))
  {
    hide HasBuffers;
    if es.Cons? && es.key != key && !KeyLess(key, es.key) {
      PutHasBuffers(es.rest, key, v);
    }
  }

  lemma ScalarHasBuffers(lib: CLibrary, t: Lexeme)
    ensures Scalar(lib, t).Some? ==> HasBuffers(Leaf(Scalar(lib, t).value))
  {
    hide HasIntegerForm, AllDigits, DecimalValue, Unquote;
  }

  /** The reader gives every string a buffer. */
  lemma {:induction false} ReadHasBuffers(f: Features, lib: CLibrary, ts: seq<Lexeme>)
    ensures ReadValue(f, lib, ts).Accept? ==> HasBuffers(ReadValue(f, lib, ts).value)
    decreases |ts|, 0
  {
    hide ReadMembers, ReadElements, Scalar, DropComments;
    var us := ValueTexts(f, ts);
    if us != [] {
      ScalarHasBuffers(lib, us[0]);
      if us[0].kind == ObjectBegin {
        ReadMembersHaveBuffers(f, lib, us[1..], Nil, "");
      } else if us[0].kind == ArrayBegin {
        ReadElementsHaveBuffers(f, lib, us[1..], Nil, 0);
      }
    }
  }

  lemma {:induction false} ReadElementsHaveBuffers(f: Features, lib: CLibrary, ts: seq<Lexeme>, entries: Entries,
                                                   index: nat)
    requires AllHaveBuffers(entries)
    ensures var r := ReadElements(f, lib, ts, entries, index); r.AcceptEntries? ==> AllHaveBuffers(r.entries)
    decreases |ts|, 1
  {
    hide ReadValue, DropComments, Put, HasBuffers, AllHaveBuffers;
    var v := ReadValue(f, lib, ts);
    ReadHasBuffers(f, lib, ts);
    if v.Accept? {
      PutHasBuffers(entries, Index(index), v.value);
      var us := DropComments(v.rest);
      if us != [] && us[0].kind == ArraySeparator {
        ReadElementsHaveBuffers(f, lib, us[1..], Put(entries, Index(index), v.value), index + 1);
      }
    }
  }

  lemma {:induction false} ReadMembersHaveBuffers(f: Features, lib: CLibrary, ts: seq<Lexeme>, entries: Entries,
                                                  last: string)
    requires AllHaveBuffers(entries)
    ensures var r := ReadMembers(f, lib, ts, entries, last); r.AcceptEntries? ==> AllHaveBuffers(r.entries)
    decreases |ts|, 1
  {
    hide ReadValue, DropComments, NameText, Put, HasBuffers, AllHaveBuffers;
    var us := DropComments(ts);
    if |us| >= 2 && NameText(f, lib, us[0]).Some? {
      var name := NameText(f, lib, us[0]).value;
      var v := ReadValue(f, lib, us[2..]);
      ReadHasBuffers(f, lib, us[2..]);
      if v.Accept? {
        var entries' := Put(entries, MemberKey(name), v.value);
        PutHasBuffers(entries, MemberKey(name), v.value);
        var after := DropComments(v.rest);
        if after != [] {
          ReadMembersHaveBuffers(f, lib, after[1..], entries', name);
        }
      }
    }
  }

  lemma {:induction false} BufferlessEntry(es: Entries) returns (v: Value)
    requires !AllHaveBuffers(es)
    ensures Holds(es, v) && !HasBuffers(v)
  {
    hide HasBuffers;
    if !HasBuffers(es.value) {
      v := es.value;
    } else {
      v := BufferlessEntry(es.rest);
    }
  }

  lemma {:induction false} CanonElementHasBuffers(lib: CLibrary, es: Entries, index: nat, size: nat, i: nat)
    requires AllHaveBuffers(CanonElements(lib, es, index, size)) && index <= i < size
    ensures HasBuffers(CanonElement(lib, es, i))
    decreases i - index
  {
    hide CanonElement, HasBuffers;
    if index < i {
      CanonElementHasBuffers(lib, es, index + 1, size, i);
    }
  }

  /** The canonical tree keeps a string without buffer. */
  lemma {:induction false} CanonBuffers(lib: CLibrary, v: Value)
    requires WellFormed(v) && HasBuffers(Canon(lib, v))
    ensures HasBuffers(v)
    decreases v, 0
  {
    hide WellFormedAll, CanonElements, CanonMembers, AllHaveBuffers;
    if v.data.Arr? && !AllHaveBuffers(v.data.elems) {
      var es := v.data.elems;
      var bad := BufferlessEntry(es);
      var i := EntryIsFound(es, bad);
      CanonElementHasBuffers(lib, es, 0, ArraySize(es), i);
      FoundIsWellFormed(es, true, Index(i));
      CanonBuffers(lib, bad);
    } else if v.data.Obj? {
      CanonMembersBuffers(lib, v.data.members);
    }
  }

  lemma {:induction false} CanonMembersBuffers(lib: CLibrary, es: Entries)
    requires WellFormedAll(es, false) && AllHaveBuffers(CanonMembers(lib, es))
    ensures AllHaveBuffers(es)
    decreases es, 1
  {
    hide WellFormed, HasBuffers, Canon;
    if es.Cons? {
      CanonBuffers(lib, es.value);
      CanonMembersBuffers(lib, es.rest);
    }
  }

  /** No document at all is read as a tree with a string that lacks a buffer. */
  lemma NothingReadsAs(f: Features, lib: CLibrary, doc: string, v: Value, prev: Value)
    requires WellFormed(v) && !HasBuffers(v)
    ensures var r := ParseDocument(f, lib, doc, prev); !(r.ok && Erase(r.root) == Canon(lib, v))
  {
    hide ParseDocument, ReadValue, Texts, WellFormed, HasBuffers, Canon, Erase;
    DocumentMatches(f, lib, doc, prev);
    ReadHasBuffers(f, lib, Texts(doc));
    if HasBuffers(Canon(lib, v)) {
      CanonBuffers(lib, v);
    }
  }

  // ---------------------------------------------------------------- arrays that are cut

  lemma {:induction false} UnsizedEntry(es: Entries) returns (v: Value)
    requires !SizedAllBelow(es, MAX_INT)
    ensures Holds(es, v) && !SizedBelow(v, MAX_INT)
  {
    hide SizedBelow;
    if !SizedBelow(es.value, MAX_INT) {
      v := es.value;
    } else {
      v := UnsizedEntry(es.rest);
    }
  }

  lemma {:induction false} SameCanonElement(lib: CLibrary, a: Entries, b: Entries, index: nat, size: nat, i: nat)
    requires CanonElements(lib, a, index, size) == CanonElements(lib, b, index, size) && index <= i < size
    ensures CanonElement(lib, a, i) == CanonElement(lib, b, i)
    decreases i - index
  {
    hide CanonElement;
    if index < i {
      SameCanonElement(lib, a, b, index + 1, size, i);
    }
  }

  /** Nothing was cut if the canonical trees are the same. */
  lemma {:induction false} SameCanonIsSized(lib: CLibrary, v: Value)
    requires WellFormed(v) && Canon(lib, Cut(v)) == Canon(lib, v)
    ensures SizedBelow(v, MAX_INT)
    decreases v, 0
  {
    hide WellFormedAll, CanonElement, CanonMembers, SizedAllBelow, ArraySize, CanonScalar;
    if v.data.Arr? {
      var es := v.data.elems;
      CutKeepsSize(es);
      CutCanonSize(lib, es);
      if !SizedAllBelow(es, MAX_INT) {
        var large := UnsizedEntry(es);
        var i := EntryIsFound(es, large);
        SameCanonElement(lib, CutAll(es), es, 0, ArraySize(es), i);
        SameFoundCanon(lib, es, i);
        FoundIsWellFormed(es, true, Index(i));
        SameCanonIsSized(lib, large);
      }
    } else if v.data.Obj? {
      SameCanonMembersAreSized(lib, v.data.members);
    }
  }

  lemma CutCanonSize(lib: CLibrary, es: Entries)
    ensures ArraySize(es) > 0 ==> CanonElements(lib, es, 0, ArraySize(es)).Cons?
    ensures CanonElements(lib, Nil, 0, ArraySize(Nil)) == Nil
  {
    hide CanonElement;
  }

  lemma SameFoundCanon(lib: CLibrary, es: Entries, i: nat)
    requires Find(es, Index(i)).Some? && CanonElement(lib, CutAll(es), i) == CanonElement(lib, es, i)
    ensures Canon(lib, Cut(Find(es, Index(i)).value)) == Canon(lib, Find(es, Index(i)).value)
  {
    hide Canon, Cut;
    FindCut(es, Index(i));
  }

  lemma {:induction false} SameCanonMembersAreSized(lib: CLibrary, es: Entries)
    requires WellFormedAll(es, false) && CanonMembers(lib, CutAll(es)) == CanonMembers(lib, es)
    ensures SizedAllBelow(es, MAX_INT)
    decreases es, 1
  {
    hide WellFormed, SizedBelow, Canon, Cut;
    if es.Cons? {
      SameCanonIsSized(lib, es.value);
      SameCanonMembersAreSized(lib, es.rest);
    }
  }

  /**
   The tree comes back exactly if no string in it lacks a buffer and no array is larger than an
   `int` can say, and a strict reader takes it.
   */
  lemma FastRoundTripIff(f: Features, lib: CLibrary, o: FastOptions, v: Value, prev: Value)
    requires PrintsReals(lib, v) && WellFormed(v) && !o.dropNulls
    ensures var r := ParseDocument(f, lib, FastDocument(o, lib, v), prev);
            r.ok && Erase(r.root) == Canon(lib, v) <==>
              HasBuffers(v) && SizedBelow(v, MAX_INT) && (f.strictRoot ==> IsContainer(v))
  {
    hide ParseDocument, FastDocument, PrintsReals, WellFormed, HasBuffers, SizedBelow, Canon, Erase, Cut;
    if HasBuffers(v) {
      FastRoundTrip(f, lib, o, v, prev);
      if SizedBelow(v, MAX_INT) {
        SizedIsUncut(v);
      } else if Canon(lib, Cut(v)) == Canon(lib, v) {
        SameCanonIsSized(lib, v);
      }
    } else {
      NothingReadsAs(f, lib, FastDocument(o, lib, v), v, prev);
    }
  }

  /** An array whose only element is the one with index 2^31 */
  const LARGE_ARRAY: Value := Value(Arr(Cons(Index(MAX_INT + 1), Value(Int(1), 0, 0), Nil)), 0, 0)

  lemma LargeArrayIsPrinted(lib: CLibrary)
    ensures Readable(lib, LARGE_ARRAY)
  {
    var one := Value(Int(1), 0, 0);
    var es := Cons(Index(MAX_INT + 1), one, Nil);
    assert Readable(lib, one);
    assert WellFormedAll(Nil, true) && AllHaveBuffers(Nil) && AllPrintReals(lib, Nil);
    assert WellFormedAll(es, true) && AllHaveBuffers(es) && AllPrintReals(lib, es);
  }

  /** Such an array comes back empty. */
  lemma LargeArrayIsLost(f: Features, lib: CLibrary, prev: Value)
    ensures var r := ParseDocument(f, lib, FastDocument(FastOptions(false, false, false), lib, LARGE_ARRAY), prev);
            WellFormed(LARGE_ARRAY) && r.ok && Erase(r.root) == Leaf(Arr(Nil))
  {
    hide ParseDocument, FastDocument;
    LargeArrayIsPrinted(lib);
    FastRoundTrip(f, lib, FastOptions(false, false, false), LARGE_ARRAY, prev);
  }
}
