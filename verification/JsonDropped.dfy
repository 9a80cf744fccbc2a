/**
 Printing with nulls dropped: what the reader makes of it with and without dropped placeholders
 allowed, and exactly when the tree comes back.
 */
module JsonDropped {
  import opened JsonGrammar
  import opened JsonLexer
  import opened JsonParser
  import opened JsonRoundTrip
  import opened JsonSparse
  import opened JsonTokens
  import opened JsonValue
  import opened JsonWriter

  /**
   At any depth, no array is larger than an `int` can say and no container ends with a null; if
   dropped placeholders are not allowed, there is no null in a container and no gap in an array.
   */
  ghost predicate Returns(allow: bool, v: Value)
    decreases v
  {
    match v.data
    case Arr(es) =>
      && ArraySize(es) <= MAX_INT && LastIsKept(es) && (allow || (NoNulls(es) && NoGaps(es, 0)))
      && AllReturn(allow, es)
    case Obj(es) => LastIsKept(es) && (allow || NoNulls(es)) && AllReturn(allow, es)
    case _ => true
  }

  ghost predicate AllReturn(allow: bool, es: Entries)
    decreases es
  {
    es.Cons? ==> Returns(allow, es.value) && AllReturn(allow, es.rest)
  }

  ghost predicate LastIsKept(es: Entries) {
    match es
    case Nil => true
    case Cons(_, v, Nil) => !v.data.Null?
    case Cons(_, _, rest) => LastIsKept(rest)
  }

  ghost predicate NoNulls(es: Entries) {
    es.Cons? ==> !es.value.data.Null? && NoNulls(es.rest)
  }

  /** The indices go up from `index` one by one. */
  ghost predicate NoGaps(es: Entries, index: nat)
    decreases es
  {
    es.Cons? ==> es.key == Index(index) && NoGaps(es.rest, index + 1)
  }

  lemma {:induction false} FoundReturns(allow: bool, es: Entries, key: Key)
    requires AllReturn(allow, es) && Find(es, key).Some?
    ensures Returns(allow, Find(es, key).value)
  {
    if es.key != key {
      FoundReturns(allow, es.rest, key);
    }
  }

  /** What can follow a value. */
  predicate Ends(after: seq<Lexeme>) {
    after != [] ==> after[0].kind in {ArraySeparator, ArrayEnd, ObjectEnd}
  }

  /** Nothing is read, or a value with nothing lost behind it; it is `v` exactly if that is `good`. */
  ghost predicate Lands(r: Reading, v: Value, after: seq<Lexeme>, good: bool) {
    match r
    case Reject => !good
    case Accept(w, rest) => rest == after && (w == v <==> good)
  }

  ghost predicate LandsEntries(r: Entering, acc: Entries, es: Entries, rest: seq<Lexeme>, good: bool) {
    match r
    case RejectEntries => !good
    case AcceptEntries(read, left) => left == rest && exists more :: read == Append(acc, more) && (more == es <==> good)
  }

  /** Whether a value comes back when it is followed by `after`: a null needs a separator. */
  ghost predicate ComesBack(allow: bool, v: Value, after: seq<Lexeme>) {
    Returns(allow, v) && (v.data.Null? ==> allow && after != [] && after[0].kind == ArraySeparator)
  }

  lemma NullNeedsSeparator(f: Features, lib: CLibrary, after: seq<Lexeme>)
    requires Ends(after)
    ensures ReadValue(f, lib, after) ==
              if f.allowDroppedNullPlaceholders && after != []
                  && after[0].kind == ArraySeparator then Accept(Leaf(Null), after)
              else Reject
  {
    hide ReadMembers, ReadArray, DecodeNumber;
    assert ValueTexts(f, after) == after;
  }

  lemma {:induction false} ReadsSomehow(f: Features, lib: CLibrary, v: Value, after: seq<Lexeme>)
    requires Readable(lib, v) && Ends(after)
    ensures Lands(ReadValue(f, lib, TokensOf(true, lib, Cut(v)) + after), Canon(lib, v), after,
                  ComesBack(f.allowDroppedNullPlaceholders, v, after))
    decreases v, 0, 0
  {
    hide ReadValue, TokensOf, Canon, Returns, WellFormed, HasBuffers, PrintsReals, AllReadable, WellFormedAll;
    hide AllHaveBuffers, AllPrintReals, Sorted;
    ReadableParts(lib, v);
    if !IsContainer(v) {
      ScalarIsUncut(v);
    }
    if v.data.Null? {
      NullTokens(true, lib, v);
      NullIsGood(f.allowDroppedNullPlaceholders, v);
      NullNeedsSeparator(f, lib, after);
      assert TokensOf(true, lib, v) + after == after;
    } else if v.data.Arr? {
      ArraySomehow(f, lib, v, after);
    } else if v.data.Obj? {
      ObjectSomehow(f, lib, v, after);
    } else {
      ScalarIsGood(f.allowDroppedNullPlaceholders, v);
      ScalarValueReads(f, lib, true, v, after);
    }
  }

  lemma ScalarIsUncut(v: Value)
    requires !IsContainer(v)
    ensures Cut(v) == v
  {
  }

  lemma NullIsGood(allow: bool, v: Value)
    requires v.data.Null?
    ensures Returns(allow, v)
  {
  }

  lemma ScalarIsGood(allow: bool, v: Value)
    requires !IsContainer(v)
    ensures Returns(allow, v)
  {
  }

  // ---------------------------------------------------------------- elements

  /** Whether the elements from `index` on come back. */
  ghost predicate ElementsComeBack(allow: bool, es: Entries, index: nat, size: nat)
    decreases size - index
  {
    index < size ==>
      && Returns(allow, Lookup(es, Index(index)))
      && (index + 1 == size || !allow ==> !Lookup(es, Index(index)).data.Null?)
      && ElementsComeBack(allow, es, index + 1, size)
  }

  lemma {:induction false} ElementSomehow(f: Features, lib: CLibrary, es: Entries, index: nat, after: seq<Lexeme>)
    requires AllReadable(lib, es, true) && Ends(after)
    ensures Lands(ReadValue(f, lib, ElementTokens(true, lib, CutAll(es), index) + after), CanonElement(lib, es, index),
                  after,
                  ComesBack(f.allowDroppedNullPlaceholders, Lookup(es, Index(index)), after))
    decreases es, 0, 0
  {
    hide ReadValue, TokensOf, Canon, AllReadable, Readable, Returns, Cut;
    FoundIsReadable(lib, es, Index(index));
    FindCut(es, Index(index));
    match Find(es, Index(index))
    case Some(v) => ReadsSomehow(f, lib, v, after);
    case None =>
      NullIsGood(f.allowDroppedNullPlaceholders, NULL_VALUE);
      NullNeedsSeparator(f, lib, after);
      assert ElementTokens(true, lib, CutAll(es), index) + after == after;
  }

  lemma RejectedElement(f: Features, lib: CLibrary, ts: seq<Lexeme>, acc: Entries, index: nat)
    requires ReadValue(f, lib, ts) == Reject
    ensures ReadElements(f, lib, ts, acc, index) == RejectEntries
  {
    hide ReadValue;
  }

  /** One more entry in front of what was read. */
  lemma NextLands(r: Entering, acc: Entries, key: Key, w: Value, v: Value, es: Entries, rest: seq<Lexeme>, first: bool,
                  good: bool)
    requires AllBelow(acc, key) && (w == v <==> first) && LandsEntries(r, Put(acc, key, w), es, rest, good)
    ensures LandsEntries(r, acc, Cons(key, v, es), rest, first && good)
  {
    hide Put, Append;
    if r.AcceptEntries? {
      var acc' := Put(acc, key, w);
      var more :| r.entries == Append(acc', more) && (more == es <==> good);
      PutLast(acc, key, w);
      AppendAssoc(acc, Cons(key, w, Nil), more);
      AppendOne(key, w, more);
      var longer := Cons(key, w, more);
      assert r.entries == Append(acc, longer) && (longer == Cons(key, v, es) <==> first && good);
    }
  }

  lemma AppendOne(key: Key, w: Value, more: Entries)
    ensures Append(Cons(key, w, Nil), more) == Cons(key, w, more)
  {
  }

  lemma LastLands(acc: Entries, key: Key, w: Value, v: Value, rest: seq<Lexeme>, first: bool)
    requires AllBelow(acc, key) && (w == v <==> first)
    ensures LandsEntries(AcceptEntries(Put(acc, key, w), rest), acc, Cons(key, v, Nil), rest, first)
  {
    AppendNil(Put(acc, key, w));
    assert LandsEntries(AcceptEntries(Put(acc, key, w), rest), Put(acc, key, w), Nil, rest, true);
    NextLands(AcceptEntries(Put(acc, key, w), rest), acc, key, w, v, Nil, rest, first, true);
  }

  lemma ElementsComeBackStep(allow: bool, es: Entries, index: nat, size: nat)
    requires index < size
    ensures ElementsComeBack(allow, es, index, size) <==>
              && Returns(allow, Lookup(es, Index(index)))
              && (index + 1 == size || !allow ==> !Lookup(es, Index(index)).data.Null?)
              && ElementsComeBack(allow, es, index + 1, size)
    ensures ElementsComeBack(allow, es, size, size)
  {
  }

  lemma CanonElementsStep(lib: CLibrary, es: Entries, index: nat, size: nat)
    requires index < size
    ensures CanonElements(lib, es, index, size)
            == Cons(Index(index), CanonElement(lib, es, index), CanonElements(lib, es, index + 1, size))
    ensures CanonElements(lib, es, size, size) == Nil
  {
  }

  lemma {:induction false} ElementsSomehow(f: Features, lib: CLibrary, es: Entries, index: nat, acc: Entries,
                                           rest: seq<Lexeme>)
    requires AllReadable(lib, es, true)
    requires index < ArraySize(es) && AllBelow(acc, Index(index))
    ensures LandsEntries(ReadElements(f, lib, ElementsFrom(true, lib, CutAll(es), index, ArraySize(es), rest), acc,
                                      index), acc,
                         CanonElements(lib, es, index, ArraySize(es)), rest,
                             ElementsComeBack(f.allowDroppedNullPlaceholders, es, index, ArraySize(es)))
    decreases es, 2, ArraySize(es) - index
  {
    hide ReadValue, ReadElements, AllReadable, CanonElement, CanonElements, ElementTokens, ArraySize, Lookup, Put;
    hide Append, CutAll;
    hide Returns, ElementsComeBack, LandsEntries;
    var size := ArraySize(es);
    var ts := ElementsFrom(true, lib, CutAll(es), index, size, rest);
    var after := ElementsTokens(true, lib, CutAll(es), index + 1, size) + ([Punctuation(']')] + rest);
    ElementsComeBackStep(f.allowDroppedNullPlaceholders, es, index, size);
    CanonElementsStep(lib, es, index, size);
    if index + 1 == size {
      assert after == [Punctuation(']')] + rest && after[1..] == rest;
    } else {
      ElementsFromNext(true, lib, CutAll(es), index + 1, size, rest);
      assert after[1..] == ElementsFrom(true, lib, CutAll(es), index + 1, size, rest);
    }
    ElementSomehow(f, lib, es, index, after);
    var r := ReadValue(f, lib, ts);
    var v, first := CanonElement(lib, es, index),
        ComesBack(f.allowDroppedNullPlaceholders, Lookup(es, Index(index)), after);
    if r.Reject? {
      RejectedElement(f, lib, ts, acc, index);
      RejectLands(acc, CanonElements(lib, es, index, size), rest);
    } else {
      ElementStep(f, lib, ts, r.value, after, acc, index);
      if index + 1 == size {
        LastLands(acc, Index(index), r.value, v, rest, first);
      } else {
        AppendNext(acc, index, r.value, Nil);
        ElementsSomehow(f, lib, es, index + 1, Put(acc, Index(index), r.value), rest);
        NextLands(ReadElements(f, lib, after[1..], Put(acc, Index(index), r.value), index + 1), acc, Index(index),
                  r.value, v,
                  CanonElements(lib, es, index + 1, size), rest, first,
                      ElementsComeBack(f.allowDroppedNullPlaceholders, es, index + 1, size));
      }
    }
  }

  lemma RejectLands(acc: Entries, es: Entries, rest: seq<Lexeme>)
    ensures LandsEntries(RejectEntries, acc, es, rest, false)
  {
  }

  /** Only a null has no tokens, and no value starts with a closing bracket. */
  lemma TokensStart(lib: CLibrary, v: Value)
    requires Readable(lib, v) && !v.data.Null?
    ensures TokensOf(true, lib, v) != []
    ensures TokensOf(true, lib, v)[0].kind != ArrayEnd
  {
    hide ElementsTokens, MembersTokens, ScalarTokens;
    PrintsRealsParts(lib, v);
    if !IsContainer(v) {
      NotDropped(true, lib, v.data);
      ScalarReads(lib, v.data);
    }
  }

  lemma {:induction false} ArraySomehow(f: Features, lib: CLibrary, v: Value, after: seq<Lexeme>)
    requires Readable(lib, v) && v.data.Arr? && Ends(after)
    ensures Lands(ReadValue(f, lib, TokensOf(true, lib, Cut(v)) + after), Canon(lib, v), after,
                  ComesBack(f.allowDroppedNullPlaceholders, v, after))
    decreases v.data, 3, 0
  {
    hide ReadValue, ReadArray, AllReadable, ElementsTokens, CanonElements, Returns, ElementsComeBack, ArraySize, CutAll;
    ReadableParts(lib, v);
    var es := v.data.elems;
    if ArraySize(es) > MAX_INT {
      CutArrayLands(f, lib, v, after);
    } else {
      CutKeepsSize(es);
      var body := ElementsTokens(true, lib, CutAll(es), 0, ArraySize(es));
      ContainerTokens('[', body, ']', after);
      ArrayEntriesSomehow(f, lib, es, after);
      ArrayGood(f.allowDroppedNullPlaceholders, lib, v);
      var r := ReadArray(f, lib, body + ([Punctuation(']')] + after));
      if r.AcceptEntries? {
        OpensArray(f, lib, body + ([Punctuation(']')] + after));
        NothingBefore(r, CanonElements(lib, es, 0, ArraySize(es)), after,
                      ElementsComeBack(f.allowDroppedNullPlaceholders, es, 0, ArraySize(es)));
      } else {
        OpensNoArray(f, lib, body + ([Punctuation(']')] + after));
      }
    }
  }

  /** An array that is cut reads as the empty array. */
  lemma CutArrayLands(f: Features, lib: CLibrary, v: Value, after: seq<Lexeme>)
    requires v.data.Arr? && ArraySize(v.data.elems) > MAX_INT
    ensures Lands(ReadValue(f, lib, TokensOf(true, lib, Cut(v)) + after), Canon(lib, v), after,
                  ComesBack(f.allowDroppedNullPlaceholders, v, after))
  {
    hide ReadValue, ReadElements, CanonElements, CutAll;
    var closing := [Punctuation(']')] + after;
    assert TokensOf(true, lib, Cut(v)) + after == [Punctuation('[')] + closing;
    assert closing[1..] == after;
    OpensArray(f, lib, closing);
    CutCanonSize(lib, v.data.elems);
  }

  lemma OpensNoArray(f: Features, lib: CLibrary, ts: seq<Lexeme>)
    requires ReadArray(f, lib, ts).RejectEntries?
    ensures ReadValue(f, lib, [Punctuation('[')] + ts) == Reject
  {
    hide ReadArray, ReadMembers;
    var us := [Punctuation('[')] + ts;
    assert ValueTexts(f, us) == us && us[1..] == ts;
  }

  lemma OpensNoObject(f: Features, lib: CLibrary, ts: seq<Lexeme>)
    requires ReadMembers(f, lib, ts, Nil, "").RejectEntries?
    ensures ReadValue(f, lib, [Punctuation('{')] + ts) == Reject
  {
    hide ReadArray, ReadMembers;
    var us := [Punctuation('{')] + ts;
    assert ValueTexts(f, us) == us && us[1..] == ts;
  }

  lemma NothingBefore(r: Entering, es: Entries, rest: seq<Lexeme>, good: bool)
    requires r.AcceptEntries? && LandsEntries(r, Nil, es, rest, good)
    ensures r.rest == rest && (r.entries == es <==> good)
  {
    var more :| r.entries == Append(Nil, more) && (more == es <==> good);
  }

  lemma {:induction false} ArrayEntriesSomehow(f: Features, lib: CLibrary, es: Entries, rest: seq<Lexeme>)
    requires AllReadable(lib, es, true)
    ensures LandsEntries(ReadArray(f, lib, ElementsTokens(true, lib, CutAll(es), 0, ArraySize(es)) + ([Punctuation(']')]
            + rest)), Nil,
                         CanonElements(lib, es, 0, ArraySize(es)), rest,
                             ElementsComeBack(f.allowDroppedNullPlaceholders, es, 0, ArraySize(es)))
    decreases es, 3, 0
  {
    hide ReadElements, AllReadable, ElementTokens, CanonElement, ArraySize, Lookup, Returns, ElementsFrom, CutAll;
    var size := ArraySize(es);
    var ts := ElementsTokens(true, lib, CutAll(es), 0, size) + ([Punctuation(']')] + rest);
    if size == 0 {
      assert ts[1..] == rest;
      assert Nil == Append(Nil, Nil);
    } else {
      ElementsFromFirst(true, lib, CutAll(es), size, rest);
      ElementsSomehow(f, lib, es, 0, Nil, rest);
      CutIsReadableArray(lib, es);
      CutKeepsNull(es, Index(0));
      StartsClosed(lib, CutAll(es), size, rest);
      if ts[0].kind == ArrayEnd {
        CanonElementsStep(lib, es, 0, size);
        ElementsComeBackStep(f.allowDroppedNullPlaceholders, es, 0, size);
        assert Nil == Append(Nil, Nil);
      }
    }
  }

  lemma CutIsReadableArray(lib: CLibrary, es: Entries)
    requires AllReadable(lib, es, true)
    ensures AllReadable(lib, CutAll(es), true)
  {
    hide CutAll, WellFormedAll, AllHaveBuffers, AllPrintReals;
    CutAllIsWellFormed(es, true);
    CutAllHaveBuffers(es);
    CutAllPrintReals(lib, es);
  }

  lemma CutKeepsNull(es: Entries, key: Key)
    ensures Lookup(CutAll(es), key).data.Null? <==> Lookup(es, key).data.Null?
  {
    hide CutAll;
    FindCut(es, key);
  }

  /** Elements that start with the closing bracket are a single null. */
  lemma StartsClosed(lib: CLibrary, es: Entries, size: nat, rest: seq<Lexeme>)
    requires size > 0 && AllReadable(lib, es, true)
    ensures var ts := ElementsFrom(true, lib, es, 0, size, rest);
            && ts != []
            && (ts[0].kind == ArrayEnd ==> size == 1 && Lookup(es, Index(0)).data.Null? && ts[1..] == rest)
  {
    hide AllReadable, Readable, TokensOf;
    var ts := ElementsFrom(true, lib, es, 0, size, rest);
    var after := ElementsTokens(true, lib, es, 1, size) + ([Punctuation(']')] + rest);
    FoundIsReadable(lib, es, Index(0));
    if Lookup(es, Index(0)).data.Null? {
      NullTokens(true, lib, Lookup(es, Index(0)));
      assert ElementTokens(true, lib, es, 0) == [];
      assert ts == after;
      if size == 1 {
        assert after == [Punctuation(']')] + rest && after[1..] == rest;
      } else {
        ElementsFromNext(true, lib, es, 1, size, rest);
      }
    } else {
      TokensStart(lib, Lookup(es, Index(0)));
      assert ts[0] == TokensOf(true, lib, Lookup(es, Index(0)))[0];
    }
  }

  // ---------------------------------------------------------------- by index and by entry

  lemma {:induction false} GoodElement(allow: bool, es: Entries, index: nat)
    requires AllReturn(allow, es)
    ensures Returns(allow, Lookup(es, Index(index)))
  {
    if Find(es, Index(index)).Some? {
      FoundReturns(allow, es, Index(index));
    }
  }

  lemma {:induction false} NoGapsFound(es: Entries, first: nat, index: nat)
    requires NoGaps(es, first) && NoNulls(es) && first <= index < ArraySize(es)
    ensures !Lookup(es, Index(index)).data.Null?
    decreases es
  {
    if es.Cons? && es.rest.Cons? && first < index {
      NoGapsFound(es.rest, first + 1, index);
      assert Find(es, Index(index)) == Find(es.rest, Index(index));
    }
  }

  lemma {:induction false} GoodElements(allow: bool, es: Entries, index: nat)
    requires Sorted(es) && WellFormedAll(es, true) && AllReturn(allow, es) && LastIsKept(es)
             && index <= ArraySize(es)
    requires allow || (NoNulls(es) && NoGaps(es, 0))
    ensures ElementsComeBack(allow, es, index, ArraySize(es))
    decreases ArraySize(es) - index
  {
    hide Returns, AllReturn, WellFormedAll, Sorted, LastIsKept, ArraySize, Lookup, NoNulls, NoGaps;
    if index < ArraySize(es) {
      GoodElement(allow, es, index);
      GoodElements(allow, es, index + 1);
      if !allow {
        NoGapsFound(es, 0, index);
      } else if index + 1 == ArraySize(es) {
        SizedIsNotEmpty(es);
        LastEntry(es);
        LookupFound(es, Index(index));
      }
    }
  }

  lemma SizedIsNotEmpty(es: Entries)
    ensures ArraySize(es) > 0 ==> es.Cons?
  {
  }

  lemma LookupFound(es: Entries, key: Key)
    ensures Find(es, key).Some? ==> Lookup(es, key) == Find(es, key).value
    ensures Find(es, key).None? ==> Lookup(es, key).data.Null?
  {
  }

  lemma {:induction false} ElementOfAll(allow: bool, es: Entries, index: nat, size: nat, i: nat)
    requires ElementsComeBack(allow, es, index, size) && index <= i < size
    ensures Returns(allow, Lookup(es, Index(i))) && (i + 1 == size || !allow ==> !Lookup(es, Index(i)).data.Null?)
    decreases i - index
  {
    hide Returns, Lookup;
    if index < i {
      ElementOfAll(allow, es, index + 1, size, i);
    }
  }

  lemma {:induction false} BadEntry(allow: bool, es: Entries) returns (v: Value)
    requires !AllReturn(allow, es)
    ensures Holds(es, v) && !Returns(allow, v)
  {
    hide Returns;
    if !Returns(allow, es.value) {
      v := es.value;
    } else {
      v := BadEntry(allow, es.rest);
    }
  }

  /** The last entry of an ordered array is the one with the highest index. */
  lemma {:induction false} LastEntry(es: Entries)
    requires Sorted(es) && WellFormedAll(es, true) && es.Cons?
    ensures es.key.i < ArraySize(es)
    ensures Find(es, Index(ArraySize(es) - 1)).Some?
    ensures LastIsKept(es) <==> !Find(es, Index(ArraySize(es) - 1)).value.data.Null?
    decreases es
  {
    if es.rest.Cons? {
      LastEntry(es.rest);
    }
  }

  /** If every index from `first` on is found and not null, the entries have neither gaps nor nulls. */
  lemma {:induction false} FoundEverywhere(es: Entries, first: nat)
    requires Sorted(es) && WellFormedAll(es, true) && (es.Cons? ==> first <= es.key.i)
    requires forall i: nat :: first <= i < ArraySize(es) ==> !Lookup(es, Index(i)).data.Null?
    ensures NoNulls(es) && NoGaps(es, first)
    decreases es
  {
    if es.Cons? {
      BelowSize(es);
      FoundFirst(es, first);
      forall i: nat | first + 1 <= i < ArraySize(es.rest) ensures !Lookup(es.rest, Index(i)).data.Null? {
        assert es.rest.Cons? && ArraySize(es.rest) == ArraySize(es);
        assert Find(es, Index(i)) == Find(es.rest, Index(i));
      }
      FoundEverywhere(es.rest, first + 1);
    }
  }

  lemma FoundFirst(es: Entries, first: nat)
    requires Sorted(es) && WellFormedAll(es, true) && es.Cons? && first <= es.key.i
    requires !Lookup(es, Index(first)).data.Null?
    ensures es.key == Index(first) && !es.value.data.Null?
    ensures es.rest.Cons? ==> first + 1 <= es.rest.key.i
  {
    if first < es.key.i {
      AbsentBelow(es, first);
    }
  }

  lemma AbsentBelow(es: Entries, index: nat)
    requires Sorted(es) && es.Cons? && es.key.Index? && index < es.key.i
    ensures Lookup(es, Index(index)) == NULL_VALUE
  {
    NotFoundBelow(es.key, es.rest, Index(index));
    assert Find(es, Index(index)) == Find(es.rest, Index(index));
  }

  lemma ArrayGood(allow: bool, lib: CLibrary, v: Value)
    requires Readable(lib, v) && v.data.Arr? && ArraySize(v.data.elems) <= MAX_INT
    ensures Returns(allow, v) <==> ElementsComeBack(allow, v.data.elems, 0, ArraySize(v.data.elems))
  {
    hide AllPrintReals, AllHaveBuffers;
    var es := v.data.elems;
    if Returns(allow, v) {
      GoodElements(allow, es, 0);
    }
    if ElementsComeBack(allow, es, 0, ArraySize(es)) {
      GoodEntries(allow, es);
    }
  }

  lemma GoodEntries(allow: bool, es: Entries)
    requires Sorted(es) && WellFormedAll(es, true) && ElementsComeBack(allow, es, 0, ArraySize(es))
    ensures LastIsKept(es) && AllReturn(allow, es) && (allow || (NoNulls(es) && NoGaps(es, 0)))
  {
    hide Returns, ElementsComeBack, NoNulls, NoGaps;
    if !AllReturn(allow, es) {
      var bad := BadEntry(allow, es);
      var i := EntryIsFound(es, bad);
      ElementOfAll(allow, es, 0, ArraySize(es), i);
    }
    if es.Cons? {
      LastEntry(es);
      ElementOfAll(allow, es, 0, ArraySize(es), ArraySize(es) - 1);
    }
    if !allow {
      forall i: nat | i < ArraySize(es) ensures !Lookup(es, Index(i)).data.Null? {
        ElementOfAll(allow, es, 0, ArraySize(es), i);
      }
      FoundEverywhere(es, 0);
    }
  }

  // ---------------------------------------------------------------- members

  ghost predicate MembersComeBack(allow: bool, es: Entries) {
    es.Cons? ==>
      && Returns(allow, es.value)
      && (es.rest.Nil? || !allow ==> !es.value.data.Null?)
      && MembersComeBack(allow, es.rest)
  }

  lemma {:induction false} MembersGood(allow: bool, es: Entries)
    ensures MembersComeBack(allow, es) <==> AllReturn(allow, es) && LastIsKept(es) && (allow || NoNulls(es))
  {
    if es.Cons? {
      MembersGood(allow, es.rest);
      assert LastIsKept(es) == if es.rest.Nil? then !es.value.data.Null? else LastIsKept(es.rest);
      assert NoNulls(es) == (!es.value.data.Null? && NoNulls(es.rest));
    }
  }

  lemma {:induction false} MembersSomehow(f: Features, lib: CLibrary, es: Entries, acc: Entries, last: string,
                                          rest: seq<Lexeme>)
    requires Sorted(es) && AllReadable(lib, es, false)
    requires es.Cons? && AllBelow(acc, es.key)
    ensures LandsEntries(ReadMembers(f, lib, MembersFrom(true, lib, CutAll(es), rest), acc, last), acc,
                         CanonMembers(lib, es), rest, MembersComeBack(f.allowDroppedNullPlaceholders, es))
    decreases es, 2, 0
  {
    hide ReadValue, ReadMembers, AfterMemberTexts, Put, Append, TokensOf, MemberTokens, Canon, Returns;
    hide LandsEntries, WellFormed, HasBuffers, PrintsReals, Cut;
    var after := MembersTokens(true, lib, CutAll(es.rest), false) + ([Punctuation('}')] + rest);
    var v, first := Canon(lib, es.value), ComesBack(f.allowDroppedNullPlaceholders, es.value, after);
    if es.rest.Nil? {
      assert after == [Punctuation('}')] + rest && after[1..] == rest;
    } else {
      MembersFromNext(true, lib, CutAll(es.rest), rest);
      assert after[1..] == MembersFrom(true, lib, CutAll(es.rest), rest);
    }
    ReadsSomehow(f, lib, es.value, after);
    MemberReads(f, lib, true, es.key, Cut(es.value), after, acc, last);
    var r := ReadValue(f, lib, TokensOf(true, lib, Cut(es.value)) + after);
    if r.Reject? {
      RejectLands(acc, CanonMembers(lib, es), rest);
    } else {
      var acc' := Put(acc, es.key, r.value);
      AfterMemberStep(f, lib, after, acc', es.key.s);
      if es.rest.Nil? {
        LastLands(acc, es.key, r.value, v, rest, first);
      } else {
        AppendMember(acc, es.key, r.value, es.rest, Nil);
        MembersSomehow(f, lib, es.rest, acc', es.key.s, rest);
        NextLands(ReadMembers(f, lib, after[1..], acc', es.key.s), acc, es.key, r.value, v,
                  CanonMembers(lib, es.rest), rest, first, MembersComeBack(f.allowDroppedNullPlaceholders, es.rest));
      }
    }
  }

  lemma {:induction false} ObjectSomehow(f: Features, lib: CLibrary, v: Value, after: seq<Lexeme>)
    requires Readable(lib, v) && v.data.Obj? && Ends(after)
    ensures Lands(ReadValue(f, lib, TokensOf(true, lib, Cut(v)) + after), Canon(lib, v), after,
                  ComesBack(f.allowDroppedNullPlaceholders, v, after))
    decreases v.data, 3, 0
  {
    hide ReadValue, ReadMembers, AllReadable, MembersTokens, CanonMembers, MembersComeBack, AllReturn, LastIsKept;
    hide NoNulls, CutAll;
    ReadableParts(lib, v);
    var es := v.data.members;
    var body := MembersTokens(true, lib, CutAll(es), true);
    ContainerTokens('{', body, '}', after);
    MembersGood(f.allowDroppedNullPlaceholders, es);
    ObjectEntriesSomehow(f, lib, es, after);
    var r := ReadMembers(f, lib, body + ([Punctuation('}')] + after), Nil, "");
    if r.AcceptEntries? {
      OpensObject(f, lib, body + ([Punctuation('}')] + after));
      NothingBefore(r, CanonMembers(lib, es), after, MembersComeBack(f.allowDroppedNullPlaceholders, es));
    } else {
      OpensNoObject(f, lib, body + ([Punctuation('}')] + after));
    }
  }

  lemma {:induction false} ObjectEntriesSomehow(f: Features, lib: CLibrary, es: Entries, rest: seq<Lexeme>)
    requires Sorted(es) && AllReadable(lib, es, false)
    ensures LandsEntries(ReadMembers(f, lib, MembersTokens(true, lib, CutAll(es), true) + ([Punctuation('}')] + rest),
                         Nil,
                         ""), Nil,
                         CanonMembers(lib, es), rest, MembersComeBack(f.allowDroppedNullPlaceholders, es))
    decreases es, 3, 0
  {
    hide AllReadable, MemberTokens, ReadValue, AfterMemberTexts, NameText, Returns, Canon;
    var ts := MembersTokens(true, lib, CutAll(es), true) + ([Punctuation('}')] + rest);
    if es.Nil? {
      assert ts[1..] == rest;
      assert Nil == Append(Nil, Nil);
    } else {
      assert ts == MembersFrom(true, lib, CutAll(es), rest);
      MembersSomehow(f, lib, es, Nil, "", rest);
    }
  }

  // ---------------------------------------------------------------- documents

  /**
   What `FastWriter` prints with nulls dropped is read back as the canonical tree exactly if the
   tree is not null, no string in it lacks a buffer, no array is larger than an `int` can say, no
   container ends with a null and, unless the reader allows dropped placeholders, no container
   holds a null or a gap; a strict reader takes containers only.
   */
  lemma DroppedRoundTripIff(f: Features, lib: CLibrary, o: FastOptions, v: Value, prev: Value)
    requires PrintsReals(lib, v) && WellFormed(v) && o.dropNulls
    ensures var r := ParseDocument(f, lib, FastDocument(o, lib, v), prev);
            r.ok && Erase(r.root) == Canon(lib, v) <==>
              && HasBuffers(v) && Returns(f.allowDroppedNullPlaceholders, v) && !v.data.Null?
              && (f.strictRoot ==> IsContainer(v))
  {
    hide ParseDocument, FastDocument, ReadValue, TokensOf, Texts, PrintsReals, WellFormed, HasBuffers, Returns, Canon;
    hide Cut, Erase;
    if HasBuffers(v) {
      FastDocumentTexts(o, lib, v);
      DocumentMatches(f, lib, FastDocument(o, lib, v), prev);
      ReadsSomehow(f, lib, v, []);
      assert TokensOf(true, lib, Cut(v)) + [] == TokensOf(true, lib, Cut(v));
      CanonKeepsContainer(lib, v);
    } else {
      NothingReadsAs(f, lib, FastDocument(o, lib, v), v, prev);
    }
  }
}
