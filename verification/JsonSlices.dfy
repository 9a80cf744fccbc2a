/**
 The offsets that the reader stores: after a successful parse the text between the two offsets
 of any node parses alone to that node, children lie strictly inside their parent, and
 siblings do not overlap. The exception is a dropped null, whose range is the character in front
 of the separator that stands for it.
 */
module JsonSlices {
  import opened JsonCutting
  import opened JsonGrammar
  import opened JsonLexer
  import opened JsonParser
  import opened JsonTool
  import opened JsonValue
  import opened Wrappers

  // ---------------------------------------------------------------- what follows a value does not matter

  /** `ts` with its last `n` tokens replaced. */
  function Swap(ts: seq<Lexeme>, n: nat, q: seq<Lexeme>): seq<Lexeme>
    requires n <= |ts|
  {
    ts[..|ts| - n] + q
  }

  /** `r` is what is left of `ts` after some tokens. */
  predicate IsSuffix(r: seq<Lexeme>, ts: seq<Lexeme>) {
    |r| <= |ts| && r == ts[|ts| - |r|..]
  }

  lemma SwapTail(ts: seq<Lexeme>, n: nat, q: seq<Lexeme>)
    requires n < |ts|
    ensures Swap(ts, n, q) != [] && Swap(ts, n, q)[0] == ts[0]
    ensures Swap(ts, n, q)[1..] == Swap(ts[1..], n, q)
  {
  }

  lemma SuffixStep(r: seq<Lexeme>, ts: seq<Lexeme>)
    requires ts != [] && IsSuffix(r, ts[1..])
    ensures IsSuffix(r, ts) && |r| < |ts|
  {
  }

  lemma SuffixTransitive(r: seq<Lexeme>, s: seq<Lexeme>, ts: seq<Lexeme>)
    requires IsSuffix(r, s) && IsSuffix(s, ts)
    ensures IsSuffix(r, ts)
  {
  }

  lemma {:induction false} DropCommentsSuffix(ts: seq<Lexeme>)
    ensures IsSuffix(DropComments(ts), ts)
  {
    if ts != [] && ts[0].kind == CommentToken {
      DropCommentsSuffix(ts[1..]);
    }
  }

  lemma {:induction false} DropCommentsSwap(ts: seq<Lexeme>, n: nat, q: seq<Lexeme>)
    requires n < |DropComments(ts)|
    ensures DropComments(Swap(ts, n, q)) == Swap(DropComments(ts), n, q)
  {
    SwapTail(ts, n, q);
    if ts[0].kind == CommentToken {
      DropCommentsSwap(ts[1..], n, q);
    }
  }

  /** The next value is a dropped null: a separator that is not taken. */
  predicate Drops(f: Features, ts: seq<Lexeme>) {
    var us := ValueTexts(f, ts);
    f.allowDroppedNullPlaceholders && us != [] && us[0].kind == ArraySeparator
  }

  /** A dropped null takes no token but comments, and is dropped before anything else behind its separator. */
  lemma DroppedIsLocal(f: Features, lib: CLibrary, ts: seq<Lexeme>, n: nat, q: seq<Lexeme>)
    requires Drops(f, ts) && n < |ValueTexts(f, ts)|
    ensures ReadValue(f, lib, ts) == Accept(Leaf(Null), ValueTexts(f, ts)) && IsSuffix(ValueTexts(f, ts), ts)
    ensures ReadValue(f, lib, Swap(ts, n, q)) == Accept(Leaf(Null), Swap(ValueTexts(f, ts), n, q))
  {
    hide DropComments, Scalar, ReadMembers, ReadArray, Swap;
    DropCommentsSuffix(ts);
    if f.allowComments {
      DropCommentsSwap(ts, n, q);
    }
    SwapTail(ValueTexts(f, ts), n, q);
  }

  /** A value that was read and not dropped takes at least one token, and reads the same before anything else. */
  lemma {:induction false} ValueIsLocal(f: Features, lib: CLibrary, ts: seq<Lexeme>, q: seq<Lexeme>)
    requires !Drops(f, ts) && ReadValue(f, lib, ts).Accept?
    ensures var r := ReadValue(f, lib, ts);
            && |r.rest| < |ts| && IsSuffix(r.rest, ts)
            && ReadValue(f, lib, Swap(ts, |r.rest|, q)) == Accept(r.value, q)
    decreases |ts|, 0
  {
    hide DropComments, Scalar, ReadMembers, ReadArray, Swap;
    var r := ReadValue(f, lib, ts);
    var us := ValueTexts(f, ts);
    DropCommentsSuffix(ts);
    if us[0].kind == ObjectBegin {
      MembersAreLocal(f, lib, us[1..], Nil, "", q);
    } else if us[0].kind == ArrayBegin {
      ArrayIsLocal(f, lib, us[1..], q);
    } else {
      WholeSwap(us[1..], q);
    }
    SuffixStep(r.rest, us);
    SuffixTransitive(r.rest, us, ts);
    if f.allowComments {
      DropCommentsSwap(ts, |r.rest|, q);
    }
    SwapTail(us, |r.rest|, q);
  }

  /** Whether dropped or not, a value reads the same if something changes behind the next token. */
  lemma {:induction false} ValueTail(f: Features, lib: CLibrary, ts: seq<Lexeme>, n: nat, q: seq<Lexeme>)
    requires ReadValue(f, lib, ts).Accept? && n < |ReadValue(f, lib, ts).rest|
    ensures var r := ReadValue(f, lib, ts);
            IsSuffix(r.rest, ts) && ReadValue(f, lib, Swap(ts, n, q)) == Accept(r.value, Swap(r.rest, n, q))
    decreases |ts|, 1
  {
    hide ReadValue, Drops, Swap;
    var r := ReadValue(f, lib, ts);
    if Drops(f, ts) {
      SeparatorIsLeft(f, lib, ts);
      DroppedIsLocal(f, lib, ts, n, q);
    } else {
      ValueIsLocal(f, lib, ts, Swap(r.rest, n, q));
      SwapSwap(ts, r.rest, n, q);
    }
  }

  lemma SeparatorIsLeft(f: Features, lib: CLibrary, ts: seq<Lexeme>)
    requires Drops(f, ts)
    ensures ReadValue(f, lib, ts) == Accept(Leaf(Null), ValueTexts(f, ts))
  {
    hide DropComments, ReadMembers, ReadArray;
  }

  lemma WholeSwap(ts: seq<Lexeme>, q: seq<Lexeme>)
    ensures Swap(ts, |ts|, q) == q && IsSuffix(ts, ts)
  {
  }

  lemma {:induction false} ArrayIsLocal(f: Features, lib: CLibrary, ts: seq<Lexeme>, q: seq<Lexeme>)
    requires ReadArray(f, lib, ts).AcceptEntries?
    ensures var r := ReadArray(f, lib, ts);
            && |r.rest| < |ts| && IsSuffix(r.rest, ts)
            && ReadArray(f, lib, Swap(ts, |r.rest|, q)) == AcceptEntries(r.entries, q)
    decreases |ts|, 3
  {
    hide ReadElements, Swap;
    var r := ReadArray(f, lib, ts);
    if ts != [] && ts[0].kind == ArrayEnd {
      WholeSwap(ts[1..], q);
      SuffixStep(r.rest, ts);
    } else {
      ElementsAreLocal(f, lib, ts, Nil, 0, q);
    }
    SwapTail(ts, |r.rest|, q);
  }

  lemma {:induction false} ElementsAreLocal(f: Features, lib: CLibrary, ts: seq<Lexeme>, entries: Entries, index: nat,
                                            q: seq<Lexeme>)
    requires ReadElements(f, lib, ts, entries, index).AcceptEntries?
    ensures var r := ReadElements(f, lib, ts, entries, index);
            && |r.rest| < |ts| && IsSuffix(r.rest, ts)
            && ReadElements(f, lib, Swap(ts, |r.rest|, q), entries, index) == AcceptEntries(r.entries, q)
    decreases |ts|, 2
  {
    hide ReadValue, DropComments, Swap, Put;
    var r := ReadElements(f, lib, ts, entries, index);
    var v := ReadValue(f, lib, ts);
    var us := DropComments(v.rest);
    DropCommentsSuffix(v.rest);
    ValueTail(f, lib, ts, 0, q);
    if us[0].kind == ArrayEnd {
      WholeSwap(us[1..], q);
    } else {
      ElementsAreLocal(f, lib, us[1..], Put(entries, Index(index), v.value), index + 1, q);
    }
    SuffixStep(r.rest, us);
    SuffixTransitive(r.rest, us, v.rest);
    SuffixTransitive(r.rest, v.rest, ts);
    ValueTail(f, lib, ts, |r.rest|, q);
    DropCommentsSwap(v.rest, |r.rest|, q);
    SwapTail(us, |r.rest|, q);
  }

  /** Replacing a tail of a tail */
  lemma SwapSwap(ts: seq<Lexeme>, s: seq<Lexeme>, n: nat, q: seq<Lexeme>)
    requires IsSuffix(s, ts) && n <= |s|
    ensures Swap(ts, |s|, Swap(s, n, q)) == Swap(ts, n, q)
  {
    assert ts[..|ts| - n] == ts[..|ts| - |s|] + s[..|s| - n];
  }

  lemma {:induction false} MembersAreLocal(f: Features, lib: CLibrary, ts: seq<Lexeme>, entries: Entries, last: string,
                                           q: seq<Lexeme>)
    requires ReadMembers(f, lib, ts, entries, last).AcceptEntries?
    ensures var r := ReadMembers(f, lib, ts, entries, last);
            && |r.rest| < |ts| && IsSuffix(r.rest, ts)
            && ReadMembers(f, lib, Swap(ts, |r.rest|, q), entries, last) == AcceptEntries(r.entries, q)
    decreases |ts|, 2
  {
    hide ReadValue, DropComments, NameText, AfterMemberTexts, Swap, Put;
    var r := ReadMembers(f, lib, ts, entries, last);
    var us := DropComments(ts);
    DropCommentsSuffix(ts);
    if us[0].kind == ObjectEnd && last == "" {
      WholeSwap(us[1..], q);
      SuffixStep(r.rest, us);
    } else {
      var name := NameText(f, lib, us[0]).value;
      var v := ReadValue(f, lib, us[2..]);
      AfterMemberIsLocal(f, lib, v.rest, Put(entries, MemberKey(name), v.value), name, q);
      ValueTail(f, lib, us[2..], |r.rest|, q);
      SuffixTransitive(r.rest, v.rest, us[2..]);
      assert us[1..][1..] == us[2..];
      SuffixStep(r.rest, us[1..]);
      SuffixStep(r.rest, us);
      SwapTail(us[1..], |r.rest|, q);
      SwapTwo(us, |r.rest|, q);
    }
    SuffixTransitive(r.rest, us, ts);
    DropCommentsSwap(ts, |r.rest|, q);
    SwapTail(us, |r.rest|, q);
  }

  lemma SwapTwo(ts: seq<Lexeme>, n: nat, q: seq<Lexeme>)
    requires n + 2 <= |ts|
    ensures |Swap(ts, n, q)| >= 2 && Swap(ts, n, q)[1] == ts[1] && Swap(ts, n, q)[2..] == Swap(ts[2..], n, q)
  {
  }

  lemma {:induction false} AfterMemberIsLocal(f: Features, lib: CLibrary, ts: seq<Lexeme>, entries: Entries,
                                              name: string, q: seq<Lexeme>)
    requires AfterMemberTexts(f, lib, ts, entries, name).AcceptEntries?
    ensures var r := AfterMemberTexts(f, lib, ts, entries, name);
            && |r.rest| < |ts| && IsSuffix(r.rest, ts)
            && AfterMemberTexts(f, lib, Swap(ts, |r.rest|, q), entries, name) == AcceptEntries(r.entries, q)
    decreases |ts|, 3
  {
    hide ReadMembers, DropComments, Swap;
    var r := AfterMemberTexts(f, lib, ts, entries, name);
    var us := DropComments(ts);
    DropCommentsSuffix(ts);
    if us[0].kind == ObjectEnd {
      WholeSwap(us[1..], q);
    } else {
      MembersAreLocal(f, lib, us[1..], entries, name, q);
    }
    SuffixStep(r.rest, us);
    SuffixTransitive(r.rest, us, ts);
    DropCommentsSwap(ts, |r.rest|, q);
    SwapTail(us, |r.rest|, q);
    SwapTail(ts, |r.rest|, q);
  }

  // ---------------------------------------------------------------- ranges

  /** A null that was dropped: its range is the character in front of its separator, or wraps at the start. */
  predicate IsDropped(f: Features, doc: string, v: Value) {
    && f.allowDroppedNullPlaceholders && v.data.Null? && v.limit < |doc| && doc[v.limit] == ','
    && v.start == OffsetBefore(v.limit)
  }

  /** A dropped null may reach one character further to the front. */
  ghost predicate Inside(f: Features, doc: string, v: Value, lo: nat, hi: nat) {
    v.start < v.limit <= hi && (lo <= v.start || (IsDropped(f, doc, v) && lo == v.start + 1))
  }

  ghost predicate AllInside(f: Features, doc: string, es: Entries, lo: nat, hi: nat)
    decreases es
  {
    match es
    case Nil => true
    case Cons(_, v, rest) => Inside(f, doc, v, lo, hi) && AllInside(f, doc, rest, lo, hi)
  }

  /** The range of `v` shares no character with that of any entry. */
  ghost predicate Apart(v: Value, es: Entries)
    decreases es
  {
    match es
    case Nil => true
    case Cons(_, w, rest) => (v.limit <= w.start || w.limit <= v.start) && Apart(v, rest)
  }

  ghost predicate Disjoint(es: Entries) {
    match es
    case Nil => true
    case Cons(_, v, rest) => Apart(v, rest) && Disjoint(rest)
  }

  /** The slice of a node holds that node and nothing else. */
  ghost predicate ReadsAlone(f: Features, lib: CLibrary, doc: string, v: Value)
    requires v.start <= v.limit <= |doc|
  {
    ReadValue(f, lib, Texts(doc[v.start..v.limit])) == Accept(Erase(v), [])
  }

  /** Every node at every depth: its slice, and where it lies between its parent and siblings. */
  ghost predicate Tiled(f: Features, lib: CLibrary, doc: string, v: Value) {
    || IsDropped(f, doc, v)
    || (&& v.start < v.limit <= |doc|
        && ReadsAlone(f, lib, doc, v)
        && match v.data
           case Arr(es) => AllInside(f, doc, es, v.start + 1, v.limit - 1) && Disjoint(es) && AllTiled(f, lib, doc, es)
           case Obj(es) => AllInside(f, doc, es, v.start + 1, v.limit - 1) && Disjoint(es) && AllTiled(f, lib, doc, es)
           case _ => true)
  }

  ghost predicate AllTiled(f: Features, lib: CLibrary, doc: string, es: Entries) {
    match es
    case Nil => true
    case Cons(_, v, rest) => Tiled(f, lib, doc, v) && AllTiled(f, lib, doc, rest)
  }

  /** Entries between two positions */
  ghost predicate Between(f: Features, lib: CLibrary, doc: string, es: Entries, lo: nat, hi: nat) {
    AllInside(f, doc, es, lo, hi) && Disjoint(es) && AllTiled(f, lib, doc, es)
  }

  lemma {:induction false} InsideWeaken(f: Features, doc: string, es: Entries, lo: nat, hi: nat, lo': nat, hi': nat)
    requires AllInside(f, doc, es, lo, hi) && lo' <= lo && hi <= hi'
    ensures AllInside(f, doc, es, lo', hi')
    decreases es
  {
    if es.Cons? {
      InsideWeaken(f, doc, es.rest, lo, hi, lo', hi');
    }
  }

  lemma {:induction false} PutInside(f: Features, doc: string, es: Entries, key: Key, v: Value, lo: nat, hi: nat)
    requires AllInside(f, doc, es, lo, hi) && Inside(f, doc, v, lo, hi)
    ensures AllInside(f, doc, Put(es, key, v), lo, hi)
    decreases es
  {
    if es.Cons? && es.key != key && !KeyLess(key, es.key) {
      PutInside(f, doc, es.rest, key, v, lo, hi);
    }
  }

  lemma {:induction false} PutApart(w: Value, es: Entries, key: Key, v: Value)
    requires Apart(w, es) && (w.limit <= v.start || v.limit <= w.start)
    ensures Apart(w, Put(es, key, v))
    decreases es
  {
    if es.Cons? && es.key != key && !KeyLess(key, es.key) {
      PutApart(w, es.rest, key, v);
    }
  }

  lemma {:induction false} BeforeIsApart(f: Features, doc: string, v: Value, es: Entries, lo: nat, hi: nat)
    requires AllInside(f, doc, es, lo, hi) && hi <= v.start
    ensures Apart(v, es)
    decreases es
  {
    if es.Cons? {
      BeforeIsApart(f, doc, v, es.rest, lo, hi);
    }
  }

  lemma {:induction false} PutDisjoint(f: Features, doc: string, es: Entries, key: Key, v: Value, lo: nat, hi: nat)
    requires AllInside(f, doc, es, lo, hi) && Disjoint(es) && hi <= v.start
    ensures Disjoint(Put(es, key, v))
    decreases es
  {
    BeforeIsApart(f, doc, v, es, lo, hi);
    if es.Cons? && es.key != key && !KeyLess(key, es.key) {
      PutDisjoint(f, doc, es.rest, key, v, lo, hi);
      PutApart(es.value, es.rest, key, v);
    }
  }

  lemma {:induction false} PutTiled(f: Features, lib: CLibrary, doc: string, es: Entries, key: Key, v: Value)
    requires AllTiled(f, lib, doc, es) && Tiled(f, lib, doc, v)
    ensures AllTiled(f, lib, doc, Put(es, key, v))
    decreases es
  {
    if es.Cons? && es.key != key && !KeyLess(key, es.key) {
      PutTiled(f, lib, doc, es.rest, key, v);
    }
  }

  /** Storing a node that was read after all others; it may replace one with the same name. */
  lemma PutBetween(f: Features, lib: CLibrary, doc: string, es: Entries, key: Key, v: Value, lo: nat, mid: nat, hi: nat)
    requires Between(f, lib, doc, es, lo, mid) && Inside(f, doc, v, lo, hi) && Tiled(f, lib, doc, v)
    requires es == Nil || mid <= v.start
    ensures Between(f, lib, doc, Put(es, key, v), lo, hi)
  {
    hide IsDropped;
    if es.Cons? {
      InsideWeaken(f, doc, es, lo, mid, lo, hi);
      PutDisjoint(f, doc, es, key, v, lo, mid);
    }
    PutInside(f, doc, es, key, v, lo, hi);
    PutTiled(f, lib, doc, es, key, v);
  }

  // ---------------------------------------------------------------- the reader

  lemma {:induction false} DropCommentsTwice(ts: seq<Lexeme>)
    ensures DropComments(DropComments(ts)) == DropComments(ts)
  {
    if ts != [] && ts[0].kind == CommentToken {
      DropCommentsTwice(ts[1..]);
    }
  }

  lemma ReadFromToken(f: Features, lib: CLibrary, ts: seq<Lexeme>)
    ensures ReadValue(f, lib, ValueTexts(f, ts)) == ReadValue(f, lib, ts)
  {
    hide DropComments;
    DropCommentsTwice(ts);
  }

  /** The value at a position is a dropped null. */
  predicate DropsAt(f: Features, doc: string, cur: nat)
    requires cur <= |doc|
  {
    f.allowDroppedNullPlaceholders && ValueToken(f, doc, cur).kind == ArraySeparator
  }

  lemma DropsHere(f: Features, doc: string, cur: nat, start: nat)
    requires cur <= |doc| && start <= |doc| && TextsAt(doc, start) == ValueTexts(f, TextsAt(doc, cur))
    ensures DropsAt(f, doc, cur) <==> Drops(f, TextsAt(doc, start))
  {
    hide Texts, ValueToken, DropComments, TextsAt;
    ValueTokenHeads(f, doc, cur);
    DropCommentsTwice(TextsAt(doc, cur));
  }

  /** A value that spans whole tokens can be read from its slice. */
  lemma SliceReads(f: Features, lib: CLibrary, doc: string, cur: nat, prev: Value)
    requires cur <= |doc| && !DropsAt(f, doc, cur) && ParseValue(f, lib, doc, cur, prev).ok
    requires var r := ParseValue(f, lib, doc, cur, prev);
             r.value.start == ValueToken(f, doc, cur).start && r.value.limit == r.cur
    requires Steps(doc, ValueToken(f, doc, cur).start, ParseValue(f, lib, doc, cur, prev).cur)
    ensures ParseValue(f, lib, doc, cur, prev).value.start <= ParseValue(f, lib, doc, cur, prev).cur
    ensures ReadsAlone(f, lib, doc, ParseValue(f, lib, doc, cur, prev).value)
  {
    hide ParseValue, ReadValue, ValueToken, ValueTexts, Texts, Erase, Steps, DropsAt, Drops;
    var r := ParseValue(f, lib, doc, cur, prev);
    var ts := TextsAt(doc, r.value.start);
    ValueMatches(f, lib, doc, cur, prev);
    ValueTokenHeads(f, doc, cur);
    ReadFromToken(f, lib, TextsAt(doc, cur));
    if ValueTexts(f, TextsAt(doc, cur)) == [] {
      ReadsNothing(f, lib);
    }
    DropsHere(f, doc, cur, r.value.start);
    ValueIsLocal(f, lib, ts, []);
    TextsSplit(doc, r.value.start, r.cur);
    assert Swap(ts, |TextsAt(doc, r.cur)|, []) == Texts(doc[r.value.start..r.cur]);
  }

  lemma ReadsNothing(f: Features, lib: CLibrary)
    ensures ReadValue(f, lib, []) == Reject
  {
  }

  lemma StepsValueToken(f: Features, doc: string, cur: nat)
    requires cur <= |doc|
    ensures var t := ValueToken(f, doc, cur);
            t.start < t.limit ==> Steps(doc, cur, t.limit) && Steps(doc, t.start, t.limit)
  {
    hide Next, NonComment;
    var t := ValueToken(f, doc, cur);
    StepsNonComment(doc, cur);
    NextTrimmed(doc, cur);
    if t.start < t.limit {
      StepsNext(doc, t.start);
      if !f.allowComments {
        StepsNext(doc, cur);
      }
    }
  }

  /**
   The range of a value that was read starts at its first token and ends where reading stopped. For
   a dropped null reading stops in front of the separator, which is the next token.
   */
  lemma {:induction false} ValueTiles(f: Features, lib: CLibrary, doc: string, cur: nat, prev: Value)
    requires cur <= |doc| && ParseValue(f, lib, doc, cur, prev).ok
    ensures var r := ParseValue(f, lib, doc, cur, prev);
            && Tiled(f, lib, doc, r.value)
            && if DropsAt(f, doc, cur) then
                 && IsDropped(f, doc, r.value) && cur <= r.value.limit == r.cur
                 && Next(doc, r.cur) == ValueToken(f, doc, cur) && Steps(doc, cur, ValueToken(f, doc, cur).limit)
               else
                 Steps(doc, cur, r.cur) && cur <= r.value.start < r.value.limit == r.cur
    decreases |doc| - cur, 0
  {
    hide ParseMembers, ParseArray, ParseScalar, ValueToken, Steps, ReadsAlone, AllTiled, IsDropped;
    var t := ValueToken(f, doc, cur);
    var r := ParseValue(f, lib, doc, cur, prev);
    StepsValueToken(f, doc, cur);
    if DropsAt(f, doc, cur) {
      DroppedTiles(f, lib, doc, cur, prev);
    } else {
      if t.kind == ObjectBegin {
        EmptyBetween(f, lib, doc, t.limit, t.limit);
        MembersTile(f, lib, doc, t.limit, Nil, "", t.limit);
        InsideWeaken(f, doc, r.value.data.members, t.limit, r.cur - 1, t.start + 1, r.cur - 1);
      } else if t.kind == ArrayBegin {
        ArrayTiles(f, lib, doc, t.limit);
        InsideWeaken(f, doc, r.value.data.elems, t.limit, r.cur - 1, t.start + 1, r.cur - 1);
      } else {
        ScalarIsLeaf(f, lib, doc, t, prev);
        StepsNowhere(doc, t.limit);
      }
      StepsTransitive(doc, cur, t.limit, r.cur);
      StepsTransitive(doc, t.start, t.limit, r.cur);
      SliceReads(f, lib, doc, cur, prev);
    }
  }

  lemma TokenAgain(f: Features, doc: string, cur: nat)
    requires cur <= |doc|
    ensures Next(doc, ValueToken(f, doc, cur).start) == ValueToken(f, doc, cur)
  {
    hide Next, NonComment;
    NextTrimmed(doc, cur);
    StepsNonComment(doc, cur);
  }

  lemma DroppedTiles(f: Features, lib: CLibrary, doc: string, cur: nat, prev: Value)
    requires cur <= |doc| && DropsAt(f, doc, cur)
    ensures var r, t := ParseValue(f, lib, doc, cur, prev), ValueToken(f, doc, cur);
            && r.ok && r.cur == r.value.limit == t.start && IsDropped(f, doc, r.value)
            && Next(doc, t.start) == t
  {
    hide Next, ValueToken, ParseScalar, ParseMembers, ParseArray;
    var t := ValueToken(f, doc, cur);
    DroppedNull(f, lib, doc, t, prev);
    TokenAgain(f, doc, cur);
    SeparatorIsComma(doc, t.start);
  }

  lemma SeparatorIsComma(doc: string, cur: nat)
    requires cur <= |doc| && Next(doc, cur).kind == ArraySeparator
    ensures var t := Next(doc, cur); t.start + 1 == t.limit <= |doc| && doc[t.start] == ','
  {
  }

  lemma ScalarIsLeaf(f: Features, lib: CLibrary, doc: string, t: Token, prev: Value)
    requires t.start <= t.limit <= |doc| && !(f.allowDroppedNullPlaceholders && t.kind == ArraySeparator)
    requires t.kind == StringToken ==> t.start + 2 <= t.limit
    requires t.kind == ArraySeparator ==> t.start + 1 == t.limit
    requires ParseScalar(f, lib, doc, t, prev).ok
    ensures var v := ParseScalar(f, lib, doc, t, prev).value;
            !IsContainer(v) && v.start == t.start && v.limit == t.limit && t.kind != EndOfStream
  {
    hide HasIntegerForm, WithoutSign, IsNegative;
  }

  lemma StepsNowhere(doc: string, a: nat)
    requires a <= |doc|
    ensures Steps(doc, a, a)
  {
  }

  lemma EmptyBetween(f: Features, lib: CLibrary, doc: string, lo: nat, hi: nat)
    ensures Between(f, lib, doc, Nil, lo, hi)
  {
  }

  lemma {:induction false} ArrayTiles(f: Features, lib: CLibrary, doc: string, cur: nat)
    requires 0 < cur <= |doc| && ParseArray(f, lib, doc, cur).ok
    ensures var r := ParseArray(f, lib, doc, cur);
            && Steps(doc, cur, r.cur) && cur < r.cur
            && Between(f, lib, doc, r.entries, cur, r.cur - 1)
    decreases |doc| - cur, 3
  {
    hide ParseElements, Next, Steps, Between, SpaceLen;
    var r := ParseArray(f, lib, doc, cur);
    var first := cur + SpaceLen(doc[cur..]);
    if first < |doc| && doc[first] == ']' {
      FirstBracket(doc, cur);
      StepsNext(doc, cur);
      EmptyBetween(f, lib, doc, cur, r.cur - 1);
    } else {
      EmptyBetween(f, lib, doc, first, first - 1);
      ElementsTile(f, lib, doc, first, Nil, 0, first);
      StepsFromSpace(doc, cur, r.cur);
      BetweenWeaken(f, lib, doc, r.entries, first, r.cur - 1, cur, r.cur - 1);
    }
  }

  lemma BetweenWeaken(f: Features, lib: CLibrary, doc: string, es: Entries, lo: nat, hi: nat, lo': nat, hi': nat)
    requires Between(f, lib, doc, es, lo, hi) && lo' <= lo && hi <= hi'
    ensures Between(f, lib, doc, es, lo', hi')
  {
    InsideWeaken(f, doc, es, lo, hi, lo', hi');
  }

  lemma {:induction false} ElementsTile(f: Features, lib: CLibrary, doc: string, cur: nat, entries: Entries,
                                        index: nat, lo: nat)
    requires 0 < cur <= |doc| && lo <= cur
    requires ParseElements(f, lib, doc, cur, entries, index).ok && Between(f, lib, doc, entries, lo, cur - 1)
    ensures var r := ParseElements(f, lib, doc, cur, entries, index);
            && Steps(doc, cur, r.cur) && cur < r.cur
            && Between(f, lib, doc, r.entries, lo, r.cur - 1)
    decreases |doc| - cur, 2
  {
    hide ParseValue, Put, Lookup, NonComment, Recover, Steps, Between, Tiled, OneErrorIff, DropsAt, IsDropped, Inside;
    hide Next, ValueToken;
    var r := ParseElements(f, lib, doc, cur, entries, index);
    var prev := Lookup(entries, Index(index));
    var v := ParseValue(f, lib, doc, cur, prev);
    ValueTiles(f, lib, doc, cur, prev);
    ValueInside(f, lib, doc, cur, prev, lo);
    var entries' := Put(entries, Index(index), v.value);
    PutBetween(f, lib, doc, entries, Index(index), v.value, lo, cur - 1, v.cur);
    var t := NonComment(doc, v.cur);
    StepsBehind(f, lib, doc, cur, prev);
    if t.kind == ArrayEnd {
      BetweenWeaken(f, lib, doc, entries', lo, v.cur, lo, r.cur - 1);
    } else {
      BetweenWeaken(f, lib, doc, entries', lo, v.cur, lo, t.limit - 1);
      ElementsTile(f, lib, doc, t.limit, entries', index + 1, lo);
      StepsTransitive(doc, cur, t.limit, r.cur);
    }
  }

  /** A dropped null reaches at most one character in front of where it was read. */
  lemma {:induction false} ValueInside(f: Features, lib: CLibrary, doc: string, cur: nat, prev: Value, lo: nat)
    requires 0 < cur <= |doc| && lo <= cur && ParseValue(f, lib, doc, cur, prev).ok
    ensures var r := ParseValue(f, lib, doc, cur, prev); Inside(f, doc, r.value, lo, r.cur) && cur - 1 <= r.value.start
    decreases |doc| - cur, 1
  {
    hide ParseValue, Steps, Tiled, ValueToken;
    ValueTiles(f, lib, doc, cur, prev);
  }

  /**
   The first token behind a value that is not a comment is reached by tokens, also if it is the
   separator of a dropped null.
   */
  lemma {:induction false} StepsBehind(f: Features, lib: CLibrary, doc: string, cur: nat, prev: Value)
    requires cur <= |doc| && ParseValue(f, lib, doc, cur, prev).ok
    ensures var t := NonComment(doc, ParseValue(f, lib, doc, cur, prev).cur);
            t.start < t.limit ==> Steps(doc, cur, t.limit)
    decreases |doc| - cur, 1
  {
    hide ParseValue, Next, NonComment, Steps, Tiled, IsDropped;
    ValueTiles(f, lib, doc, cur, prev);
    var v := ParseValue(f, lib, doc, cur, prev);
    StepsNonComment(doc, v.cur);
    if DropsAt(f, doc, cur) {
      NonCommentOfNext(doc, v.cur);
    } else if NonComment(doc, v.cur).start < NonComment(doc, v.cur).limit {
      StepsTransitive(doc, cur, v.cur, NonComment(doc, v.cur).limit);
    }
  }

  lemma FailureStops(doc: string, v: Parsed, entries: Entries)
    requires v.cur <= |doc| && OneErrorIff(v.ok, v.errors)
    ensures !v.ok ==> AfterMember(doc, v, entries).Stop? && !AfterMember(doc, v, entries).filled.ok
  {
  }

  lemma {:induction false} MembersTile(f: Features, lib: CLibrary, doc: string, cur: nat, entries: Entries,
                                       last: string, lo: nat)
    requires lo <= cur <= |doc|
    requires ParseMembers(f, lib, doc, cur, entries, last).ok && Between(f, lib, doc, entries, lo, cur)
    ensures var r := ParseMembers(f, lib, doc, cur, entries, last);
            && Steps(doc, cur, r.cur) && cur < r.cur
            && Between(f, lib, doc, r.entries, lo, r.cur - 1)
    decreases |doc| - cur, 2
  {
    hide ParseValue, Put, Lookup, StartMember, AfterMember, MemberKey, Steps, Between, Tiled, DropsAt, IsDropped;
    hide Inside, Next, ValueToken;
    var r := ParseMembers(f, lib, doc, cur, entries, last);
    var m := StartMember(f, lib, doc, cur, entries, last);
    StartSteps(f, lib, doc, cur, entries, last);
    if m.NoMember? {
      BetweenWeaken(f, lib, doc, entries, lo, cur, lo, r.cur - 1);
    } else {
      var prev := Lookup(entries, MemberKey(m.name));
      var v := ParseValue(f, lib, doc, m.cur, prev);
      FailureStops(doc, v, Put(entries, MemberKey(m.name), v.value));
      if v.ok {
        ValueTiles(f, lib, doc, m.cur, prev);
        ValueInside(f, lib, doc, m.cur, prev, lo);
        PutBetween(f, lib, doc, entries, MemberKey(m.name), v.value, lo, cur, v.cur);
        AfterMemberTiles(f, lib, doc, v, Put(entries, MemberKey(m.name), v.value), m.name, lo, cur);
        StepsFurther(f, lib, doc, m.cur, prev, r.cur);
        StepsTransitive(doc, cur, m.cur, r.cur);
      }
    }
  }

  /** What is reached from the end of a value is reached from its start, also if it is a dropped null. */
  lemma {:induction false} StepsFurther(f: Features, lib: CLibrary, doc: string, cur: nat, prev: Value, c: nat)
    requires cur <= |doc| && ParseValue(f, lib, doc, cur, prev).ok
    requires ParseValue(f, lib, doc, cur, prev).cur < c && Steps(doc, ParseValue(f, lib, doc, cur, prev).cur, c)
    ensures Steps(doc, cur, c)
    decreases |doc| - cur, 1
  {
    hide ParseValue, Next, Tiled, IsDropped, DropsAt;
    ValueTiles(f, lib, doc, cur, prev);
    var v := ParseValue(f, lib, doc, cur, prev);
    if DropsAt(f, doc, cur) {
      StepsTransitive(doc, cur, Next(doc, v.cur).limit, c);
    } else {
      StepsTransitive(doc, cur, v.cur, c);
    }
  }

  lemma StartSteps(f: Features, lib: CLibrary, doc: string, cur: nat, entries: Entries, last: string)
    requires cur <= |doc|
    ensures var m := StartMember(f, lib, doc, cur, entries, last);
            if m.ValueAt? then Steps(doc, cur, m.cur)
            else m.filled.ok ==> Steps(doc, cur, m.filled.cur) && cur < m.filled.cur && m.filled.entries == entries
  {
    hide NonComment, Next, ReadName, Recover, Steps;
    var t := NonComment(doc, cur);
    StepsNonComment(doc, cur);
    if StartMember(f, lib, doc, cur, entries, last).ValueAt? {
      if t.kind == EndOfStream {
        EndHasNoName(f, lib, doc, t);
      }
      StepsNext(doc, t.limit);
      StepsTransitive(doc, cur, t.limit, Next(doc, t.limit).limit);
    }
  }

  lemma {:induction false} AfterMemberTiles(f: Features, lib: CLibrary, doc: string, v: Parsed, entries: Entries,
                                            name: string, lo: nat, cur: nat)
    requires lo <= cur < v.cur <= |doc| && v.ok && OneErrorIff(v.ok, v.errors)
    requires Between(f, lib, doc, entries, lo, v.cur)
    requires match AfterMember(doc, v, entries)
             case Stop(r) => r.ok
             case Continue(next, entries') => ParseMembers(f, lib, doc, next, entries', name).ok
    ensures var r := match AfterMember(doc, v, entries)
                     case Stop(r) => r
                     case Continue(next, entries') => ParseMembers(f, lib, doc, next, entries', name);
            && Steps(doc, v.cur, r.cur) && v.cur < r.cur
            && Between(f, lib, doc, r.entries, lo, r.cur - 1)
    decreases |doc| - cur, 0
  {
    hide ParseMembers, NonComment, Next, Recover, Steps, Between;
    var t := NonComment(doc, v.cur);
    StepsNonComment(doc, v.cur);
    if t.kind == ObjectEnd {
      BetweenWeaken(f, lib, doc, entries, lo, v.cur, lo, t.limit - 1);
    } else {
      BetweenWeaken(f, lib, doc, entries, lo, v.cur, lo, t.limit);
      MembersTile(f, lib, doc, t.limit, entries, name, lo);
      StepsTransitive(doc, v.cur, t.limit, ParseMembers(f, lib, doc, t.limit, entries, name).cur);
    }
  }

  // ---------------------------------------------------------------- documents

  /** Some node of the tree, the root included. */
  ghost predicate IsNode(v: Value, root: Value)
    decreases root, 1
  {
    v == root || (root.data.Arr? && IsNodeOf(v, root.data.elems)) || (root.data.Obj? && IsNodeOf(v, root.data.members))
  }

  ghost predicate IsNodeOf(v: Value, es: Entries)
    decreases es, 0
  {
    match es
    case Nil => false
    case Cons(_, w, rest) => IsNode(v, w) || IsNodeOf(v, rest)
  }

  lemma {:induction false} NodeIsTiled(f: Features, lib: CLibrary, doc: string, root: Value, v: Value)
    requires Tiled(f, lib, doc, root) && IsNode(v, root)
    ensures Tiled(f, lib, doc, v)
    decreases root, 1
  {
    hide ReadsAlone, AllInside, Disjoint;
    if v != root {
      if root.data.Arr? && IsNodeOf(v, root.data.elems) {
        NodeOfIsTiled(f, lib, doc, root.data.elems, v);
      } else {
        NodeOfIsTiled(f, lib, doc, root.data.members, v);
      }
    }
  }

  lemma {:induction false} NodeOfIsTiled(f: Features, lib: CLibrary, doc: string, es: Entries, v: Value)
    requires AllTiled(f, lib, doc, es) && IsNodeOf(v, es)
    ensures Tiled(f, lib, doc, v)
    decreases es, 0
  {
    if IsNode(v, es.value) {
      NodeIsTiled(f, lib, doc, es.value, v);
    } else {
      NodeOfIsTiled(f, lib, doc, es.rest, v);
    }
  }

  /**
   After a successful parse the ranges of all nodes are nested and siblings are disjoint; dropped
   nulls may start one character in front of the inside of their parent.
   */
  lemma DocumentIsTiled(f: Features, lib: CLibrary, doc: string, prev: Value)
    requires ParseDocument(f, lib, doc, prev).ok
    ensures Tiled(f, lib, doc, ParseDocument(f, lib, doc, prev).root)
  {
    hide ParseValue, Tiled;
    ValueTiles(f, lib, doc, 0, prev);
  }

  /**
   The text between the offsets of any node of a parsed document is a document for that node
   alone, whatever the new root held before; only `strictRoot` still refuses a scalar root. This
   excludes nulls that were dropped, which have no text of their own.
   */
  lemma SliceParsesAlone(f: Features, lib: CLibrary, doc: string, prev: Value, v: Value, prev': Value)
    requires ParseDocument(f, lib, doc, prev).ok
    requires IsNode(v, ParseDocument(f, lib, doc, prev).root) && !IsDropped(f, doc, v)
    ensures v.start < v.limit <= |doc|
    ensures var o := ParseDocument(f, lib, doc[v.start..v.limit], prev');
            && (o.ok <==> (f.strictRoot ==> IsContainer(v)))
            && (o.ok ==> Erase(o.root) == Erase(v))
  {
    hide ParseDocument, ReadValue, Texts, Erase, AllTiled, AllInside, Disjoint, IsDropped;
    DocumentIsTiled(f, lib, doc, prev);
    NodeIsTiled(f, lib, doc, ParseDocument(f, lib, doc, prev).root, v);
    DocumentMatches(f, lib, doc[v.start..v.limit], prev');
    EraseKeepsContainer(v);
  }

  // ---------------------------------------------------------------- the text of a dropped null

  lemma NumberIsNotNull(lib: CLibrary, text: string)
    ensures DecodeNumber(lib, text) != Some(Null)
  {
    hide HasIntegerForm, DecimalValue;
  }

  lemma OneCharacterScan(c: char)
    ensures var r := Scan([c]); r.len == 1 && r.kind !in {StringToken, NullToken, TrueToken, FalseToken, CommentToken}
    ensures Scan([c]).kind == ArraySeparator <==> c == ','
  {
    assert [c][1..] == "";
  }

  lemma OneCharacterTexts(c: char)
    ensures Texts([c]) == if IsSpace(c) then [] else [Lexeme(Scan([c]).kind, [c])]
  {
    var s := [c];
    OneCharacterScan(c);
    hide Scan;
    assert s[1..] == "" && SpaceLen(s) == if IsSpace(c) then 1 else 0;
    NoTexts();
    if IsSpace(c) {
      assert Trim(s) == "";
    } else {
      assert Trim(s) == s && First(s) == Lexeme(Scan(s).kind, s) && Rest(s) == "";
    }
  }

  lemma OneTokenIsNullIff(f: Features, lib: CLibrary, t: Lexeme)
    requires f.allowDroppedNullPlaceholders
    requires t.kind !in {StringToken, NullToken, TrueToken, FalseToken, CommentToken}
    ensures ReadValue(f, lib, [t]).Accept? && ReadValue(f, lib, [t]).value == Leaf(Null) <==> t.kind == ArraySeparator
  {
    hide DecodeNumber;
    NumberIsNotNull(lib, t.text);
    assert [t][1..] == [] && ValueTexts(f, [t]) == [t];
    ReadsNothing(f, lib);
    assert ReadElements(f, lib, [], Nil, 0) == RejectEntries;
    NothingToRead(f, lib, Nil, "");
  }

  lemma DroppedIsNull(f: Features, doc: string, v: Value)
    requires IsDropped(f, doc, v)
    ensures Erase(v) == Leaf(Null) && !IsContainer(Leaf(Null))
    ensures v.limit > 0 ==> v.start + 1 == v.limit
  {
  }

  /** The one character of its range reads as a null exactly if it is a separator itself. */
  lemma DroppedSliceIff(f: Features, lib: CLibrary, doc: string, v: Value, prev: Value)
    requires IsDropped(f, doc, v) && v.limit > 0
    ensures v.start + 1 == v.limit
    ensures var o := ParseDocument(f, lib, doc[v.start..v.limit], prev);
            o.ok && Erase(o.root) == Erase(v) <==> doc[v.start] == ',' && !f.strictRoot
  {
    hide ParseDocument, ReadValue, Texts, Scan, Erase;
    DroppedIsNull(f, doc, v);
    var c := doc[v.start];
    assert doc[v.start..v.limit] == [c];
    OneCharacterTexts(c);
    OneCharacterScan(c);
    OneTokenIsNullIff(f, lib, Lexeme(Scan([c]).kind, [c]));
    ReadsNothing(f, lib);
    DocumentMatches(f, lib, [c], prev);
  }

  lemma NextAt(doc: string, cur: nat, kind: TokenKind, len: nat)
    requires cur < |doc| && !IsSpace(doc[cur]) && Scan(doc[cur..]) == Lexed(kind, len)
    ensures Next(doc, cur) == Token(kind, cur, cur + len)
    ensures kind != CommentToken ==> NonComment(doc, cur) == Token(kind, cur, cur + len)
  {
    hide Scan;
    assert SpaceLen(doc[cur..]) == 0;
  }

  const DROPPING: Features := Features(false, false, true, false)
  const DROPPED_FIRST: string := "[,null]"

  lemma TokensOfDroppedFirst()
    ensures var doc := DROPPED_FIRST;
            && NonComment(doc, 0) == Next(doc, 0) == Token(ArrayBegin, 0, 1)
            && NonComment(doc, 1) == Next(doc, 1) == Token(ArraySeparator, 1, 2)
            && NonComment(doc, 2) == Next(doc, 2) == Token(NullToken, 2, 6)
            && NonComment(doc, 6) == Next(doc, 6) == Token(ArrayEnd, 6, 7)
  {
    hide Next, NonComment, Scan;
    var doc := DROPPED_FIRST;
    ScansOfDroppedFirst();
    NextAt(doc, 0, ArrayBegin, 1);
    NextAt(doc, 1, ArraySeparator, 1);
    NextAt(doc, 2, NullToken, 4);
    NextAt(doc, 6, ArrayEnd, 1);
  }

  lemma ScansOfDroppedFirst()
    ensures var doc := DROPPED_FIRST;
            && Scan(doc[0..]) == Lexed(ArrayBegin, 1) && Scan(doc[1..]) == Lexed(ArraySeparator, 1)
            && Scan(doc[2..]) == Lexed(NullToken, 4) && Scan(doc[6..]) == Lexed(ArrayEnd, 1)
  {
    var doc := DROPPED_FIRST;
    assert doc[2..] == "null]" && "null]"[1..] == "ull]" && "ull" <= "ull]";
  }

  lemma ElementsOfDroppedFirst(lib: CLibrary)
    ensures ParseElements(DROPPING, lib, DROPPED_FIRST, 1, Nil, 0)
         == Filled(true, Cons(Index(0), Value(Null, 0, 1), Cons(Index(1), Value(Null, 2, 6), Nil)), 7, [])
  {
    hide Next, NonComment;
    var doc := DROPPED_FIRST;
    TokensOfDroppedFirst();
    var first := Cons(Index(0), Value(Null, 0, 1), Nil);
    assert ParseValue(DROPPING, lib, doc, 1, NULL_VALUE) == Parsed(true, Value(Null, 0, 1), 1, []);
    assert ParseValue(DROPPING, lib, doc, 2, NULL_VALUE) == Parsed(true, Value(Null, 2, 6), 6, []);
    assert Lookup(Nil, Index(0)) == NULL_VALUE && Lookup(first, Index(1)) == NULL_VALUE;
    assert ParseElements(DROPPING, lib, doc, 2, first, 1)
        == Filled(true, Put(first, Index(1), Value(Null, 2, 6)), 7, []);
  }

  /** The first null of `[,null]` is dropped and has the bracket for its range. */
  lemma DroppedSliceFails(lib: CLibrary, prev: Value)
    ensures var r, v := ParseDocument(DROPPING, lib, DROPPED_FIRST, prev), Value(Null, 0, 1);
            && r.ok && IsNode(v, r.root) && IsDropped(DROPPING, DROPPED_FIRST, v)
            && var o := ParseDocument(DROPPING, lib, DROPPED_FIRST[v.start..v.limit], prev);
               !(o.ok && Erase(o.root) == Erase(v))
  {
    hide Next, NonComment, ParseElements;
    var doc, v := DROPPED_FIRST, Value(Null, 0, 1);
    TokensOfDroppedFirst();
    ElementsOfDroppedFirst(lib);
    assert SpaceLen(doc[1..]) == 0;
    var es := ParseElements(DROPPING, lib, doc, 1, Nil, 0).entries;
    assert ParseDocument(DROPPING, lib, doc, prev) == Outcome(true, Value(Arr(es), 0, 7), []);
    assert IsNodeOf(v, es);
    DroppedSliceIff(DROPPING, lib, doc, v, prev);
  }
}
