/**
 Arrays whose size is beyond the range of `int`: `FastWriter` takes the size for a number that is
 not positive and prints no element.
 */
module JsonSparse {
  import opened JsonParser
  import opened JsonValue
  import opened JsonWriter
  import opened Wrappers

  /** The tree with those arrays emptied */
  function Cut(v: Value): Value
    decreases v
  {
    match v.data
    case Arr(es) => v.(data := Arr(if ArraySize(es) > MAX_INT then Nil else CutAll(es)))
    case Obj(es) => v.(data := Obj(CutAll(es)))
    case _ => v
  }

  function CutAll(es: Entries): Entries
    decreases es
  {
    match es
    case Nil => Nil
    case Cons(k, v, rest) => Cons(k, Cut(v), CutAll(rest))
  }

  function CutFound(v: Option<Value>): Option<Value> {
    if v.Some? then Some(Cut(v.value)) else None
  }

  lemma {:induction false} CutKeepsSize(es: Entries)
    ensures ArraySize(CutAll(es)) == ArraySize(es)
  {
    if es.Cons? {
      CutKeepsSize(es.rest);
    }
  }

  lemma {:induction false} FindCut(es: Entries, key: Key)
    ensures Find(CutAll(es), key) == CutFound(Find(es, key))
  {
    if es.Cons? && es.key != key {
      FindCut(es.rest, key);
    }
  }

  lemma {:induction false} CutIsSized(v: Value)
    ensures SizedBelow(Cut(v), MAX_INT)
    decreases v, 0
  {
    if v.data.Arr? {
      CutKeepsSize(v.data.elems);
      CutAllIsSized(v.data.elems);
    } else if v.data.Obj? {
      CutAllIsSized(v.data.members);
    }
  }

  lemma {:induction false} CutAllIsSized(es: Entries)
    ensures SizedAllBelow(CutAll(es), MAX_INT)
    decreases es, 1
  {
    if es.Cons? {
      CutIsSized(es.value);
      CutAllIsSized(es.rest);
    }
  }

  lemma {:induction false} SizedIsUncut(v: Value)
    requires SizedBelow(v, MAX_INT)
    ensures Cut(v) == v
    decreases v, 0
  {
    if v.data.Arr? {
      SizedAllIsUncut(v.data.elems);
    } else if v.data.Obj? {
      SizedAllIsUncut(v.data.members);
    }
  }

  lemma {:induction false} SizedAllIsUncut(es: Entries)
    requires SizedAllBelow(es, MAX_INT)
    ensures CutAll(es) == es
    decreases es, 1
  {
    if es.Cons? {
      SizedIsUncut(es.value);
      SizedAllIsUncut(es.rest);
    }
  }

  lemma {:induction false} CutIsWellFormed(v: Value)
    requires WellFormed(v)
    ensures WellFormed(Cut(v))
    decreases v, 0
  {
    if v.data.Arr? {
      CutAllIsWellFormed(v.data.elems, true);
    } else if v.data.Obj? {
      CutAllIsWellFormed(v.data.members, false);
    }
  }

  lemma {:induction false} CutAllIsWellFormed(es: Entries, indexed: bool)
    requires WellFormedAll(es, indexed)
    ensures WellFormedAll(CutAll(es), indexed)
    ensures Sorted(es) ==> Sorted(CutAll(es))
    decreases es, 1
  {
    if es.Cons? {
      CutIsWellFormed(es.value);
      CutAllIsWellFormed(es.rest, indexed);
    }
  }

  /** The size of an array is at most 2^32. */
  lemma {:induction false} SizeIsBounded(es: Entries)
    requires WellFormedAll(es, true)
    ensures ArraySize(es) <= MAX_UINT + 1
  {
    if es.Cons? {
      SizeIsBounded(es.rest);
    }
  }

  lemma CutSize(es: Entries)
    requires WellFormedAll(es, true)
    ensures ArraySize(es) <= MAX_INT ==> ToInt32(ArraySize(es)) == ArraySize(es)
    ensures ArraySize(es) > MAX_INT ==> ToInt32(ArraySize(es)) <= 0
  {
    SizeIsBounded(es);
  }

  // ---------------------------------------------------------------- the text of the cut tree

  /** `FastWriter` prints a tree and the cut tree alike. */
  lemma {:induction false} CutPrintsSame(o: FastOptions, lib: CLibrary, v: Value)
    requires WellFormed(v)
    ensures FastText(o, lib, Cut(v)) == FastText(o, lib, v)
    decreases v, 0, 0
  {
    hide FastElements, FastMembers, WellFormedAll, ScalarText, ArraySize, Sorted, ToInt32;
    if v.data.Arr? {
      CutSize(v.data.elems);
      CutKeepsSize(v.data.elems);
      if ArraySize(v.data.elems) > MAX_INT {
        NoElements(o, lib, v.data.elems, ToInt32(ArraySize(v.data.elems)));
        NoElements(o, lib, Nil, ToInt32(ArraySize(Nil)));
      } else {
        CutElementsPrintSame(o, lib, v.data.elems, 0, ToInt32(ArraySize(v.data.elems)));
      }
    } else if v.data.Obj? {
      CutMembersPrintSame(o, lib, v.data.members, true);
    }
  }

  lemma NoElements(o: FastOptions, lib: CLibrary, es: Entries, size: int)
    requires size <= 0
    ensures FastElements(o, lib, es, 0, size) == ""
    ensures ToInt32(ArraySize(Nil)) == 0
  {
  }

  lemma {:induction false} CutElementsPrintSame(o: FastOptions, lib: CLibrary, es: Entries, index: nat, size: int)
    requires WellFormedAll(es, true)
    ensures FastElements(o, lib, CutAll(es), index, size) == FastElements(o, lib, es, index, size)
    decreases es, 1, size - index
  {
    hide FastText, NullText, WellFormedAll;
    if index < size {
      FindCut(es, Index(index));
      FoundIsWellFormed(es, true, Index(index));
      if Find(es, Index(index)).Some? {
        CutPrintsSame(o, lib, Find(es, Index(index)).value);
      }
      CutElementsPrintSame(o, lib, es, index + 1, size);
    }
  }

  lemma {:induction false} CutMembersPrintSame(o: FastOptions, lib: CLibrary, es: Entries, first: bool)
    requires WellFormedAll(es, false)
    ensures FastMembers(o, lib, CutAll(es), first) == FastMembers(o, lib, es, first)
    decreases es, 1, 0
  {
    hide FastText, ColonText, KeyText;
    if es.Cons? {
      CutPrintsSame(o, lib, es.value);
      CutMembersPrintSame(o, lib, es.rest, false);
    }
  }
}
