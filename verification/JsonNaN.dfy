/**
 What a not-a-number does to the order on values: exactly when a value keeps `operator<`
 transitive, and exactly when it keeps it total.
 */
module JsonNaN {
  import opened JsonOrder
  import opened JsonValue

  // ---------------------------------------------------------------- numbers in place of not-a-numbers

  /** The value with a number in place of every not-a-number */
  function Fill(v: Value, r: real): Value
    decreases v
  {
    v.(data := FillData(v.data, r))
  }

  function FillData(d: Data, r: real): Data
    decreases d
  {
    match d
    case Real(NaN) => Real(Finite(r))
    case Arr(es) => Arr(FillAll(es, r))
    case Obj(es) => Obj(FillAll(es, r))
    case _ => d
  }

  function FillAll(es: Entries, r: real): Entries
    decreases es
  {
    match es
    case Nil => Nil
    case Cons(k, v, rest) => Cons(k, Fill(v, r), FillAll(rest, r))
  }

  lemma {:induction false} FillKeepsShape(v: Value, r: real)
    ensures NaNFree(Fill(v, r)) && (Shaped(v) ==> Shaped(Fill(v, r)))
    decreases v
  {
    match v.data
    case Arr(es) => FillAllKeepsShape(es, r, true);
    case Obj(es) => FillAllKeepsShape(es, r, false);
    case _ =>
  }

  lemma {:induction false} FillAllKeepsShape(es: Entries, r: real, indexed: bool)
    ensures Count(FillAll(es, r)) == Count(es) && AllNaNFree(FillAll(es, r))
    ensures AllShaped(es, indexed) ==> AllShaped(FillAll(es, r), indexed)
    decreases es
  {
    if es.Cons? {
      FillKeepsShape(es.value, r);
      FillAllKeepsShape(es.rest, r, indexed);
    }
  }

  lemma {:induction false} FillNothing(v: Value, r: real)
    requires NaNFree(v)
    ensures Fill(v, r) == v
    decreases v
  {
    match v.data
    case Arr(es) => FillAllNothing(es, r);
    case Obj(es) => FillAllNothing(es, r);
    case _ =>
  }

  lemma {:induction false} FillAllNothing(es: Entries, r: real)
    requires AllNaNFree(es)
    ensures FillAll(es, r) == es
    decreases es
  {
    if es.Cons? {
      FillNothing(es.value, r);
      FillAllNothing(es.rest, r);
    }
  }

  lemma FillContainer(v: Value, r: real)
    requires v.data.Arr? || v.data.Obj?
    ensures SameContainers(v, Fill(v, r)) && EntriesOf(Fill(v, r).data) == FillAll(EntriesOf(v.data), r)
  {
  }

  /** A value does not compare with itself when its not-a-numbers are replaced. */
  lemma {:induction false} FillIsNeither(v: Value, r: real)
    ensures !Less(v, Fill(v, r)) && !Less(Fill(v, r), v)
    decreases v
  {
    var w := Fill(v, r);
    if SameContainers(v, w) {
      var es := EntriesOf(v.data);
      FillAllKeepsShape(es, r, v.data.Arr?);
      FillAllIsNeither(es, r);
      ContainersLess(v, w);
      ContainersLess(w, v);
      hide Less, MapLess, Count;
    } else if v.data.Str? && v.data.s.Some? {
      StrTrichotomy(v.data.s.value, v.data.s.value);
    }
  }

  lemma {:induction false} FillAllIsNeither(es: Entries, r: real)
    ensures !MapLess(es, FillAll(es, r)) && !MapLess(FillAll(es, r), es)
    decreases es
  {
    if es.Cons? {
      KeyTrichotomy(es.key, es.key);
      FillIsNeither(es.value, r);
      FillAllIsNeither(es.rest, r);
    }
  }

  lemma IsNotBelowItself(v: Value)
    requires NaNFree(v)
    ensures !Less(v, v)
  {
    FillNothing(v, 0.0);
    FillIsNeither(v, 0.0);
  }

  /** A smaller and a larger number in place of the not-a-numbers make a smaller and a larger value. */
  lemma {:induction false} FillGrows(v: Value)
    requires !NaNFree(v)
    ensures Less(Fill(v, 0.0), Fill(v, 1.0))
    decreases v
  {
    if v.data.Arr? || v.data.Obj? {
      var es := EntriesOf(v.data);
      FillAllKeepsShape(es, 0.0, true);
      FillAllKeepsShape(es, 1.0, true);
      FillAllGrows(es);
      FillContainer(v, 0.0);
      FillContainer(v, 1.0);
      ContainersLess(Fill(v, 0.0), Fill(v, 1.0));
      hide Less, MapLess, Count;
    }
  }

  lemma {:induction false} FillAllGrows(es: Entries)
    requires !AllNaNFree(es)
    ensures MapLess(FillAll(es, 0.0), FillAll(es, 1.0))
    decreases es
  {
    KeyTrichotomy(es.key, es.key);
    if !NaNFree(es.value) {
      FillGrows(es.value);
    } else {
      FillNothing(es.value, 0.0);
      FillNothing(es.value, 1.0);
      IsNotBelowItself(es.value);
      FillAllGrows(es.rest);
    }
  }

  // ---------------------------------------------------------------- transitivity

  /** Three values on which `<` is not transitive */
  ghost predicate Bad(a: Value, b: Value, c: Value) {
    Shaped(a) && Shaped(b) && Shaped(c) && Less(a, b) && Less(b, c) && !Less(a, c)
  }

  /** The value breaks transitivity together with two values without a not-a-number. */
  ghost predicate Breaks(v: Value, x: Value, y: Value) {
    NaNFree(x) && NaNFree(y) && (Bad(v, x, y) || Bad(x, y, v))
  }

  const EMPTY_OBJECT: Value := Value(Obj(Nil), 0, 0)

  /** Null is below everything but null, and an empty object above everything but objects. */
  lemma Extremes(v: Value)
    ensures Less(NULL_VALUE, v) <==> !v.data.Null?
    ensures !v.data.Obj? ==> Less(v, EMPTY_OBJECT)
    ensures Shaped(NULL_VALUE) && Shaped(EMPTY_OBJECT) && NaNFree(NULL_VALUE) && NaNFree(EMPTY_OBJECT)
  {
    assert AllShaped(Nil, false) && AllNaNFree(Nil);
  }

  /** The same for maps: `first` says on which side of the two others `es` stands. */
  ghost predicate MapBreaks(es: Entries, x: Entries, y: Entries, first: bool) {
    if first then MapLess(es, x) && MapLess(x, y) && !MapLess(es, y)
    else MapLess(x, y) && MapLess(y, es) && !MapLess(x, es)
  }

  /** Two maps without a not-a-number, of the size and kind of `es` */
  ghost predicate Alike(es: Entries, x: Entries, indexed: bool) {
    Count(x) == Count(es) && AllShaped(x, indexed) && AllNaNFree(x)
  }

  /** Two maps with the same first key compare by the first values, and if neither is less by the rest. */
  lemma FirstValues(x: Entries, y: Entries)
    requires x.Cons? && y.Cons? && x.key == y.key
    ensures MapLess(x, y) == (Less(x.value, y.value) || (!Less(y.value, x.value) && MapLess(x.rest, y.rest)))
  {
    KeyTrichotomy(x.key, y.key);
    assert PairLess(x, y) == Less(x.value, y.value) && PairLess(y, x) == Less(y.value, x.value);
  }

  /** The first entry decides if its not-a-numbers are replaced by a smaller and a larger number. */
  lemma HeadGrows(es: Entries, low: Entries, high: Entries)
    requires es.Cons? && !NaNFree(es.value)
    ensures MapLess(Cons(es.key, Fill(es.value, 0.0), low), Cons(es.key, Fill(es.value, 1.0), high))
  {
    FillGrows(es.value);
    FirstValues(Cons(es.key, Fill(es.value, 0.0), low), Cons(es.key, Fill(es.value, 1.0), high));
  }

  /** The map with numbers in place of not-a-numbers and another second value */
  function Replaced(es: Entries, r: real, w: Value): Entries
    requires es.Cons? && es.rest.Cons?
  {
    Cons(es.key, Fill(es.value, r), Cons(es.rest.key, w, FillAll(es.rest.rest, r)))
  }

  /** The second value decides. */
  lemma ReplacedCompares(es: Entries, r: real, w: Value, indexed: bool)
    requires AllShaped(es, indexed) && es.Cons? && es.rest.Cons? && Shaped(w) && NaNFree(w)
    ensures Alike(es, Replaced(es, r, w), indexed)
    ensures Less(es.rest.value, w) ==> MapLess(es, Replaced(es, r, w))
    ensures Less(w, es.rest.value) ==> MapLess(Replaced(es, r, w), es)
  {
    FillKeepsShape(es.value, r);
    FillAllKeepsShape(es.rest.rest, r, indexed);
    FillIsNeither(es.value, r);
    var z := Replaced(es, r, w);
    FirstValues(es, z);
    FirstValues(z, es);
    FirstValues(es.rest, z.rest);
    FirstValues(z.rest, es.rest);
  }

  /**
   An entry with a not-a-number has the same place with 0 and with 1 instead, although these differ,
   so that the entry behind it decides: a larger one is found unless it is an object, else a smaller one.
   */
  lemma BreakBehind(es: Entries, indexed: bool) returns (x: Entries, y: Entries, first: bool)
    requires AllShaped(es, indexed) && es.Cons? && es.rest.Cons? && !NaNFree(es.value)
    ensures Alike(es, x, indexed) && Alike(es, y, indexed) && MapBreaks(es, x, y, first)
  {
    hide Less, MapLess, PairLess, Shaped, AllShaped, NaNFree, AllNaNFree, Fill;
    first := !es.rest.value.data.Obj?;
    Extremes(es.rest.value);
    var r := if first then 1.0 else 0.0;
    FillAllKeepsShape(es, r, indexed);
    FillAllIsNeither(es, r);
    if first {
      x, y := Replaced(es, 0.0, EMPTY_OBJECT), FillAll(es, 1.0);
      ReplacedCompares(es, 0.0, EMPTY_OBJECT, indexed);
    } else {
      x, y := FillAll(es, 0.0), Replaced(es, 1.0, NULL_VALUE);
      ReplacedCompares(es, 1.0, NULL_VALUE, indexed);
    }
    HeadGrows(es, x.rest, y.rest);
  }

  /** The same entry in front changes nothing. */
  lemma BreakInFront(es: Entries, x: Entries, y: Entries, first: bool, indexed: bool)
    requires AllShaped(es, indexed) && es.Cons? && NaNFree(es.value)
    requires Alike(es.rest, x, indexed) && Alike(es.rest, y, indexed) && MapBreaks(es.rest, x, y, first)
    ensures Alike(es, Cons(es.key, es.value, x), indexed) && Alike(es, Cons(es.key, es.value, y), indexed)
    ensures MapBreaks(es, Cons(es.key, es.value, x), Cons(es.key, es.value, y), first)
  {
    IsNotBelowItself(es.value);
    var a, b := Cons(es.key, es.value, x), Cons(es.key, es.value, y);
    FirstValues(es, a);
    FirstValues(es, b);
    FirstValues(a, b);
    FirstValues(a, es);
    FirstValues(b, es);
  }

  /** The only entry decides by itself. */
  lemma BreakInside(es: Entries, x: Value, y: Value, indexed: bool)
    requires AllShaped(es, indexed) && es.Cons? && es.rest.Nil? && Breaks(es.value, x, y)
    ensures var a, b := Cons(es.key, x, Nil), Cons(es.key, y, Nil);
            && Alike(es, a, indexed) && Alike(es, b, indexed)
            && MapBreaks(es, a, b, Bad(es.value, x, y))
  {
    hide Less;
    var a, b := Cons(es.key, x, Nil), Cons(es.key, y, Nil);
    KeyTrichotomy(es.key, es.key);
    LastPair(es, a);
    LastPair(a, b);
    LastPair(es, b);
    LastPair(b, es);
    LastPair(a, es);
    assert Count(Nil) == 0 && AllShaped(Nil, indexed) && AllNaNFree(Nil);
  }

  lemma {:induction false} MapBreak(es: Entries, indexed: bool) returns (x: Entries, y: Entries, first: bool)
    requires AllShaped(es, indexed) && !AllLate(es)
    ensures Alike(es, x, indexed) && Alike(es, y, indexed) && MapBreaks(es, x, y, first)
    decreases es
  {
    hide Less, MapBreaks, Alike, Breaks, Bad;
    if es.rest.Nil? {
      var a, b := Break(es.value);
      BreakInside(es, a, b, indexed);
      x, y, first := Cons(es.key, a, Nil), Cons(es.key, b, Nil), Bad(es.value, a, b);
    } else if !NaNFree(es.value) {
      x, y, first := BreakBehind(es, indexed);
    } else {
      x, y, first := MapBreak(es.rest, indexed);
      BreakInFront(es, x, y, first, indexed);
      x, y := Cons(es.key, es.value, x), Cons(es.key, es.value, y);
    }
  }

  function Container(indexed: bool, es: Entries): Value {
    Value(if indexed then Arr(es) else Obj(es), 0, 0)
  }

  lemma ContainersBreak(v: Value, x: Entries, y: Entries, first: bool)
    requires (v.data.Arr? || v.data.Obj?) && Shaped(v)
    requires Alike(EntriesOf(v.data), x, v.data.Arr?) && Alike(EntriesOf(v.data), y, v.data.Arr?)
    requires MapBreaks(EntriesOf(v.data), x, y, first)
    ensures Breaks(v, Container(v.data.Arr?, x), Container(v.data.Arr?, y))
  {
    var a, b := Container(v.data.Arr?, x), Container(v.data.Arr?, y);
    assert Shaped(a) && Shaped(b) && NaNFree(a) && NaNFree(b);
    hide Less, MapLess, Count, AllShaped, AllNaNFree;
    if first {
      ContainersCompare(v, a);
      ContainersCompare(v, b);
    } else {
      ContainersCompare(b, v);
      ContainersCompare(a, v);
    }
    ContainersCompare(a, b);
  }

  lemma {:induction false} Break(v: Value) returns (x: Value, y: Value)
    requires Shaped(v) && !Late(v)
    ensures Breaks(v, x, y)
    decreases v
  {
    hide Breaks, MapBreaks, Alike;
    var a, b, first := MapBreak(EntriesOf(v.data), v.data.Arr?);
    ContainersBreak(v, a, b, first);
    x, y := Container(v.data.Arr?, a), Container(v.data.Arr?, b);
  }

  /**
   A value breaks transitivity together with two values without a not-a-number exactly if something
   comes after a not-a-number in it.
   */
  lemma LateIff(v: Value)
    requires Shaped(v)
    ensures Late(v) <==> !exists x, y :: Breaks(v, x, y)
  {
    if Late(v) {
      forall x, y ensures !Breaks(v, x, y) {
        LateBreaksNothing(v, x, y);
      }
    } else {
      var x, y := Break(v);
    }
  }

  lemma LateBreaksNothing(v: Value, x: Value, y: Value)
    requires Late(v)
    ensures !Breaks(v, x, y)
  {
    hide Less, Shaped, Late, NaNFree;
    if NaNFree(x) && NaNFree(y) {
      NaNFreeIsLate(x);
      NaNFreeIsLate(y);
      if Bad(v, x, y) {
        LateTransitive(v, x, y);
      } else if Bad(x, y, v) {
        LateTransitive(x, y, v);
      }
    }
  }

  // ---------------------------------------------------------------- totality

  /** A value is below, above or equal to every value without a not-a-number exactly if it holds none itself. */
  lemma TrichotomyIff(v: Value)
    requires Shaped(v)
    ensures NaNFree(v) <==>
              forall w :: Shaped(w) && NaNFree(w) ==> ExactlyOne(Less(v, w), Less(w, v), Same(v, w))
  {
    hide Less, Same, Shaped, NaNFree, Fill;
    if NaNFree(v) {
      forall w | Shaped(w) && NaNFree(w) ensures ExactlyOne(Less(v, w), Less(w, v), Same(v, w)) {
        Trichotomy(v, w);
      }
    } else {
      var w := Fill(v, 0.0);
      FillKeepsShape(v, 0.0);
      FillIsNeither(v, 0.0);
      if Same(v, w) {
        SameHasNoNaN(v, w);
      }
    }
  }
}
