/**
 `Value::operator<`, `Value::operator==` and `Value::compare`.
 */
module JsonOrder {
  import opened JsonValue

  /** The position of the node's type in the enumeration `ValueType`. */
  function TypeRank(d: Data): int {
    match d
    case Null => 0
    case Int(_) => 1
    case UInt(_) => 2
    case Real(_) => 3
    case Str(_) => 4
    case Bool(_) => 5
    case Arr(_) => 6
    case Obj(_) => 7
  }

  predicate DoubleLess(a: Double, b: Double) {
    match (a, b)
    case (Finite(x), Finite(y)) => x < y
    case (NegInf, Finite(_)) => true
    case (NegInf, PosInf) => true
    case (Finite(_), PosInf) => true
    case (_, _) => false
  }

  predicate DoubleEqual(a: Double, b: Double) {
    a == b && !a.NaN?
  }

  /** `int(size() - other.size())`: the difference of two `size_t`, cut to 32 bits. */
  function SizeDelta(a: Entries, b: Entries): int {
    ToInt32(Count(a) - Count(b))
  }

  /** The number of nodes of a tree, a termination measure. */
  ghost function Weight(v: Value): nat
    decreases v, 1
  {
    match v.data
    case Arr(es) => 1 + WeightAll(es)
    case Obj(es) => 1 + WeightAll(es)
    case _ => 1
  }

  ghost function WeightAll(es: Entries): nat
    decreases es, 0
  {
    match es
    case Nil => 1
    case Cons(_, v, rest) => 1 + Weight(v) + WeightAll(rest)
  }

  /** `Value::operator<` */
  predicate Less(a: Value, b: Value)
    decreases Weight(a) + Weight(b)
  {
    if TypeRank(a.data) != TypeRank(b.data) then TypeRank(a.data) < TypeRank(b.data)
    else
      match (a.data, b.data)
      case (Int(x), Int(y)) => x < y
      case (UInt(x), UInt(y)) => x < y
      case (Real(x), Real(y)) => DoubleLess(x, y)
      case (Bool(x), Bool(y)) => !x && y
      case (Str(x), Str(y)) =>
        (x.None? && y.Some?) || (x.Some? && y.Some? && StrLess(x.value, y.value))
      case (Arr(x), Arr(y)) => if SizeDelta(x, y) != 0 then SizeDelta(x, y) < 0 else MapLess(x, y)
      case (Obj(x), Obj(y)) => if SizeDelta(x, y) != 0 then SizeDelta(x, y) < 0 else MapLess(x, y)
      case (_, _) => false
  }

  /** `std::map::operator<`: lexicographical comparison of the (key, value) pairs. */
  predicate MapLess(x: Entries, y: Entries)
    decreases WeightAll(x) + WeightAll(y)
  {
    y.Cons? &&
    (x.Cons? ==>
       PairLess(x, y) || (!PairLess(y, x) && MapLess(x.rest, y.rest)))
  }

  /** `std::pair::operator<` on the first entries. */
  predicate PairLess(x: Entries, y: Entries)
    requires x.Cons? && y.Cons?
    decreases WeightAll(x) + WeightAll(y), 0
  {
    KeyLess(x.key, y.key) || (!KeyLess(y.key, x.key) && Less(x.value, y.value))
  }

  /** `Value::operator==` */
  predicate Same(a: Value, b: Value)
    decreases a
  {
    match (a.data, b.data)
    case (Null, Null) => true
    case (Int(x), Int(y)) => x == y
    case (UInt(x), UInt(y)) => x == y
    case (Real(x), Real(y)) => DoubleEqual(x, y)
    case (Bool(x), Bool(y)) => x == y
    case (Str(x), Str(y)) => x == y
    case (Arr(x), Arr(y)) => Count(x) == Count(y) && MapSame(x, y)
    case (Obj(x), Obj(y)) => Count(x) == Count(y) && MapSame(x, y)
    case (_, _) => false
  }

  predicate MapSame(x: Entries, y: Entries)
    requires Count(x) == Count(y)
    decreases x
  {
    x.Cons? ==> x.key == y.key && Same(x.value, y.value) && MapSame(x.rest, y.rest)
  }

  /** `Value::compare` */
  function Compare(a: Value, b: Value): int {
    if Less(a, b) then -1 else if Less(b, a) then 1 else 0
  }

  // ---------------------------------------------------------------- what the order needs

  /** No node holds a not-a-number. */
  predicate NaNFree(v: Value)
    decreases v
  {
    match v.data
    case Real(d) => !d.NaN?
    case Arr(es) => AllNaNFree(es)
    case Obj(es) => AllNaNFree(es)
    case _ => true
  }

  predicate AllNaNFree(es: Entries)
    decreases es
  {
    es.Cons? ==> NaNFree(es.value) && AllNaNFree(es.rest)
  }

  /** Nothing comes after a not-a-number: on every level only the last entry may hold one. */
  predicate Late(v: Value)
    decreases v
  {
    match v.data
    case Arr(es) => AllLate(es)
    case Obj(es) => AllLate(es)
    case _ => true
  }

  predicate AllLate(es: Entries)
    decreases es
  {
    es.Cons? ==> if es.rest.Nil? then Late(es.value) else NaNFree(es.value) && AllLate(es.rest)
  }

  lemma {:induction false} NaNFreeIsLate(v: Value)
    requires NaNFree(v)
    ensures Late(v)
    decreases v
  {
    match v.data
    case Arr(es) => AllNaNFreeIsLate(es);
    case Obj(es) => AllNaNFreeIsLate(es);
    case _ =>
  }

  lemma {:induction false} AllNaNFreeIsLate(es: Entries)
    requires AllNaNFree(es)
    ensures AllLate(es)
    decreases es
  {
    if es.Cons? {
      NaNFreeIsLate(es.value);
      AllNaNFreeIsLate(es.rest);
    }
  }

  /** Arrays are keyed by index, objects by name, and map sizes fit an `int`. */
  ghost predicate Shaped(v: Value)
    decreases v
  {
    match v.data
    case Arr(es) => Count(es) <= MAX_INT && AllShaped(es, true)
    case Obj(es) => Count(es) <= MAX_INT && AllShaped(es, false)
    case _ => true
  }

  ghost predicate AllShaped(es: Entries, indexed: bool)
    decreases es
  {
    es.Cons? ==> es.key.Index? == indexed && Shaped(es.value) && AllShaped(es.rest, indexed)
  }

  // ---------------------------------------------------------------- equality

  /** `==` is reflexive at a value exactly when no NaN is inside. */
  lemma {:induction false} SameReflexive(v: Value)
    ensures Same(v, v) <==> NaNFree(v)
    decreases v
  {
    match v.data
    case Arr(es) => MapSameReflexive(es);
    case Obj(es) => MapSameReflexive(es);
    case _ =>
  }

  lemma {:induction false} MapSameReflexive(es: Entries)
    ensures MapSame(es, es) <==> AllNaNFree(es)
    decreases es
  {
    if es.Cons? {
      SameReflexive(es.value);
      MapSameReflexive(es.rest);
    }
  }

  /** On NaN-free values `==` holds exactly when the trees agree apart from their offsets. */
  lemma {:induction false} SameIsErasedEquality(a: Value, b: Value)
    requires NaNFree(a)
    ensures Same(a, b) <==> Erase(a) == Erase(b)
    decreases a
  {
    match (a.data, b.data)
    case (Arr(x), Arr(y)) => MapSameIsErasedEquality(x, y);
    case (Obj(x), Obj(y)) => MapSameIsErasedEquality(x, y);
    case (_, _) =>
  }

  lemma {:induction false} EraseCount(x: Entries)
    ensures Count(EraseAll(x)) == Count(x)
  {
    if x.Cons? {
      EraseCount(x.rest);
    }
  }

  lemma {:induction false} MapSameIsErasedEquality(x: Entries, y: Entries)
    requires AllNaNFree(x)
    ensures (Count(x) == Count(y) && MapSame(x, y)) <==> EraseAll(x) == EraseAll(y)
    decreases x
  {
    EraseCount(x);
    EraseCount(y);
    if x.Cons? && y.Cons? {
      SameIsErasedEquality(x.value, y.value);
      MapSameIsErasedEquality(x.rest, y.rest);
    }
  }

  // ---------------------------------------------------------------- the strict total order

  function EntriesOf(d: Data): Entries
    requires d.Arr? || d.Obj?
  {
    if d.Arr? then d.elems else d.members
  }

  predicate SameContainers(a: Value, b: Value) {
    (a.data.Arr? && b.data.Arr?) || (a.data.Obj? && b.data.Obj?)
  }

  /** Containers of one type compare by size first, then entry by entry. */
  lemma ContainersCompare(a: Value, b: Value)
    requires SameContainers(a, b) && Shaped(a) && Shaped(b)
    ensures var x, y := EntriesOf(a.data), EntriesOf(b.data);
            && Less(a, b) == (Count(x) < Count(y) || (Count(x) == Count(y) && MapLess(x, y)))
            && Same(a, b) == (Count(x) == Count(y) && MapSame(x, y))
  {
    hide Less, Same, MapLess, MapSame, Count, SizeDelta;
    SmallSizes(a, b);
    ContainersLess(a, b);
    ContainersSame(a, b);
  }

  lemma SmallSizes(a: Value, b: Value)
    requires SameContainers(a, b) && Shaped(a) && Shaped(b)
    ensures var x, y := EntriesOf(a.data), EntriesOf(b.data); SizeDelta(x, y) == Count(x) - Count(y)
  {
  }

  lemma ContainersLess(a: Value, b: Value)
    requires SameContainers(a, b)
    ensures var x, y := EntriesOf(a.data), EntriesOf(b.data);
            Less(a, b) == if SizeDelta(x, y) != 0 then SizeDelta(x, y) < 0 else MapLess(x, y)
  {
    hide SizeDelta, MapLess, PairLess, Count;
  }

  lemma ContainersSame(a: Value, b: Value)
    requires SameContainers(a, b)
    ensures var x, y := EntriesOf(a.data), EntriesOf(b.data); Same(a, b) == (Count(x) == Count(y) && MapSame(x, y))
  {
    hide MapSame, Count;
  }

  /** Values that are not containers of one type compare by type, or as scalars. */
  lemma {:induction false} ScalarTrichotomy(a: Value, b: Value)
    requires !SameContainers(a, b) && NaNFree(a) && NaNFree(b)
    ensures ExactlyOne(Less(a, b), Less(b, a), Same(a, b))
    ensures Same(a, b) ==> a.data == b.data
  {
    hide MapLess, MapSame;
    if a.data.Str? && b.data.Str? && a.data.s.Some? && b.data.s.Some? {
      StrTrichotomy(a.data.s.value, b.data.s.value);
    }
  }

  /** The three cases `a < b`, `b < a`, `a == b` exclude each other and one holds. */
  ghost predicate ExactlyOne(p: bool, q: bool, r: bool) {
    (p || q || r) && !(p && q) && !(p && r) && !(q && r)
  }

  lemma {:induction false} Trichotomy(a: Value, b: Value)
    requires Shaped(a) && Shaped(b) && NaNFree(a) && NaNFree(b)
    ensures ExactlyOne(Less(a, b), Less(b, a), Same(a, b))
    decreases a
  {
    hide Less, Same;
    if SameContainers(a, b) {
      ContainersCompare(a, b);
      ContainersCompare(b, a);
      MapTrichotomy(EntriesOf(a.data), EntriesOf(b.data), a.data.Arr?);
      SameSymmetric(a, b);
    } else {
      ScalarTrichotomy(a, b);
    }
  }

  lemma SameSymmetric(a: Value, b: Value)
    requires NaNFree(a) && NaNFree(b)
    ensures Same(a, b) == Same(b, a)
  {
    SameIsErasedEquality(a, b);
    SameIsErasedEquality(b, a);
  }

  lemma {:induction false} MapTrichotomy(x: Entries, y: Entries, indexed: bool)
    requires AllShaped(x, indexed) && AllShaped(y, indexed) && AllNaNFree(x) && AllNaNFree(y)
    ensures ExactlyOne(MapLess(x, y), MapLess(y, x), Count(x) == Count(y) && MapSame(x, y))
    decreases x
  {
    if x.Cons? && y.Cons? {
      KeyTrichotomy(x.key, y.key);
      Trichotomy(x.value, y.value);
      MapTrichotomy(x.rest, y.rest, indexed);
    }
  }

  /** On values in which nothing comes after a not-a-number `<` is transitive. */
  lemma {:induction false} LateTransitive(a: Value, b: Value, c: Value)
    requires Shaped(a) && Shaped(b) && Shaped(c) && Late(a) && Late(b) && Late(c)
    requires Less(a, b) && Less(b, c)
    ensures Less(a, c)
    decreases a
  {
    hide Less;
    if SameContainers(a, b) && SameContainers(b, c) {
      ContainersCompare(a, b);
      ContainersCompare(b, c);
      ContainersCompare(a, c);
      var x, y, z := EntriesOf(a.data), EntriesOf(b.data), EntriesOf(c.data);
      if Count(x) == Count(y) == Count(z) {
        MapTransitive(x, y, z, a.data.Arr?);
      }
    } else {
      ScalarTransitive(a, b, c);
    }
  }

  /** In particular on values without any. */
  lemma Transitive(a: Value, b: Value, c: Value)
    requires Shaped(a) && Shaped(b) && Shaped(c) && NaNFree(a) && NaNFree(b) && NaNFree(c)
    requires Less(a, b) && Less(b, c)
    ensures Less(a, c)
  {
    hide Less, Shaped, Late, NaNFree;
    NaNFreeIsLate(a);
    NaNFreeIsLate(b);
    NaNFreeIsLate(c);
    LateTransitive(a, b, c);
  }

  lemma ScalarTransitive(a: Value, b: Value, c: Value)
    requires !SameContainers(a, b) || !SameContainers(b, c)
    requires Less(a, b) && Less(b, c)
    ensures Less(a, c)
  {
    hide MapLess, SizeDelta;
    if a.data.Str? && b.data.Str? && c.data.Str? && a.data.s.Some? {
      StrTransitive(a.data.s.value, b.data.s.value, c.data.s.value);
    }
  }

  /** The order does not see the offsets. */
  lemma {:induction false} LessErased(a: Value, b: Value)
    ensures Less(Erase(a), Erase(b)) == Less(a, b)
    ensures Less(Erase(b), Erase(a)) == Less(b, a)
    decreases a
  {
    hide Less, MapLess, Count;
    if SameContainers(a, b) {
      var x, y := EntriesOf(a.data), EntriesOf(b.data);
      ErasedContainers(a, b);
      ContainersLess(a, b);
      ContainersLess(b, a);
      ContainersLess(Erase(a), Erase(b));
      ContainersLess(Erase(b), Erase(a));
      EraseCount(x);
      EraseCount(y);
      MapLessErased(x, y);
    } else {
      ScalarLessErased(a, b);
      ScalarLessErased(b, a);
    }
  }

  lemma ScalarLessErased(a: Value, b: Value)
    requires !SameContainers(a, b)
    ensures Less(Erase(a), Erase(b)) == Less(a, b)
  {
    hide MapLess, PairLess, StrLess, DoubleLess, EraseAll;
  }

  lemma ErasedContainers(a: Value, b: Value)
    requires SameContainers(a, b)
    ensures SameContainers(Erase(a), Erase(b))
    ensures EntriesOf(Erase(a).data) == EraseAll(EntriesOf(a.data))
    ensures EntriesOf(Erase(b).data) == EraseAll(EntriesOf(b.data))
  {
  }

  lemma {:induction false} MapLessErased(x: Entries, y: Entries)
    ensures MapLess(EraseAll(x), EraseAll(y)) == MapLess(x, y)
    ensures MapLess(EraseAll(y), EraseAll(x)) == MapLess(y, x)
    decreases x
  {
    if x.Cons? && y.Cons? {
      LessErased(x.value, y.value);
      MapLessErased(x.rest, y.rest);
    }
  }

  /** A value that equals another one holds no not-a-number. */
  lemma {:induction false} SameHasNoNaN(v: Value, w: Value)
    requires Same(v, w)
    ensures NaNFree(v)
    decreases v
  {
    match v.data
    case Arr(es) => MapSameHasNoNaN(es, EntriesOf(w.data));
    case Obj(es) => MapSameHasNoNaN(es, EntriesOf(w.data));
    case _ =>
  }

  lemma {:induction false} MapSameHasNoNaN(x: Entries, y: Entries)
    requires Count(x) == Count(y) && MapSame(x, y)
    ensures AllNaNFree(x)
    decreases x
  {
    if x.Cons? {
      SameHasNoNaN(x.value, y.value);
      MapSameHasNoNaN(x.rest, y.rest);
    }
  }

  /** Equal values compare alike with every third value, whatever that holds. */
  lemma SameSubstitutes(a: Value, b: Value, c: Value)
    requires Same(a, b)
    ensures Less(a, c) == Less(b, c) && Less(c, a) == Less(c, b)
  {
    hide Less, Same, Erase, NaNFree;
    SameHasNoNaN(a, b);
    SameIsErasedEquality(a, b);
    LessErased(a, c);
    LessErased(b, c);
  }

  /** Maps of one size with nothing after a not-a-number, or of any sizes without any */
  lemma {:induction false} MapTransitive(x: Entries, y: Entries, z: Entries, indexed: bool)
    requires AllShaped(x, indexed) && AllShaped(y, indexed) && AllShaped(z, indexed)
    requires AllLate(x) && AllLate(y) && AllLate(z)
    requires Count(x) == Count(y) == Count(z) || (AllNaNFree(x) && AllNaNFree(y) && AllNaNFree(z))
    requires MapLess(x, y) && MapLess(y, z)
    ensures MapLess(x, z)
    decreases x
  {
    if x.Nil? {
      return;
    }
    assert y.Cons? && z.Cons?;
    if Count(x) == Count(y) == Count(z) {
      SameCounts(x, y);
      SameCounts(x, z);
    }
    HeadIsLate(x);
    HeadIsLate(y);
    HeadIsLate(z);
    if Count(x) == Count(y) == Count(z) && x.rest.Nil? {
      LastPair(x, y);
      LastPair(y, z);
      LastPair(x, z);
      PairTransitive(x, y, z, indexed);
      return;
    }
    PairCases(x, y, indexed);
    PairCases(y, z, indexed);
    PairCases(x, z, indexed);
    if PairLess(x, y) && PairLess(y, z) {
      NaNFreeIsLate(x.value);
      NaNFreeIsLate(y.value);
      NaNFreeIsLate(z.value);
      PairTransitive(x, y, z, indexed);
    } else if PairLess(x, y) {
      PairSubstitutes(y, z, x, indexed);
    } else if PairLess(y, z) {
      PairSubstitutes(x, y, z, indexed);
    } else {
      PairSubstitutes(x, y, z, indexed);
      MapTransitive(x.rest, y.rest, z.rest, indexed);
    }
  }

  lemma SameCounts(x: Entries, y: Entries)
    requires x.Cons? && y.Cons? && Count(x) == Count(y)
    ensures Count(x.rest) == Count(y.rest) && (x.rest.Nil? <==> y.rest.Nil?)
  {
  }

  /** What can be said of the first entry */
  lemma HeadIsLate(x: Entries)
    requires x.Cons? && AllLate(x)
    ensures if x.rest.Nil? then Late(x.value) else NaNFree(x.value) && AllLate(x.rest)
    ensures AllNaNFree(x) ==> NaNFree(x.value) && AllNaNFree(x.rest)
  {
  }

  /** The last entries decide by themselves. */
  lemma LastPair(x: Entries, y: Entries)
    requires x.Cons? && y.Cons? && x.rest.Nil? && y.rest.Nil?
    ensures MapLess(x, y) == PairLess(x, y)
  {
    assert !MapLess(Nil, Nil);
  }

  /** What the first entries of two maps need to compare */
  ghost predicate ShapedPair(x: Entries, indexed: bool) {
    x.Cons? && x.key.Index? == indexed && Shaped(x.value)
  }

  lemma {:induction false} PairCases(x: Entries, y: Entries, indexed: bool)
    requires ShapedPair(x, indexed) && ShapedPair(y, indexed) && NaNFree(x.value) && NaNFree(y.value)
    ensures ExactlyOne(PairLess(x, y), PairLess(y, x), x.key == y.key && Same(x.value, y.value))
    decreases x, 0
  {
    KeyTrichotomy(x.key, y.key);
    Trichotomy(x.value, y.value);
  }

  lemma {:induction false} PairTransitive(x: Entries, y: Entries, z: Entries, indexed: bool)
    requires ShapedPair(x, indexed) && ShapedPair(y, indexed) && ShapedPair(z, indexed)
    requires Late(x.value) && Late(y.value) && Late(z.value)
    requires PairLess(x, y) && PairLess(y, z)
    ensures PairLess(x, z)
    decreases x, 0
  {
    KeyTrichotomy(x.key, y.key);
    KeyTrichotomy(y.key, z.key);
    KeyTrichotomy(x.key, z.key);
    if x.key == y.key == z.key {
      LateTransitive(x.value, y.value, z.value);
    } else if KeyLess(x.key, y.key) && KeyLess(y.key, z.key) {
      KeyTransitive(x.key, y.key, z.key);
    }
  }

  lemma {:induction false} PairSubstitutes(x: Entries, y: Entries, z: Entries, indexed: bool)
    requires ShapedPair(x, indexed) && ShapedPair(y, indexed) && ShapedPair(z, indexed)
    requires NaNFree(x.value) && NaNFree(y.value) && NaNFree(z.value)
    requires x.key == y.key && Same(x.value, y.value)
    ensures PairLess(x, z) == PairLess(y, z) && PairLess(z, x) == PairLess(z, y)
  {
    SameSubstitutes(x.value, y.value, z.value);
  }

  /** No two values are less than each other, whatever they hold. */
  lemma {:induction false} Asymmetric(a: Value, b: Value)
    requires Shaped(a) && Shaped(b)
    ensures !(Less(a, b) && Less(b, a))
    decreases a
  {
    if SameContainers(a, b) {
      ContainersCompare(a, b);
      ContainersCompare(b, a);
      hide Less;
      MapAsymmetric(EntriesOf(a.data), EntriesOf(b.data), a.data.Arr?);
    } else if a.data.Str? && b.data.Str? && a.data.s.Some? && b.data.s.Some? {
      StrTrichotomy(a.data.s.value, b.data.s.value);
    }
  }

  lemma {:induction false} MapAsymmetric(x: Entries, y: Entries, indexed: bool)
    requires AllShaped(x, indexed) && AllShaped(y, indexed)
    ensures !(MapLess(x, y) && MapLess(y, x))
    decreases x
  {
    if x.Cons? && y.Cons? {
      KeyTrichotomy(x.key, y.key);
      Asymmetric(x.value, y.value);
      MapAsymmetric(x.rest, y.rest, indexed);
    }
  }

  /**
   `compare` is negative exactly if the left side is less and positive exactly if the right side is,
   changes sign when its sides are swapped, and is 0 exactly on equal values if no not-a-number is inside.
   */
  lemma CompareAgrees(a: Value, b: Value)
    requires Shaped(a) && Shaped(b)
    ensures (Compare(a, b) < 0 <==> Less(a, b)) && (Compare(a, b) > 0 <==> Less(b, a))
    ensures Compare(a, b) == -Compare(b, a) && -1 <= Compare(a, b) <= 1
    ensures NaNFree(a) && NaNFree(b) ==> (Compare(a, b) == 0 <==> Same(a, b))
  {
    hide Less, Same, Shaped, NaNFree;
    Asymmetric(a, b);
    if NaNFree(a) && NaNFree(b) {
      Trichotomy(a, b);
    }
  }

  // ---------------------------------------------------------------- where it fails

  /** An array of two reals. */
  function Pair(x: Double, y: Double): Value {
    Value(Arr(Cons(Index(0), Value(Real(x), 0, 0), Tail(y))), 0, 0)
  }

  function Tail(y: Double): Entries {
    Cons(Index(1), Value(Real(y), 0, 0), Nil)
  }

  lemma RealOrder(x: Double, y: Double)
    ensures Less(Value(Real(x), 0, 0), Value(Real(y), 0, 0)) <==> DoubleLess(x, y)
  {
  }

  lemma TailOrder(x: Double, y: Double)
    ensures Count(Tail(x)) == 1 && AllShaped(Tail(x), true)
    ensures MapLess(Tail(x), Tail(y)) <==> DoubleLess(x, y)
  {
    RealOrder(x, y);
    RealOrder(y, x);
    assert !MapLess(Nil, Nil);
    assert AllShaped(Nil, true);
  }

  lemma PairShaped(x: Double, x': Double)
    ensures Shaped(Pair(x, x')) && Count(Pair(x, x').data.elems) == 2
  {
    TailOrder(x', x');
  }

  lemma PairEntriesOrder(x: Double, x': Double, y: Double, y': Double)
    ensures var a, b := Pair(x, x').data.elems, Pair(y, y').data.elems;
            MapLess(a, b) <==> DoubleLess(x, y) || (!DoubleLess(y, x) && DoubleLess(x', y'))
  {
    TailOrder(x', y');
    RealOrder(x, y);
    RealOrder(y, x);
    hide Less;
    var a, b := Pair(x, x').data.elems, Pair(y, y').data.elems;
    assert PairLess(a, b) <==> DoubleLess(x, y);
    assert PairLess(b, a) <==> DoubleLess(y, x);
  }

  lemma PairOrder(x: Double, x': Double, y: Double, y': Double)
    ensures Less(Pair(x, x'), Pair(y, y')) <==> DoubleLess(x, y) || (!DoubleLess(y, x) && DoubleLess(x', y'))
  {
    PairEntriesOrder(x, x', y, y');
    PairShaped(x, x');
    PairShaped(y, y');
    ContainersCompare(Pair(x, x'), Pair(y, y'));
    hide Less, MapLess, Count;
  }

  /** With a NaN inside, `<` is not transitive: the first element of the middle array hides the order. */
  lemma NaNBreaksTransitivity()
    ensures exists a, b, c ::
              Shaped(a) && Shaped(b) && Shaped(c) && Less(a, b) && Less(b, c) && !Less(a, c)
  {
    PairOrder(Finite(5.0), Finite(0.0), NaN, Finite(1.0));
    PairOrder(NaN, Finite(1.0), Finite(3.0), Finite(2.0));
    PairOrder(Finite(5.0), Finite(0.0), Finite(3.0), Finite(2.0));
    PairShaped(Finite(5.0), Finite(0.0));
    PairShaped(NaN, Finite(1.0));
    PairShaped(Finite(3.0), Finite(2.0));
  }

  /** What two containers of one type need apart from their sizes */
  ghost predicate Comparable(a: Value, b: Value) {
    && SameContainers(a, b)
    && AllShaped(EntriesOf(a.data), a.data.Arr?) && AllShaped(EntriesOf(b.data), a.data.Arr?)
    && AllNaNFree(EntriesOf(a.data)) && AllNaNFree(EntriesOf(b.data))
  }

  function Delta(a: Value, b: Value): int
    requires SameContainers(a, b)
  {
    SizeDelta(EntriesOf(a.data), EntriesOf(b.data))
  }

  /** Containers of one type compare by the cut size difference first. */
  lemma ComparesByDelta(a: Value, b: Value)
    requires SameContainers(a, b)
    ensures Less(a, b) == (Delta(a, b) < 0 || (Delta(a, b) == 0 && MapLess(EntriesOf(a.data), EntriesOf(b.data))))
    ensures var x, y := EntriesOf(a.data), EntriesOf(b.data); Same(a, b) == (Count(x) == Count(y) && MapSame(x, y))
  {
    hide Less, Same, MapLess, MapSame, SizeDelta, Count;
    ContainersLess(a, b);
    ContainersSame(a, b);
  }

  /** Only a size difference of 2^31, up to multiples of 2^32, puts two containers of one type in each other's front. */
  lemma ContainersTrichotomyIff(a: Value, b: Value)
    requires Comparable(a, b)
    ensures var d := Count(EntriesOf(a.data)) - Count(EntriesOf(b.data));
            && (Less(a, b) && Less(b, a) <==> d % 0x1_0000_0000 == 0x8000_0000)
            && (ExactlyOne(Less(a, b), Less(b, a), Same(a, b)) <==> d % 0x1_0000_0000 != 0x8000_0000)
  {
    hide Less, Same, MapLess, MapSame, Count, ToInt32;
    var x, y := EntriesOf(a.data), EntriesOf(b.data);
    ComparesByDelta(a, b);
    ComparesByDelta(b, a);
    MapTrichotomy(x, y, a.data.Arr?);
    SwappedMaps(x, y);
    CutNegates(Count(x) - Count(y));
    assert Count(y) - Count(x) == -(Count(x) - Count(y));
  }

  lemma CutNegates(d: int)
    ensures d % 0x1_0000_0000 == 0x8000_0000 <==> ToInt32(d) < 0 && ToInt32(-d) < 0
    ensures d % 0x1_0000_0000 != 0x8000_0000 ==> ToInt32(-d) == -ToInt32(d)
    ensures d == 0 ==> ToInt32(d) == 0
  {
  }

  lemma SwappedMaps(x: Entries, y: Entries)
    requires AllNaNFree(x) && AllNaNFree(y)
    ensures (Count(x) == Count(y) && MapSame(x, y)) == (Count(y) == Count(x) && MapSame(y, x))
  {
    MapSameIsErasedEquality(x, y);
    MapSameIsErasedEquality(y, x);
  }

  lemma CutSum(p: int, q: int)
    requires ToInt32(p) <= 0 && ToInt32(q) <= 0
    ensures var sum := ToInt32(p) + ToInt32(q);
            ToInt32(p + q) == if sum >= -0x8000_0000 then sum else sum + 0x1_0000_0000
  {
  }

  lemma DeltaSum(a: Value, b: Value, c: Value)
    requires SameContainers(a, b) && SameContainers(b, c) && Delta(a, b) <= 0 && Delta(b, c) <= 0
    ensures SameContainers(a, c)
    ensures var sum := Delta(a, b) + Delta(b, c);
            Delta(a, c) == if sum >= -0x8000_0000 then sum else sum + 0x1_0000_0000
  {
    hide ToInt32;
    var x, y, z := EntriesOf(a.data), EntriesOf(b.data), EntriesOf(c.data);
    CutSum(Count(x) - Count(y), Count(y) - Count(z));
    assert Count(x) - Count(y) + (Count(y) - Count(z)) == Count(x) - Count(z);
  }

  /** Less is transitive on three containers of one type unless the cut size differences together leave 32 bits. */
  lemma ContainersTransitiveIff(a: Value, b: Value, c: Value)
    requires Comparable(a, b) && Comparable(b, c) && Less(a, b) && Less(b, c)
    ensures var sum := Delta(a, b) + Delta(b, c);
            Less(a, c) <==>
              sum >= -0x8000_0000 || (sum == -0x1_0000_0000 && MapLess(EntriesOf(a.data), EntriesOf(c.data)))
  {
    hide Less, MapLess, Delta;
    ComparesByDelta(a, b);
    ComparesByDelta(b, c);
    DeltaSum(a, b, c);
    ComparesByDelta(a, c);
    DeltaBound(a, b);
    DeltaBound(b, c);
    if Delta(a, b) == 0 && Delta(b, c) == 0 {
      AllNaNFreeIsLate(EntriesOf(a.data));
      AllNaNFreeIsLate(EntriesOf(b.data));
      AllNaNFreeIsLate(EntriesOf(c.data));
      MapTransitive(EntriesOf(a.data), EntriesOf(b.data), EntriesOf(c.data), a.data.Arr?);
    }
  }

  lemma DeltaBound(a: Value, b: Value)
    requires SameContainers(a, b)
    ensures -0x8000_0000 <= Delta(a, b)
  {
  }

  function Nulls(first: nat, n: nat): (es: Entries)
    ensures Count(es) == n
    decreases n
  {
    if n == 0 then Nil else Cons(Index(first), NULL_VALUE, Nulls(first + 1, n - 1))
  }

  /** An array of `n` nulls */
  function NullArray(n: nat): Value {
    Value(Arr(Nulls(0, n)), 0, 0)
  }

  lemma {:induction false} NullsAreShaped(first: nat, n: nat)
    ensures AllShaped(Nulls(first, n), true) && AllNaNFree(Nulls(first, n))
    decreases n
  {
    if n > 0 {
      NullsAreShaped(first + 1, n - 1);
    }
  }

  lemma ArraysAreComparable(x: Entries, y: Entries)
    requires AllShaped(x, true) && AllShaped(y, true) && AllNaNFree(x) && AllNaNFree(y)
    ensures Comparable(Value(Arr(x), 0, 0), Value(Arr(y), 0, 0))
    ensures Delta(Value(Arr(x), 0, 0), Value(Arr(y), 0, 0)) == ToInt32(Count(x) - Count(y))
  {
    hide ToInt32;
  }

  lemma NullArraysAreComparable(m: nat, n: nat)
    ensures Comparable(NullArray(m), NullArray(n))
    ensures Delta(NullArray(m), NullArray(n)) == ToInt32(m - n)
  {
    hide Comparable, Delta, ToInt32;
    NullsAreShaped(0, m);
    NullsAreShaped(0, n);
    ArraysAreComparable(Nulls(0, m), Nulls(0, n));
  }

  /** An array of 2^31 nulls and the empty array are each below the other: the difference is cut to 32 bits. */
  lemma HugeArraysAreBothLess()
    ensures Less(NullArray(0x8000_0000), NullArray(0)) && Less(NullArray(0), NullArray(0x8000_0000))
  {
    hide Less, Comparable, Nulls, ExactlyOne, Same;
    NullArraysAreComparable(0x8000_0000, 0);
    ContainersTrichotomyIff(NullArray(0x8000_0000), NullArray(0));
  }

  /** Each of three arrays is below the next, but the first is not below the last. */
  lemma HugeArraysAreNotTransitive()
    ensures var a, b, c := NullArray(0), NullArray(0x7FFF_FFFF), NullArray(0xFFFF_FFFE);
            Less(a, b) && Less(b, c) && !Less(a, c)
  {
    hide Less, Comparable, Nulls, MapLess;
    NullArraysAreComparable(0, 0x7FFF_FFFF);
    NullArraysAreComparable(0x7FFF_FFFF, 0xFFFF_FFFE);
    ComparesByDelta(NullArray(0), NullArray(0x7FFF_FFFF));
    ComparesByDelta(NullArray(0x7FFF_FFFF), NullArray(0xFFFF_FFFE));
    ContainersTransitiveIff(NullArray(0), NullArray(0x7FFF_FFFF), NullArray(0xFFFF_FFFE));
  }
}
