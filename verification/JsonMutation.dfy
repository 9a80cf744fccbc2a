/**
 The operations of `Json::Value` that change a tree in place. A call that throws leaves the
 value as it is and returns false.
 */
module JsonMutation {
  import opened JsonTool
  import opened JsonValue
  import opened Wrappers

  /** `ArrayIndex` is an unsigned 32-bit number. */
  const INDEX_RANGE: nat := 0x1_0000_0000

  /** `std::map::erase` of a key */
  function Remove(es: Entries, key: Key): Entries {
    match es
    case Nil => Nil
    case Cons(k, v, rest) => if k == key then rest else Cons(k, v, Remove(rest, key))
  }

  /** The map after the first access to a key: a null is inserted if there is none. */
  function Touch(es: Entries, key: Key): Entries {
    if Find(es, key).Some? then es else Put(es, key, NULL_VALUE)
  }

  /** All keys are indices in range, in order. */
  ghost predicate IsArray(es: Entries) {
    Sorted(es) && IndicesBelow(es, INDEX_RANGE)
  }

  ghost predicate IndicesBelow(es: Entries, bound: nat) {
    es.Cons? ==> es.key.Index? && es.key.i < bound && IndicesBelow(es.rest, bound)
  }

  // ---------------------------------------------------------------- laws of the map

  lemma {:induction false} FindRemoveFrom(low: Key, es: Entries, key: Key, other: Key)
    requires SortedFrom(low, es)
    ensures Find(Remove(es, key), other) == if other == key then None else Find(es, other)
    decreases es
  {
    if es.Cons? {
      if es.key == key {
        NotFoundBelow(es.key, es.rest, key);
      } else {
        FindRemoveFrom(es.key, es.rest, key, other);
      }
    }
  }

  /** After removing a key a lookup finds everything else and nothing under that key. */
  lemma FindRemove(es: Entries, key: Key, other: Key)
    requires Sorted(es)
    ensures Find(Remove(es, key), other) == if other == key then None else Find(es, other)
  {
    if es.Cons? {
      if es.key == key {
        NotFoundBelow(es.key, es.rest, key);
      } else {
        FindRemoveFrom(es.key, es.rest, key, other);
      }
    }
  }

  lemma {:induction false} RemoveKeepsSortedFrom(low: Key, es: Entries, key: Key)
    requires SortedFrom(low, es)
    ensures SortedFrom(low, Remove(es, key))
    decreases es
  {
    if es.Cons? {
      if es.key == key {
        SortedWeaken(low, es.key, es.rest);
      } else {
        RemoveKeepsSortedFrom(es.key, es.rest, key);
      }
    }
  }

  lemma {:induction false} RemoveKeepsIndices(es: Entries, key: Key, bound: nat)
    requires IndicesBelow(es, bound)
    ensures IndicesBelow(Remove(es, key), bound)
  {
    if es.Cons? && es.key != key {
      RemoveKeepsIndices(es.rest, key, bound);
    }
  }

  lemma RemoveKeepsArray(es: Entries, key: Key)
    requires IsArray(es)
    ensures IsArray(Remove(es, key))
  {
    RemoveKeepsIndices(es, key, INDEX_RANGE);
    if es.Cons? {
      if es.key == key {
        if es.rest.Cons? {
          assert SortedFrom(es.rest.key, es.rest.rest);
        }
      } else {
        RemoveKeepsSortedFrom(es.key, es.rest, key);
      }
    }
  }

  lemma {:induction false} PutKeepsIndices(es: Entries, index: nat, value: Value, bound: nat)
    requires IndicesBelow(es, bound) && index < bound
    ensures IndicesBelow(Put(es, Index(index), value), bound)
  {
    if es.Cons? && es.key != Index(index) && !KeyLess(Index(index), es.key) {
      PutKeepsIndices(es.rest, index, value, bound);
    }
  }

  lemma PutKeepsArray(es: Entries, index: nat, value: Value)
    requires IsArray(es) && index < INDEX_RANGE
    ensures IsArray(Put(es, Index(index), value))
  {
    PutKeepsIndices(es, index, value, INDEX_RANGE);
    PutKeepsSorted(es, Index(index), value);
  }

  lemma {:induction false} NoneBehindFrom(low: Key, es: Entries, i: nat)
    requires SortedFrom(low, es) && IndicesBelow(es, INDEX_RANGE) && low.Index?
    ensures es.Cons? ==> low.i + 1 < ArraySize(es) && (i >= ArraySize(es) ==> Find(es, Index(i)) == None)
    decreases es
  {
    if es.Cons? {
      NoneBehindFrom(es.key, es.rest, i);
    }
  }

  lemma NoneBehind(es: Entries, i: nat)
    requires IsArray(es) && i >= ArraySize(es)
    ensures Find(es, Index(i)) == None
  {
    if es.Cons? {
      NoneBehindFrom(es.key, es.rest, i);
    }
  }

  lemma {:induction false} LastIsPresentFrom(low: Key, es: Entries)
    requires SortedFrom(low, es) && IndicesBelow(es, INDEX_RANGE) && low.Index?
    ensures es.Cons? ==> low.i + 1 < ArraySize(es) && Find(es, Index(ArraySize(es) - 1)).Some?
    decreases es
  {
    if es.Cons? {
      LastIsPresentFrom(es.key, es.rest);
    }
  }

  /** The size is one more than the highest index that is present. */
  lemma SizeIsHighest(es: Entries)
    requires IsArray(es)
    ensures ArraySize(es) > 0 ==> Find(es, Index(ArraySize(es) - 1)).Some?
    ensures forall i: nat :: i >= ArraySize(es) ==> Find(es, Index(i)) == None
  {
    if es.Cons? {
      LastIsPresentFrom(es.key, es.rest);
    }
    forall i: nat | i >= ArraySize(es) ensures Find(es, Index(i)) == None {
      NoneBehind(es, i);
    }
  }

  /** The highest index that is present determines the size. */
  lemma SizeIs(es: Entries, n: nat)
    requires IsArray(es) && n > 0 && Find(es, Index(n - 1)).Some?
    requires forall i: nat :: i >= n ==> Find(es, Index(i)) == None
    ensures ArraySize(es) == n
  {
    SizeIsHighest(es);
  }

  lemma {:induction false} AllBelowSize(low: Key, es: Entries)
    requires SortedFrom(low, es) && IndicesBelow(es, INDEX_RANGE) && low.Index?
    ensures es.Cons? ==> AllBelow(es, Index(ArraySize(es))) && low.i < ArraySize(es)
    decreases es
  {
    if es.Cons? {
      AllBelowSize(es.key, es.rest);
    }
  }

  /** Writing behind the end appends. */
  lemma PutAtEnd(es: Entries, value: Value)
    requires IsArray(es)
    ensures Put(es, Index(ArraySize(es)), value) == Append(es, Cons(Index(ArraySize(es)), value, Nil))
  {
    if es.Cons? {
      AllBelowSize(es.key, es.rest);
    }
    PutLast(es, Index(ArraySize(es)), value);
  }

  // ---------------------------------------------------------------- a value that changes

  /** A container without its entries */
  function Emptied(d: Data): Data {
    if d.Arr? then Arr(Nil) else if d.Obj? then Obj(Nil) else d
  }

  /** The value with new contents; the offsets stay, but a null value is replaced by a fresh container. */
  function With(v: Value, d: Data): Value {
    if v.data.Null? then Value(d, 0, 0) else v.(data := d)
  }

  class Node {
    var value: Value

    /** An array keeps its keys in order and in range. */
    ghost predicate Valid()
      reads this
    {
      value.data.Arr? ==> IsArray(value.data.elems)
    }

    /** The elements, of which a null value has none */
    function Elements(): Entries
      reads this
    {
      if value.data.Arr? then value.data.elems else Nil
    }

    function Members(): Entries
      reads this
    {
      if value.data.Obj? then value.data.members else Nil
    }

    predicate IsArrayOrNull()
      reads this
    {
      value.data.Arr? || value.data.Null?
    }

    predicate IsObjectOrNull()
      reads this
    {
      value.data.Obj? || value.data.Null?
    }

    constructor (value: Value)
      requires value.data.Arr? ==> IsArray(value.data.elems)
      ensures Valid() && this.value == value
    {
      this.value := value;
    }

    /** The highest index may be the last of its range; one more is 0 then. */
    function Size(): nat
      reads this
    {
      match value.data
      case Arr(es) => ArraySize(es) % INDEX_RANGE
      case Obj(es) => Count(es)
      case _ => 0
    }

    /** `operator[]` with an index, to write to: a missing element is inserted, a null value becomes an array. */
    method At(index: nat) returns (ok: bool)
      requires Valid() && index < INDEX_RANGE
      modifies this
      ensures Valid() && ok == old(IsArrayOrNull())
      ensures value == if ok then With(old(value), Arr(Touch(old(Elements()), Index(index)))) else old(value)
      ensures ok ==> value.start == if old(value.data.Null?) then 0 else old(value.start)
      ensures ok ==> value.limit == if old(value.data.Null?) then 0 else old(value.limit)
    {
      if !value.data.Null? && !value.data.Arr? {
        return false;
      }
      if value.data.Null? {
        value := Value(Arr(Nil), 0, 0);
      }
      if Find(value.data.elems, Index(index)).None? {
        PutKeepsArray(value.data.elems, index, NULL_VALUE);
        value := value.(data := Arr(Put(value.data.elems, Index(index), NULL_VALUE)));
      }
      return true;
    }

    /** Assignment to an element through the reference that `operator[]` returns */
    method SetAt(index: nat, v: Value) returns (ok: bool)
      requires Valid() && index < INDEX_RANGE
      modifies this
      ensures Valid() && ok == old(IsArrayOrNull())
      ensures value == if ok then With(old(value), Arr(Put(old(Elements()), Index(index), v))) else old(value)
    {
      ok := At(index);
      if ok {
        PutTouched(old(Elements()), Index(index), v);
        PutKeepsArray(value.data.elems, index, v);
        value := value.(data := Arr(Put(value.data.elems, Index(index), v)));
      }
    }

    /** Appends behind the highest index; a full array starts again at 0. */
    method Add(v: Value) returns (ok: bool)
      requires Valid()
      modifies this
      ensures Valid() && ok == old(IsArrayOrNull())
      ensures !ok ==> value == old(value)
      ensures ok && ArraySize(old(Elements())) < INDEX_RANGE ==>
                value == With(old(value), Arr(Append(old(Elements()), Cons(Index(ArraySize(old(Elements()))), v, Nil))))
      ensures ok && ArraySize(old(Elements())) == INDEX_RANGE ==>
                value == With(old(value), Arr(Put(old(Elements()), Index(0), v)))
    {
      if !value.data.Null? && !value.data.Arr? {
        return false;
      }
      SizeInRange(Elements());
      if ArraySize(Elements()) < INDEX_RANGE {
        PutAtEnd(Elements(), v);
      }
      ok := SetAt(Size(), v);
    }

    /** `operator[]` with a name, to write to */
    method ResolveReference(key: string) returns (ok: bool)
      requires Valid()
      modifies this
      ensures Valid() && ok == old(IsObjectOrNull())
      ensures value == if ok then With(old(value), Obj(Touch(old(Members()), Name(CStr(key))))) else old(value)
      ensures ok ==> value.start == if old(value.data.Null?) then 0 else old(value.start)
      ensures ok ==> value.limit == if old(value.data.Null?) then 0 else old(value.limit)
    {
      if !value.data.Null? && !value.data.Obj? {
        return false;
      }
      if value.data.Null? {
        value := Value(Obj(Nil), 0, 0);
      }
      var actualKey := Name(CStr(key));
      if Find(value.data.members, actualKey).None? {
        value := value.(data := Obj(Put(value.data.members, actualKey, NULL_VALUE)));
      }
      return true;
    }

    /** Removes a member and returns what it was, or null. */
    method RemoveMember(key: string) returns (ok: bool, removed: Value)
      requires Valid()
      modifies this
      ensures Valid() && ok == IsObjectOrNull() == old(IsObjectOrNull())
      ensures removed == Lookup(old(Members()), Name(CStr(key)))
      ensures value == if old(value.data.Obj?) then old(value).(data := Obj(Remove(old(Members()), Name(CStr(key)))))
                       else old(value)
    {
      if !value.data.Null? && !value.data.Obj? {
        return false, NULL_VALUE;
      }
      if value.data.Null? {
        return true, NULL_VALUE;
      }
      var actualKey := Name(CStr(key));
      var found := Find(value.data.members, actualKey);
      if found.None? {
        RemoveMissing(value.data.members, actualKey);
        return true, NULL_VALUE;
      }
      value := value.(data := Obj(Remove(value.data.members, actualKey)));
      return true, found.value;
    }

    method Clear() returns (ok: bool)
      requires Valid()
      modifies this
      ensures Valid() && ok == old(IsArrayOrNull() || IsObjectOrNull())
      ensures value == if ok then Value(Emptied(old(value.data)), 0, 0) else old(value)
    {
      if !value.data.Null? && !value.data.Arr? && !value.data.Obj? {
        return false;
      }
      value := value.(start := 0, limit := 0);
      if value.data.Arr? {
        value := value.(data := Arr(Nil));
      } else if value.data.Obj? {
        value := value.(data := Obj(Nil));
      }
      return true;
    }

    /** Erases the elements from `newSize` on, one index after the other. */
    method EraseIndices(newSize: nat, oldSize: nat)
      requires Valid() && value.data.Arr? && newSize <= oldSize
      modifies this
      ensures Valid() && value == old(value).(data := Arr(EraseFrom(old(value.data.elems), newSize, oldSize)))
    {
      var index := newSize;
      while index < oldSize
        invariant newSize <= index <= oldSize && value.data.Arr? && IsArray(value.data.elems)
        invariant value == old(value).(data := Arr(EraseFrom(old(value.data.elems), newSize, index)))
      {
        RemoveKeepsArray(value.data.elems, Index(index));
        value := value.(data := Arr(Remove(value.data.elems, Index(index))));
        index := index + 1;
      }
    }

    /**
     Grows by a null at the last index, or erases the indices behind the new end. `held` tells
     whether the assertion about the new size, which is made after erasing, holds.
     */
    method Resize(newSize: nat) returns (ok: bool, held: bool)
      requires Valid() && newSize < INDEX_RANGE
      modifies this
      ensures Valid() && ok == old(IsArrayOrNull())
      ensures value == if !ok then old(value)
                       else if newSize == 0 then Value(Arr(Nil), 0, 0)
                       else With(old(value), Arr(Resized(old(Elements()), newSize)))
      ensures held <==>
                (ok && 0 < newSize <= ArraySize(old(Elements())) % INDEX_RANGE ==> ArraySize(Elements()) == newSize)
      ensures ArraySize(old(Elements())) < INDEX_RANGE ==> (held <==> (ok ==> ArraySize(Elements()) == newSize))
    {
      hide Remove, Find, ArraySize, Touch, Put, Resized, IsArray, EraseFrom, IndicesBelow;
      ResizedCases(Elements(), newSize);
      NilIsArray();
      if !value.data.Null? && !value.data.Arr? {
        return false, true;
      }
      if value.data.Null? {
        value := Value(Arr(Nil), 0, 0);
      }
      ghost var before := Elements();
      ResizedFits(before, newSize);
      var oldSize := Size();
      if newSize == 0 {
        var _ := Clear();
      } else if newSize > oldSize {
        var _ := At(newSize - 1);
      } else {
        EraseIndices(newSize, oldSize);
        return true, Size() == newSize;
      }
      return true, true;
    }
  }

  /** `es` without the indices from `lo` up to `hi` */
  function EraseFrom(es: Entries, lo: nat, hi: nat): Entries
    decreases hi
  {
    if lo >= hi then es else Remove(EraseFrom(es, lo, hi - 1), Index(hi - 1))
  }

  lemma NilIsArray()
    ensures IsArray(Nil) && ArraySize(Nil) == 0
  {
  }

  lemma ResizedFits(es: Entries, n: nat)
    requires IsArray(es) && n < INDEX_RANGE
    ensures IsArray(Resized(es, n)) && ArraySize(es) <= INDEX_RANGE
    ensures ArraySize(es) < INDEX_RANGE ==> ArraySize(Resized(es, n)) <= n
    ensures n == 0 || (n > ArraySize(es) && ArraySize(es) < INDEX_RANGE) ==> ArraySize(Resized(es, n)) == n
  {
    SizeInRange(es);
    ResizedElements(es, n);
  }

  lemma ResizedCases(es: Entries, n: nat)
    ensures n == 0 ==> Resized(es, n) == Nil
    ensures n > ArraySize(es) % INDEX_RANGE ==> Resized(es, n) == Touch(es, Index(n - 1))
    ensures 0 < n <= ArraySize(es) % INDEX_RANGE ==> Resized(es, n) == EraseFrom(es, n, ArraySize(es) % INDEX_RANGE)
    ensures EraseFrom(es, n, n) == es
  {
  }

  /** The size of an array that holds the last possible index is taken for 0. */
  function Resized(es: Entries, n: nat): Entries {
    var oldSize := ArraySize(es) % INDEX_RANGE;
    if n == 0 then Nil
    else if n > oldSize then Touch(es, Index(n - 1))
    else EraseFrom(es, n, oldSize)
  }

  lemma {:induction false} FindErased(es: Entries, lo: nat, hi: nat, i: nat)
    requires IsArray(es)
    ensures IsArray(EraseFrom(es, lo, hi))
    ensures Find(EraseFrom(es, lo, hi), Index(i)) == if lo <= i < hi then None else Find(es, Index(i))
    decreases hi
  {
    if lo < hi {
      FindErased(es, lo, hi - 1, i);
      RemoveKeepsArray(EraseFrom(es, lo, hi - 1), Index(hi - 1));
      FindRemove(EraseFrom(es, lo, hi - 1), Index(hi - 1), Index(i));
    }
  }

  /**
   A resized array keeps what is before the new end. What is behind it goes, unless the array holds
   the last possible index: then nothing goes. It has the wanted size exactly if it became empty, or
   does not hold that index and grew or held the last index that it keeps.
   */
  lemma ResizedElements(es: Entries, n: nat)
    requires IsArray(es) && n < INDEX_RANGE
    ensures var r, full := Resized(es, n), ArraySize(es) == INDEX_RANGE && n > 0;
            && IsArray(r) && ArraySize(r) <= (if full then INDEX_RANGE else n)
            && (forall i: nat :: i < n ==> Lookup(r, Index(i)) == Lookup(es, Index(i)))
            && (forall i: nat :: i >= n ==> Find(r, Index(i)) == if full then Find(es, Index(i)) else None)
            && (ArraySize(r) == n <==> n == 0 || (!full && (n > ArraySize(es) || Find(es, Index(n - 1)).Some?)))
  {
    hide EraseFrom, Touch, Lookup, IsArray, Resized;
    ResizedCases(es, n);
    ArrayInRange(es);
    if ArraySize(es) == INDEX_RANGE && n > 0 {
      TouchedSize(es, n);
    } else if 0 < n <= ArraySize(es) {
      ShrunkElements(es, n);
    } else if n > 0 {
      GrownElements(es, n);
    } else {
      NilIsArray();
      NothingFound();
    }
  }

  lemma ArrayInRange(es: Entries)
    requires IsArray(es)
    ensures ArraySize(es) <= INDEX_RANGE
  {
    SizeInRange(es);
  }

  lemma NothingFound()
    ensures forall i: nat :: Find(Nil, Index(i)) == None
  {
  }

  /** An array with the index 2 only, which is not resized to two elements */
  lemma ResizeFailsAtGap()
    ensures var es := Cons(Index(2), NULL_VALUE, Nil);
            IsArray(es) && 0 < 2 <= ArraySize(es) && ArraySize(Resized(es, 2)) != 2
  {
    var es := Cons(Index(2), NULL_VALUE, Nil);
    assert Find(es, Index(1)) == None && IsArray(es);
    ResizedElements(es, 2);
  }

  lemma ShrunkElements(es: Entries, n: nat)
    requires IsArray(es) && 0 < n <= ArraySize(es)
    ensures var r := EraseFrom(es, n, ArraySize(es));
            && IsArray(r) && ArraySize(r) <= n
            && (forall i: nat :: i < n ==> Lookup(r, Index(i)) == Lookup(es, Index(i)))
            && (forall i: nat :: i >= n ==> Find(r, Index(i)) == None)
            && (ArraySize(r) == n <==> Find(es, Index(n - 1)).Some?)
  {
    hide EraseFrom, IsArray;
    forall i: nat
      ensures Find(EraseFrom(es, n, ArraySize(es)), Index(i))
           == if n <= i < ArraySize(es) then None else Find(es, Index(i))
    {
      FindErased(es, n, ArraySize(es), i);
    }
    FindErased(es, n, ArraySize(es), 0);
    ShrunkSize(es, EraseFrom(es, n, ArraySize(es)), n);
  }

  lemma GrownElements(es: Entries, n: nat)
    requires IsArray(es) && ArraySize(es) < n < INDEX_RANGE
    ensures var r := Touch(es, Index(n - 1));
            && IsArray(r) && ArraySize(r) == n
            && (forall i: nat :: i < n ==> Lookup(r, Index(i)) == Lookup(es, Index(i)))
            && (forall i: nat :: i >= n ==> Find(r, Index(i)) == None)
  {
    hide Put, IsArray;
    SizeIsHighest(es);
    GrownSize(es, n);
    PutKeepsArray(es, n - 1, NULL_VALUE);
  }

  lemma PutTouched(es: Entries, key: Key, v: Value)
    ensures Put(Touch(es, key), key, v) == Put(es, key, v)
  {
    if Find(es, key).None? {
      PutTwice(es, key, NULL_VALUE, v);
    }
  }

  lemma {:induction false} PutTwice(es: Entries, key: Key, v: Value, w: Value)
    ensures Put(Put(es, key, v), key, w) == Put(es, key, w)
  {
    if es.Cons? && es.key != key && !KeyLess(key, es.key) {
      PutTwice(es.rest, key, v, w);
    }
  }

  lemma {:induction false} RemoveMissing(es: Entries, key: Key)
    requires Find(es, key).None?
    ensures Remove(es, key) == es
  {
    if es.Cons? {
      RemoveMissing(es.rest, key);
    }
  }

  lemma {:induction false} SizeInRange(es: Entries)
    requires IndicesBelow(es, INDEX_RANGE)
    ensures ArraySize(es) <= INDEX_RANGE
  {
    if es.Cons? {
      SizeInRange(es.rest);
    }
  }

  /** Touching an index behind the end grows the array to it. */
  lemma GrownSize(es: Entries, n: nat)
    requires IsArray(es) && ArraySize(es) < n < INDEX_RANGE
    ensures var grown := Touch(es, Index(n - 1));
            && ArraySize(grown) == n
            && forall i: nat :: Find(grown, Index(i)) == if i == n - 1 then Some(NULL_VALUE) else Find(es, Index(i))
  {
    SizeIsHighest(es);
    assert Find(es, Index(n - 1)) == None;
    forall i: nat
      ensures Find(Touch(es, Index(n - 1)), Index(i)) == if i == n - 1 then Some(NULL_VALUE) else Find(es, Index(i))
    {
      FindPut(es, Index(n - 1), NULL_VALUE, Index(i));
    }
    PutKeepsArray(es, n - 1, NULL_VALUE);
    SizeIs(Touch(es, Index(n - 1)), n);
  }

  /** Touching an index keeps an array full that is. */
  lemma TouchedSize(es: Entries, n: nat)
    requires IsArray(es) && ArraySize(es) == INDEX_RANGE && 0 < n < INDEX_RANGE
    ensures var touched := Touch(es, Index(n - 1));
            && IsArray(touched) && ArraySize(touched) == INDEX_RANGE
            && (forall i: nat :: Lookup(touched, Index(i)) == Lookup(es, Index(i)))
            && (forall i: nat :: i >= n ==> Find(touched, Index(i)) == Find(es, Index(i)))
  {
    hide Put;
    var touched := Touch(es, Index(n - 1));
    SizeIsHighest(es);
    PutKeepsArray(es, n - 1, NULL_VALUE);
    forall i: nat
      ensures Lookup(touched, Index(i)) == Lookup(es, Index(i))
      ensures i >= n ==> Find(touched, Index(i)) == Find(es, Index(i))
    {
      FindPut(es, Index(n - 1), NULL_VALUE, Index(i));
    }
    SizeIs(touched, INDEX_RANGE);
  }

  /** Erasing the indices from `n` on gives size `n` exactly if the one before is present. */
  lemma ShrunkSize(es: Entries, shrunk: Entries, n: nat)
    requires IsArray(es) && IsArray(shrunk) && 0 < n <= ArraySize(es)
    requires forall i: nat :: Find(shrunk, Index(i)) == if n <= i < ArraySize(es) then None else Find(es, Index(i))
    ensures forall i: nat :: i >= n ==> Find(shrunk, Index(i)) == None
    ensures ArraySize(shrunk) == n <==> Find(es, Index(n - 1)).Some?
    ensures ArraySize(shrunk) <= n
  {
    SizeIsHighest(es);
    SizeIsHighest(shrunk);
    assert Find(shrunk, Index(n - 1)) == Find(es, Index(n - 1));
    if Find(es, Index(n - 1)).Some? {
      SizeIs(shrunk, n);
    }
  }
}
