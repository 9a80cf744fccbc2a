/**
 Which order `Value::operator<` is: types in the order of their enumeration, numbers by size, strings
 by their first difference, containers by their number of entries and then by their first difference.
 */
module JsonComparison {
  import opened JsonOrder
  import opened JsonValue
  import opened Wrappers

  function Plain(d: Data): Value {
    Value(d, 0, 0)
  }

  // ---------------------------------------------------------------- scalars and types

  /** A value of a type is less than every value of a later type. */
  lemma EarlierTypeIsLess(a: Value, b: Value)
    ensures a.data.Null? && !b.data.Null? ==> Less(a, b)
    ensures a.data.Int? && !b.data.Null? && !b.data.Int? ==> Less(a, b)
    ensures a.data.UInt? && (b.data.Real? || b.data.Str? || b.data.Bool? || b.data.Arr? || b.data.Obj?) ==> Less(a, b)
    ensures a.data.Real? && (b.data.Str? || b.data.Bool? || b.data.Arr? || b.data.Obj?) ==> Less(a, b)
    ensures a.data.Str? && (b.data.Bool? || b.data.Arr? || b.data.Obj?) ==> Less(a, b)
    ensures a.data.Bool? && (b.data.Arr? || b.data.Obj?) ==> Less(a, b)
    ensures a.data.Arr? && b.data.Obj? ==> Less(a, b)
  {
  }

  /** The next number is greater, true is greater than false, and any text than a missing buffer. */
  lemma NextIsGreater(i: int, u: nat, r: real, t: real, s: string)
    requires r < t
    ensures Less(Plain(Int(i)), Plain(Int(i + 1)))
    ensures Less(Plain(UInt(u)), Plain(UInt(u + 1)))
    ensures Less(Plain(Real(Finite(r))), Plain(Real(Finite(t))))
    ensures Less(Plain(Real(NegInf)), Plain(Real(Finite(r)))) && Less(Plain(Real(Finite(r))), Plain(Real(PosInf)))
    ensures Less(Plain(Bool(false)), Plain(Bool(true)))
    ensures Less(Plain(Str(None)), Plain(Str(Some(s))))
  {
  }

  // ---------------------------------------------------------------- strings and keys

  /** At the first place where they differ `x` has ended or has the smaller byte. */
  ghost predicate Before(x: string, y: string) {
    exists k :: DiffersAt(x, y, k)
  }

  predicate DiffersAt(x: string, y: string, k: int) {
    0 <= k <= |x| && k < |y| && x[..k] == y[..k] && (k == |x| || x[k] < y[k])
  }

  /** A byte in front changes nothing. */
  lemma DiffersBehind(x: string, y: string, k: nat)
    requires x != "" && y != "" && x[0] == y[0]
    ensures DiffersAt(x[1..], y[1..], k) <==> DiffersAt(x, y, k + 1)
  {
    assert x == [x[0]] + x[1..] && y == [y[0]] + y[1..];
    if k <= |x[1..]| && k <= |y[1..]| {
      assert x[..k + 1] == [x[0]] + x[1..][..k] && y[..k + 1] == [y[0]] + y[1..][..k];
      assert x[1..][..k] == x[..k + 1][1..] && y[1..][..k] == y[..k + 1][1..];
    }
  }

  lemma {:induction false} StrLessIff(x: string, y: string)
    ensures StrLess(x, y) <==> Before(x, y)
  {
    if y == "" {
    } else if x == "" {
      assert DiffersAt(x, y, 0);
    } else if x[0] != y[0] {
      if x[0] < y[0] {
        assert DiffersAt(x, y, 0);
      }
      forall k | DiffersAt(x, y, k) ensures x[0] < y[0] {
        assert k > 0 ==> x[..k][0] == y[..k][0];
      }
    } else {
      StrLessIff(x[1..], y[1..]);
      forall k | DiffersAt(x, y, k) ensures Before(x[1..], y[1..]) {
        assert k > 0;
        DiffersBehind(x, y, k - 1);
      }
      forall k | DiffersAt(x[1..], y[1..], k) ensures Before(x, y) {
        DiffersBehind(x, y, k);
      }
    }
  }

  /** Strings, a missing buffer apart, compare by their first difference. */
  lemma StringsCompare(x: string, y: string)
    ensures Less(Plain(Str(Some(x))), Plain(Str(Some(y)))) <==> Before(x, y)
  {
    hide Before;
    StrLessIff(x, y);
  }

  ghost predicate KeyBefore(a: Key, b: Key) {
    match (a, b)
    case (Index(i), Index(j)) => i < j
    case (Name(x), Name(y)) => Before(x, y)
    case (_, _) => false
  }

  lemma KeyLessIff(a: Key, b: Key)
    ensures KeyLess(a, b) <==> KeyBefore(a, b)
  {
    hide Before;
    if a.Name? && b.Name? {
      StrLessIff(a.s, b.s);
    }
  }

  // ---------------------------------------------------------------- containers

  /** The entries from number `k` on */
  function From(es: Entries, k: nat): (r: Entries)
    requires k < Count(es)
    ensures r.Cons?
  {
    if k == 0 then es else From(es.rest, k - 1)
  }

  /** The entries before number `k` are equal; number `k` has the smaller key, or the same and the smaller value. */
  ghost predicate EntriesDifferAt(x: Entries, y: Entries, k: nat) {
    && k < Count(x) && k < Count(y)
    && (forall j: nat :: j < k ==>
          From(x, j).key == From(y, j).key && Same(From(x, j).value, From(y, j).value))
    && (KeyBefore(From(x, k).key, From(y, k).key)
        || (From(x, k).key == From(y, k).key && Less(From(x, k).value, From(y, k).value)))
  }

  lemma EntriesDifferBehind(x: Entries, y: Entries, k: nat)
    requires x.Cons? && y.Cons? && x.key == y.key && Same(x.value, y.value)
    ensures EntriesDifferAt(x.rest, y.rest, k) <==> EntriesDifferAt(x, y, k + 1)
  {
    hide Less, Same, KeyBefore;
    if EntriesDifferAt(x.rest, y.rest, k) {
      forall j: nat | j < k + 1
        ensures From(x, j).key == From(y, j).key && Same(From(x, j).value, From(y, j).value)
      {
        if j > 0 {
          assert From(x, j) == From(x.rest, j - 1) && From(y, j) == From(y.rest, j - 1);
        }
      }
    }
    if EntriesDifferAt(x, y, k + 1) {
      forall j: nat | j < k
        ensures From(x.rest, j).key == From(y.rest, j).key && Same(From(x.rest, j).value, From(y.rest, j).value)
      {
        assert From(x, j + 1) == From(x.rest, j) && From(y, j + 1) == From(y.rest, j);
      }
    }
  }

  lemma PairLessIff(x: Entries, y: Entries)
    requires x.Cons? && y.Cons? && x.key.Index? == y.key.Index?
    ensures PairLess(x, y) <==> KeyBefore(x.key, y.key) || (x.key == y.key && Less(x.value, y.value))
  {
    hide Less, KeyBefore;
    KeyLessIff(x.key, y.key);
    KeyTrichotomy(x.key, y.key);
  }

  lemma {:induction false} MapLessIff(x: Entries, y: Entries, indexed: bool)
    requires Count(x) == Count(y) && AllShaped(x, indexed) && AllShaped(y, indexed) && AllNaNFree(x) && AllNaNFree(y)
    ensures MapLess(x, y) <==> exists k :: EntriesDifferAt(x, y, k)
    decreases x
  {
    hide Less, Same, KeyBefore, Shaped, NaNFree;
    if x.Cons? {
      PairLessIff(x, y);
      PairLessIff(y, x);
      Trichotomy(x.value, y.value);
      Trichotomy(y.value, x.value);
      SameSymmetric(x.value, y.value);
      KeyLessIff(x.key, y.key);
      KeyLessIff(y.key, x.key);
      KeyTrichotomy(x.key, y.key);
      hide PairLess;
      if PairLess(x, y) {
        assert EntriesDifferAt(x, y, 0);
      } else if !PairLess(y, x) {
        MapLessIff(x.rest, y.rest, indexed);
        forall k: nat | EntriesDifferAt(x.rest, y.rest, k) ensures EntriesDifferAt(x, y, k + 1) {
          EntriesDifferBehind(x, y, k);
        }
        forall k: nat | EntriesDifferAt(x, y, k) ensures k > 0 && EntriesDifferAt(x.rest, y.rest, k - 1) {
          if k > 0 {
            EntriesDifferBehind(x, y, k - 1);
          }
        }
      } else {
        forall k: nat ensures !EntriesDifferAt(x, y, k) {
          assert From(x, 0) == x && From(y, 0) == y;
        }
      }
    }
  }

  /** Containers of one type compare by their number of entries, and with the same number by the first difference. */
  lemma ContainersCompareIff(a: Value, b: Value)
    requires SameContainers(a, b) && Shaped(a) && Shaped(b) && NaNFree(a) && NaNFree(b)
    ensures var x, y := EntriesOf(a.data), EntriesOf(b.data);
            Less(a, b) <==> Count(x) < Count(y) || (Count(x) == Count(y) && exists k :: EntriesDifferAt(x, y, k))
  {
    hide Less, EntriesDifferAt;
    ContainersCompare(a, b);
    if Count(EntriesOf(a.data)) == Count(EntriesOf(b.data)) {
      MapLessIff(EntriesOf(a.data), EntriesOf(b.data), a.data.Arr?);
    }
  }
}
