/**
 The JSON value tree of `Json::Value`: its data, its `std::map` based containers and the
 two offsets that the reader stores in every node. A `char` stands for one byte of text.
 */
module JsonValue {
  import opened Wrappers

  const MAX_INT: int := 0x7FFF_FFFF
  const MAX_UINT: int := 0xFFFF_FFFF
  const MIN_INT64: int := -0x8000_0000_0000_0000
  const MAX_INT64: int := 0x7FFF_FFFF_FFFF_FFFF
  const MAX_UINT64: int := 0xFFFF_FFFF_FFFF_FFFF
  const TWO_TO_THE_64: int := 0x1_0000_0000_0000_0000

  /** An IEEE double up to rounding. */
  datatype Double = NaN | NegInf | Finite(r: real) | PosInf

  /** `CZString`: an array index or a C string. */
  datatype Key = Index(i: nat) | Name(s: string)

  datatype Data =
    | Null
    | Int(i: int)
    | UInt(u: nat)
    | Real(d: Double)
    | Str(s: Option<string>)   // `None`: a string value whose buffer pointer is 0
    | Bool(b: bool)
    | Arr(elems: Entries)
    | Obj(members: Entries)

  datatype Value = Value(data: Data, start: nat, limit: nat)

  /** The contents of a `std::map<CZString, Value>` in iteration order. */
  datatype Entries = Nil | Cons(key: Key, value: Value, rest: Entries)

  const NULL_VALUE: Value := Value(Null, 0, 0)

  /** The 32-bit and 64-bit two's complement conversions of the source. */
  function ToInt32(x: int): (r: int)
    ensures -0x8000_0000 <= r <= MAX_INT && (r - x) % 0x1_0000_0000 == 0
  {
    var m := x % 0x1_0000_0000;
    if m > MAX_INT then m - 0x1_0000_0000 else m
  }

  function ToInt64(x: int): (r: int)
    ensures MIN_INT64 <= r <= MAX_INT64 && (r - x) % TWO_TO_THE_64 == 0
  {
    var m := x % TWO_TO_THE_64;
    if m > MAX_INT64 then m - TWO_TO_THE_64 else m
  }

  function ToUInt64(x: int): (r: nat)
    ensures r <= MAX_UINT64 && (r - x) % TWO_TO_THE_64 == 0
  {
    x % TWO_TO_THE_64
  }

  // ---------------------------------------------------------------- containers

  /** `strcmp(a, b) < 0` on NUL-free strings. */
  predicate StrLess(a: string, b: string) {
    if b == "" then false
    else if a == "" then true
    else if a[0] != b[0] then a[0] < b[0]
    else StrLess(a[1..], b[1..])
  }

  /** `CZString::operator<`; the keys of one map are all of one kind. */
  predicate KeyLess(a: Key, b: Key) {
    match (a, b)
    case (Name(x), Name(y)) => StrLess(x, y)
    case (Index(i), Index(j)) => i < j
    case (_, _) => false
  }

  function Count(es: Entries): nat {
    match es
    case Nil => 0
    case Cons(_, _, rest) => 1 + Count(rest)
  }

  function Find(es: Entries, key: Key): (r: Option<Value>)
    ensures r.Some? ==> r.value < es
  {
    match es
    case Nil => None
    case Cons(k, v, rest) => if k == key then Some(v) else Find(rest, key)
  }

  /** The value stored under `key`, or the shared null value. */
  function Lookup(es: Entries, key: Key): Value {
    match Find(es, key)
    case Some(v) => v
    case None => NULL_VALUE
  }

  /** Overwrites the entry of `key`, or inserts one at its place in the order. */
  function Put(es: Entries, key: Key, value: Value): Entries {
    match es
    case Nil => Cons(key, value, Nil)
    case Cons(k, v, rest) =>
      if k == key then Cons(k, value, rest)
      else if KeyLess(key, k) then Cons(key, value, es)
      else Cons(k, v, Put(rest, key, value))
  }

  /** `Value::size()` of an array: the highest index plus one. */
  function ArraySize(es: Entries): nat {
    match es
    case Nil => 0
    case Cons(k, _, Nil) => if k.Index? then k.i + 1 else 0
    case Cons(_, _, rest) => ArraySize(rest)
  }

  /** Every key is after `low` and the keys ascend. */
  ghost predicate SortedFrom(low: Key, es: Entries)
    decreases es
  {
    match es
    case Nil => true
    case Cons(k, _, rest) => KeyLess(low, k) && SortedFrom(k, rest)
  }

  ghost predicate Sorted(es: Entries) {
    es.Cons? ==> SortedFrom(es.key, es.rest)
  }

  function Append(a: Entries, b: Entries): Entries {
    match a
    case Nil => b
    case Cons(k, v, rest) => Cons(k, v, Append(rest, b))
  }

  // ---------------------------------------------------------------- strict order of strings and keys

  lemma {:induction false} StrTrichotomy(a: string, b: string)
    ensures a == b ==> !StrLess(a, b)
    ensures a != b ==> StrLess(a, b) != StrLess(b, a)
  {
    if a != "" && b != "" {
      StrTrichotomy(a[1..], b[1..]);
      assert a == [a[0]] + a[1..] && b == [b[0]] + b[1..];
    }
  }

  lemma {:induction false} StrTransitive(a: string, b: string, c: string)
    requires StrLess(a, b) && StrLess(b, c)
    ensures StrLess(a, c)
  {
    if a != "" && a[0] == b[0] && b[0] == c[0] {
      StrTransitive(a[1..], b[1..], c[1..]);
    }
  }

  lemma KeyTrichotomy(a: Key, b: Key)
    requires a.Index? == b.Index?
    ensures a == b ==> !KeyLess(a, b)
    ensures a != b ==> KeyLess(a, b) != KeyLess(b, a)
  {
    if a.Name? {
      StrTrichotomy(a.s, b.s);
    }
  }

  lemma KeyTransitive(a: Key, b: Key, c: Key)
    requires KeyLess(a, b) && KeyLess(b, c)
    ensures KeyLess(a, c)
  {
    if a.Name? {
      StrTransitive(a.s, b.s, c.s);
    }
  }

  // ---------------------------------------------------------------- the map laws

  lemma {:induction false} SortedWeaken(low: Key, mid: Key, es: Entries)
    requires KeyLess(low, mid) && SortedFrom(mid, es)
    ensures SortedFrom(low, es)
  {
    if es.Cons? {
      KeyTransitive(low, mid, es.key);
    }
  }

  lemma {:induction false} PutKeepsSortedFrom(low: Key, es: Entries, key: Key, value: Value)
    requires SortedFrom(low, es) && KeyLess(low, key)
    ensures SortedFrom(low, Put(es, key, value))
    decreases es
  {
    if es.Cons? && es.key != key {
      KeyTrichotomy(key, es.key);
      if !KeyLess(key, es.key) {
        PutKeepsSortedFrom(es.key, es.rest, key, value);
      }
    }
  }

  /** Inserting keeps a map of keys of one kind ordered. */
  lemma {:induction false} PutKeepsSorted(es: Entries, key: Key, value: Value)
    requires Sorted(es) && (es.Cons? ==> es.key.Index? == key.Index?)
    ensures Sorted(Put(es, key, value))
  {
    if es.Cons? && es.key != key {
      KeyTrichotomy(key, es.key);
      if !KeyLess(key, es.key) {
        PutKeepsSortedFrom(es.key, es.rest, key, value);
      }
    }
  }

  lemma {:induction false} NotFoundBelow(low: Key, es: Entries, key: Key)
    requires SortedFrom(low, es) && (key == low || KeyLess(key, low))
    ensures Find(es, key) == None
    decreases es
  {
    if es.Cons? {
      if key != low {
        KeyTransitive(key, low, es.key);
      }
      KeyTrichotomy(key, es.key);
      NotFoundBelow(es.key, es.rest, key);
    }
  }

  /** A map lookup sees exactly the last write. */
  lemma {:induction false} FindPut(es: Entries, key: Key, value: Value, other: Key)
    ensures Find(Put(es, key, value), other) == if other == key then Some(value) else Find(es, other)
  {
    if es.Cons? && es.key != key && !KeyLess(key, es.key) {
      FindPut(es.rest, key, value, other);
    }
  }

  /** A key after all others is appended. */
  lemma {:induction false} PutLast(es: Entries, key: Key, value: Value)
    requires AllBelow(es, key)
    ensures Put(es, key, value) == Append(es, Cons(key, value, Nil))
  {
    if es.Cons? {
      KeyTrichotomy(es.key, key);
      PutLast(es.rest, key, value);
    }
  }

  ghost predicate AllBelow(es: Entries, key: Key) {
    match es
    case Nil => true
    case Cons(k, _, rest) => KeyLess(k, key) && AllBelow(rest, key)
  }

  lemma {:induction false} AllBelowAppend(a: Entries, b: Entries, key: Key)
    ensures AllBelow(Append(a, b), key) <==> AllBelow(a, key) && AllBelow(b, key)
  {
    if a.Cons? {
      AllBelowAppend(a.rest, b, key);
    }
  }

  lemma {:induction false} AllBelowWeaken(es: Entries, mid: Key, key: Key)
    requires AllBelow(es, mid) && KeyLess(mid, key)
    ensures AllBelow(es, key)
  {
    if es.Cons? {
      KeyTransitive(es.key, mid, key);
      AllBelowWeaken(es.rest, mid, key);
    }
  }

  lemma {:induction false} AppendAssoc(a: Entries, b: Entries, c: Entries)
    ensures Append(Append(a, b), c) == Append(a, Append(b, c))
  {
    if a.Cons? {
      AppendAssoc(a.rest, b, c);
    }
  }

  lemma {:induction false} AppendNil(a: Entries)
    ensures Append(a, Nil) == a
  {
    if a.Cons? {
      AppendNil(a.rest);
    }
  }

  // ---------------------------------------------------------------- forgetting the offsets

  /** The tree without the offsets of its nodes. */
  function Erase(v: Value): Value {
    Value(EraseData(v.data), 0, 0)
  }

  function EraseData(d: Data): Data {
    match d
    case Arr(es) => Arr(EraseAll(es))
    case Obj(es) => Obj(EraseAll(es))
    case _ => d
  }

  function EraseAll(es: Entries): Entries {
    match es
    case Nil => Nil
    case Cons(k, v, rest) => Cons(k, Erase(v), EraseAll(rest))
  }

  lemma {:induction false} ErasePut(es: Entries, key: Key, value: Value)
    ensures EraseAll(Put(es, key, value)) == Put(EraseAll(es), key, Erase(value))
  {
    if es.Cons? && es.key != key && !KeyLess(key, es.key) {
      ErasePut(es.rest, key, value);
    }
  }
}
