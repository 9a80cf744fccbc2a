/**
 `Json::FastWriter`, `Json::StyledWriter` and `Json::StyledStreamWriter` for values without
 comments: the texts they print, and the classes that print them.
 */
module JsonWriter {
  import opened JsonParser
  import opened JsonTool
  import opened JsonValue
  import opened Wrappers

  // ---------------------------------------------------------------- the values that can be held

  /** What every `Json::Value` satisfies: ordered maps, C strings, 64-bit integers, 32-bit indices. */
  ghost predicate WellFormed(v: Value)
    decreases v
  {
    match v.data
    case Int(i) => MIN_INT64 <= i <= MAX_INT64
    case UInt(u) => u <= MAX_UINT64
    case Str(s) => s.Some? ==> NulFree(s.value)
    case Arr(es) => Sorted(es) && WellFormedAll(es, true)
    case Obj(es) => Sorted(es) && WellFormedAll(es, false)
    case _ => true
  }

  ghost predicate WellFormedAll(es: Entries, indexed: bool)
    decreases es
  {
    es.Cons? ==>
      && es.key.Index? == indexed
      && (if indexed then es.key.i <= MAX_UINT else NulFree(es.key.s))
      && WellFormed(es.value)
      && WellFormedAll(es.rest, indexed)
  }

  /** The array sizes stay below a limit of the writer's `int` arithmetic. */
  ghost predicate SizedBelow(v: Value, limit: nat)
    decreases v
  {
    match v.data
    case Arr(es) => ArraySize(es) <= limit && SizedAllBelow(es, limit)
    case Obj(es) => SizedAllBelow(es, limit)
    case _ => true
  }

  ghost predicate SizedAllBelow(es: Entries, limit: nat)
    decreases es
  {
    es.Cons? ==> SizedBelow(es.value, limit) && SizedAllBelow(es.rest, limit)
  }

  lemma {:induction false} FoundIsWellFormed(es: Entries, indexed: bool, key: Key)
    requires WellFormedAll(es, indexed)
    ensures WellFormed(Lookup(es, key))
  {
    if es.Cons? && es.key != key {
      FoundIsWellFormed(es.rest, indexed, key);
      assert Lookup(es, key) == Lookup(es.rest, key);
    }
  }

  lemma {:induction false} FoundIsSized(es: Entries, limit: nat, key: Key)
    requires SizedAllBelow(es, limit)
    ensures SizedBelow(Lookup(es, key), limit)
  {
    if es.Cons? && es.key != key {
      FoundIsSized(es.rest, limit, key);
      assert Lookup(es, key) == Lookup(es.rest, key);
    }
  }

  // ---------------------------------------------------------------- scalars

  /** The text of every value that is neither an array nor an object. */
  function ScalarText(lib: CLibrary, d: Data): string {
    match d
    case Null => "null"
    case Int(i) => IntText(i)
    case UInt(u) => Digits(u)
    case Real(x) => lib.printDouble(x)
    case Str(s) => if s.Some? then Quote(s.value) else ""
    case Bool(b) => if b then "true" else "false"
    case _ => ""
  }

  method ScalarToString(lib: CLibrary, v: Value) returns (text: string)
    requires WellFormed(v) && !IsContainer(v)
    ensures text == ScalarText(lib, v.data)
  {
    match v.data
    case Null => text := "null";
    case Int(i) => text := IntValueToString(i);
    case UInt(u) => text := UIntValueToString(u);
    case Real(d) => text := lib.printDouble(d);
    case Str(s) => text := ValueToQuotedString(s);
    case Bool(b) => text := if b then "true" else "false";
  }

  function KeyText(k: Key): string {
    if k.Name? then k.s else ""
  }

  // ---------------------------------------------------------------- FastWriter

  datatype FastOptions = FastOptions(yaml: bool, dropNulls: bool, omitLineFeed: bool)

  function NullText(o: FastOptions): string {
    if o.dropNulls then "" else "null"
  }

  function ColonText(o: FastOptions): string {
    if o.yaml then ": " else ":"
  }

  function FastText(o: FastOptions, lib: CLibrary, v: Value): string
    decreases v, 0, 0
  {
    match v.data
    case Null => NullText(o)
    case Arr(es) => "[" + FastElements(o, lib, es, 0, ToInt32(ArraySize(es))) + "]"
    case Obj(es) => "{" + FastMembers(o, lib, es, true) + "}"
    case _ => ScalarText(lib, v.data)
  }

  /** One element with the separator before it; a missing index prints the null value. */
  function FastElement(o: FastOptions, lib: CLibrary, es: Entries, index: nat): string
    decreases es, 0, 0
  {
    (if index > 0 then "," else "") +
    match Find(es, Index(index))
    case Some(v) => FastText(o, lib, v)
    case None => NullText(o)
  }

  function FastElements(o: FastOptions, lib: CLibrary, es: Entries, index: nat, size: int): string
    decreases es, 1, size - index
  {
    if index >= size then "" else FastElement(o, lib, es, index) + FastElements(o, lib, es, index + 1, size)
  }

  /** One member with the separator before it. */
  function FastMember(o: FastOptions, lib: CLibrary, k: Key, v: Value, first: bool): string
    decreases v, 1, 0
  {
    (if first then "" else ",") + Quote(KeyText(k)) + ColonText(o) + FastText(o, lib, v)
  }

  function FastMembers(o: FastOptions, lib: CLibrary, es: Entries, first: bool): string
    decreases es, 1, 0
  {
    match es
    case Nil => ""
    case Cons(k, v, rest) => FastMember(o, lib, k, v, first) + FastMembers(o, lib, rest, false)
  }

  /** `getMemberNames` */
  method MemberNames(members: Entries) returns (names: seq<string>)
    requires WellFormedAll(members, false)
    ensures names == NamesOf(members)
  {
    names := [];
    var it := members;
    while it.Cons?
      invariant NamesOf(members) == names + NamesOf(it)
      invariant WellFormedAll(it, false)
      decreases it
    {
      names := names + [it.key.s];
      it := it.rest;
    }
  }

  function NamesOf(es: Entries): seq<string> {
    match es
    case Nil => []
    case Cons(k, _, rest) => [KeyText(k)] + NamesOf(rest)
  }

  /** The entries after the first `n`. */
  function Skip(es: Entries, n: nat): Entries {
    if n == 0 || es.Nil? then es else Skip(es.rest, n - 1)
  }

  lemma {:induction false} SortedLookup(low: Key, es: Entries, n: nat)
    requires SortedFrom(low, es) && WellFormedAll(es, false) && low.Name? && n < |NamesOf(es)|
    ensures var at := Skip(es, n);
            && at.Cons? && at.key == Name(NamesOf(es)[n])
            && KeyLess(low, at.key) && Find(es, at.key) == Some(at.value) && Skip(es, n + 1) == at.rest
            && WellFormed(at.value) && NulFree(NamesOf(es)[n])
    decreases es
  {
    if n > 0 {
      SortedLookup(es.key, es.rest, n - 1);
      KeyTrichotomy(es.key, Skip(es, n).key);
      KeyTransitive(low, es.key, Skip(es, n).key);
    }
  }

  /** Looking the n-th name up finds the n-th entry. */
  lemma NamesLookup(es: Entries, n: nat)
    requires Sorted(es) && WellFormedAll(es, false) && n < |NamesOf(es)|
    ensures var at := Skip(es, n);
            && at.Cons? && at.key == Name(NamesOf(es)[n])
            && Find(es, Name(NamesOf(es)[n])) == Some(at.value) && Skip(es, n + 1) == at.rest
            && WellFormed(at.value) && NulFree(NamesOf(es)[n])
  {
    if n > 0 {
      SortedLookup(es.key, es.rest, n - 1);
      KeyTrichotomy(es.key, Skip(es, n).key);
    }
  }

  lemma {:induction false} SkipAll(es: Entries)
    ensures Skip(es, |NamesOf(es)|) == Nil
  {
    if es.Cons? {
      SkipAll(es.rest);
    }
  }

  lemma SkipNone(es: Entries)
    ensures Skip(es, 0) == es
  {
  }

  class FastWriter {
    const lib: CLibrary
    var options: FastOptions
    var document: string

    constructor (lib: CLibrary)
      ensures this.lib == lib && options == FastOptions(false, false, false) && document == ""
    {
      this.lib := lib;
      options := FastOptions(false, false, false);
      document := "";
    }

    method EnableYamlCompatibility()
      modifies this`options
      ensures options == old(options).(yaml := true)
    {
      options := options.(yaml := true);
    }

    method DropNullPlaceholders()
      modifies this`options
      ensures options == old(options).(dropNulls := true)
    {
      options := options.(dropNulls := true);
    }

    method OmitEndingLineFeed()
      modifies this`options
      ensures options == old(options).(omitLineFeed := true)
    {
      options := options.(omitLineFeed := true);
    }

    method Write(root: Value) returns (text: string)
      requires WellFormed(root)
      modifies this`document
      ensures text == document == FastDocument(options, lib, root)
    {
      document := "";
      WriteValue(root);
      if !options.omitLineFeed {
        document := document + "\n";
      }
      text := document;
    }

    method WriteValue(value: Value)
      requires WellFormed(value)
      modifies this`document
      ensures document == old(document) + FastText(options, lib, value)
      decreases value, 0
    {
      hide FastElements, FastMembers, WellFormedAll, ScalarText, ArraySize, Sorted;
      if value.data.Null? {
        if !options.dropNulls {
          document := document + "null";
        }
      } else if value.data.Arr? {
        document := document + "[";
        WriteElements(value.data.elems);
        document := document + "]";
      } else if value.data.Obj? {
        document := document + "{";
        WriteMembers(value.data.members);
        document := document + "}";
      } else {
        var text := ScalarToString(lib, value);
        document := document + text;
      }
    }

    method WriteElements(elems: Entries)
      requires WellFormedAll(elems, true)
      modifies this`document
      ensures document == old(document) + FastElements(options, lib, elems, 0, ToInt32(ArraySize(elems)))
      decreases elems, 2
    {
      hide FastElement, WellFormedAll;
      var size := ToInt32(ArraySize(elems));
      var index := 0;
      ghost var whole := FastElements(options, lib, elems, 0, size);
      while index < size
        invariant 0 <= index
        invariant old(document) + whole == document + FastElements(options, lib, elems, index, size)
      {
        WriteElement(elems, index);
        index := index + 1;
      }
    }

    /** A separator if needed, and `writeValue(value[index])` */
    method WriteElement(elems: Entries, index: nat)
      requires WellFormedAll(elems, true)
      modifies this`document
      ensures document == old(document) + FastElement(options, lib, elems, index)
      decreases elems, 1
    {
      FoundIsWellFormed(elems, true, Index(index));
      if index > 0 {
        document := document + ",";
      }
      match Find(elems, Index(index))
      case Some(v) =>
        WriteValue(v);
      case None =>
        document := document + NullText(options);
    }

    method WriteMembers(members: Entries)
      requires Sorted(members) && WellFormedAll(members, false)
      modifies this`document
      ensures document == old(document) + FastMembers(options, lib, members, true)
      decreases members, 2
    {
      hide FastMember, Find, NamesOf, Skip, WellFormed;
      var names := MemberNames(members);
      var it := 0;
      ghost var whole := FastMembers(options, lib, members, true);
      SkipNone(members);
      while it < |names|
        invariant 0 <= it <= |names|
        invariant old(document) + whole == document + FastMembers(options, lib, Skip(members, it), it == 0)
      {
        NamesLookup(members, it);
        WriteMember(members, names[it], it == 0);
        it := it + 1;
      }
      SkipAll(members);
    }

    method WriteMember(members: Entries, name: string, first: bool)
      requires Find(members, Name(name)).Some? && WellFormed(Find(members, Name(name)).value) && NulFree(name)
      modifies this`document
      ensures document == old(document) + FastMember(options, lib, Name(name), Find(members, Name(name)).value, first)
      decreases members, 1
    {
      hide FastText, WellFormed, Find, Quote;
      if !first {
        document := document + ",";
      }
      var quoted := ValueToQuotedString(Some(name));
      document := document + quoted;
      document := document + ColonText(options);
      WriteValue(Find(members, Name(name)).value);
    }
  }

  function FastDocument(o: FastOptions, lib: CLibrary, root: Value): string {
    FastText(o, lib, root) + if o.omitLineFeed then "" else "\n"
  }
}
