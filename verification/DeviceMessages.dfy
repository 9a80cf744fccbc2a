/**
 Announcements from end to end: what a device prints with either writer is what the monitor
 understands after parsing it.
 */
module DeviceMessages {
  import opened DeviceMonitors
  import opened JsonLayout
  import opened JsonParser
  import opened JsonRoundTrip
  import opened JsonSparse
  import opened JsonStyled
  import opened JsonTokens
  import opened JsonTool
  import opened JsonValue
  import opened JsonWriter
  import opened Wrappers

  // ---------------------------------------------------------------- what a message says does not depend on offsets

  function EraseFound(v: Option<Value>): Option<Value> {
    if v.Some? then Some(Erase(v.value)) else None
  }

  lemma {:induction false} FindErased(es: Entries, key: Key)
    ensures Find(EraseAll(es), key) == EraseFound(Find(es, key))
  {
    if es.Cons? && es.key != key {
      FindErased(es.rest, key);
    }
  }

  lemma MemberErased(v: Value, name: string)
    ensures Member(Erase(v), name) == EraseFound(Member(v, name))
  {
    if v.data.Obj? {
      FindErased(v.data.members, Name(name));
    }
  }

  lemma MemberOfErased(v: Option<Value>, name: string)
    ensures MemberOf(EraseFound(v), name) == EraseFound(MemberOf(v, name))
  {
    if v.Some? {
      MemberErased(v.value, name);
    }
  }

  lemma ScalarsErased(lib: CLibrary, v: Option<Value>)
    ensures AsString(lib, EraseFound(v)) == AsString(lib, v) && AsUInt(EraseFound(v)) == AsUInt(v)
  {
    if v.Some? {
      var d := v.value.data;
      assert Erase(v.value).data == EraseData(d);
      assert EraseData(d) == d || (d.Arr? && EraseData(d).Arr?) || (d.Obj? && EraseData(d).Obj?);
    }
  }

  lemma JudgeErased(lib: CLibrary, root: Value)
    ensures JudgeRoot(lib, Erase(root)) == JudgeRoot(lib, root)
  {
    hide Member, MemberOf, AsString, AsUInt, Erase, EraseFound;
    MemberErased(root, "method");
    MemberErased(root, "params");
    ScalarsErased(lib, Member(root, "method"));
    var params := Member(root, "params");
    MemberOfErased(params, "netSettings");
    MemberOfErased(MemberOf(params, "netSettings"), "interface");
    MemberOfErased(MemberOf(MemberOf(params, "netSettings"), "interface"), "name");
    ScalarsErased(lib, MemberOf(MemberOf(MemberOf(params, "netSettings"), "interface"), "name"));
    MemberOfErased(params, "device");
    MemberOfErased(MemberOf(params, "device"), "uuid");
    ScalarsErased(lib, MemberOf(MemberOf(params, "device"), "uuid"));
    MemberOfErased(params, "router");
    MemberOfErased(MemberOf(params, "router"), "uuid");
    ScalarsErased(lib, MemberOf(MemberOf(params, "router"), "uuid"));
    MemberOfErased(params, "expiration");
    ScalarsErased(lib, MemberOf(params, "expiration"));
  }

  // ---------------------------------------------------------------- nor on what comes back of a tree

  /** The canonical form, or that of what `FastWriter` prints */
  function Returned(lib: CLibrary, cut: bool, v: Value): Value {
    Canon(lib, if cut then Cut(v) else v)
  }

  function ReturnedFound(lib: CLibrary, cut: bool, v: Option<Value>): Option<Value> {
    if v.Some? then Some(Returned(lib, cut, v.value)) else None
  }

  ghost predicate RealFree(v: Value)
    decreases v
  {
    match v.data
    case Real(_) => false
    case Arr(es) => AllRealFree(es)
    case Obj(es) => AllRealFree(es)
    case _ => true
  }

  ghost predicate AllRealFree(es: Entries)
    decreases es
  {
    es.Cons? ==> RealFree(es.value) && AllRealFree(es.rest)
  }

  lemma {:induction false} RealFreePrints(lib: CLibrary, v: Value)
    requires RealFree(v)
    ensures PrintsReals(lib, v)
    decreases v, 0
  {
    if v.data.Arr? {
      AllRealFreePrint(lib, v.data.elems);
    } else if v.data.Obj? {
      AllRealFreePrint(lib, v.data.members);
    }
  }

  lemma {:induction false} AllRealFreePrint(lib: CLibrary, es: Entries)
    requires AllRealFree(es)
    ensures AllPrintReals(lib, es)
    decreases es, 1
  {
    if es.Cons? {
      RealFreePrints(lib, es.value);
      AllRealFreePrint(lib, es.rest);
    }
  }

  /** A number without fraction, or none */
  ghost predicate Plain(v: Option<Value>) {
    v.Some? ==> RealFree(v.value) && WellFormed(v.value)
  }

  lemma {:induction false} FindReturned(lib: CLibrary, cut: bool, es: Entries, key: Key)
    ensures Find(CanonMembers(lib, if cut then CutAll(es) else es), key) == ReturnedFound(lib, cut, Find(es, key))
  {
    if es.Cons? && es.key != key {
      FindReturned(lib, cut, es.rest, key);
    }
  }

  lemma {:induction false} FoundIsPlain(es: Entries, key: Key)
    requires AllRealFree(es) && WellFormedAll(es, false)
    ensures Plain(Find(es, key))
  {
    if es.Cons? && es.key != key {
      FoundIsPlain(es.rest, key);
    }
  }

  lemma MemberReturned(lib: CLibrary, cut: bool, v: Value, name: string)
    requires RealFree(v) && WellFormed(v)
    ensures Member(Returned(lib, cut, v), name) == ReturnedFound(lib, cut, Member(v, name)) && Plain(Member(v, name))
  {
    if v.data.Obj? {
      FindReturned(lib, cut, v.data.members, Name(name));
      FoundIsPlain(v.data.members, Name(name));
    }
  }

  lemma MemberOfReturned(lib: CLibrary, cut: bool, v: Option<Value>, name: string)
    requires Plain(v)
    ensures MemberOf(ReturnedFound(lib, cut, v), name) == ReturnedFound(lib, cut, MemberOf(v, name))
            && Plain(MemberOf(v, name))
  {
    if v.Some? {
      MemberReturned(lib, cut, v.value, name);
    }
  }

  lemma ScalarsReturned(lib: CLibrary, cut: bool, v: Option<Value>)
    requires Plain(v)
    ensures AsString(lib, ReturnedFound(lib, cut, v)) == AsString(lib, v)
            && AsUInt(ReturnedFound(lib, cut, v)) == AsUInt(v)
  {
    hide Digits;
  }

  lemma JudgeReturned(lib: CLibrary, cut: bool, root: Value)
    requires RealFree(root) && WellFormed(root)
    ensures JudgeRoot(lib, Returned(lib, cut, root)) == JudgeRoot(lib, root)
  {
    hide Member, MemberOf, AsString, AsUInt, Returned, ReturnedFound, Plain;
    MemberReturned(lib, cut, root, "method");
    MemberReturned(lib, cut, root, "params");
    ScalarsReturned(lib, cut, Member(root, "method"));
    var params := Member(root, "params");
    MemberOfReturned(lib, cut, params, "netSettings");
    MemberOfReturned(lib, cut, MemberOf(params, "netSettings"), "interface");
    MemberOfReturned(lib, cut, MemberOf(MemberOf(params, "netSettings"), "interface"), "name");
    ScalarsReturned(lib, cut, MemberOf(MemberOf(MemberOf(params, "netSettings"), "interface"), "name"));
    MemberOfReturned(lib, cut, params, "device");
    MemberOfReturned(lib, cut, MemberOf(params, "device"), "uuid");
    ScalarsReturned(lib, cut, MemberOf(MemberOf(params, "device"), "uuid"));
    MemberOfReturned(lib, cut, params, "router");
    MemberOfReturned(lib, cut, MemberOf(params, "router"), "uuid");
    ScalarsReturned(lib, cut, MemberOf(MemberOf(params, "router"), "uuid"));
    MemberOfReturned(lib, cut, params, "expiration");
    ScalarsReturned(lib, cut, MemberOf(params, "expiration"));
  }

  // ---------------------------------------------------------------- from the device to the monitor

  /** The monitor understands what `FastWriter` prints as if it had the tree itself. */
  lemma FastMessageIsUnderstood(lib: CLibrary, o: FastOptions, v: Value)
    requires WellFormed(v) && HasBuffers(v) && RealFree(v) && !o.dropNulls
    ensures Judge(lib, FastDocument(o, lib, v)) == JudgeRoot(lib, v)
  {
    hide ParseDocument, FastDocument, JudgeRoot, WellFormed, RealFree, HasBuffers, PrintsReals, Erase, Canon, Cut;
    RealFreePrints(lib, v);
    FastRoundTrip(DEFAULT_FEATURES, lib, o, v, NULL_VALUE);
    JudgeErased(lib, ParseDocument(DEFAULT_FEATURES, lib, FastDocument(o, lib, v), NULL_VALUE).root);
    JudgeReturned(lib, true, v);
  }

  /** The same for the styled writers. */
  lemma StyledMessageIsUnderstood(lib: CLibrary, st: Style, v: Value)
    requires WellFormed(v) && HasBuffers(v) && AllSpaces(st.unit) && RealFree(v)
    ensures Judge(lib, StyledDocument(st, lib, v)) == JudgeRoot(lib, v)
  {
    hide ParseDocument, StyledDocument, JudgeRoot, WellFormed, RealFree, HasBuffers, PrintsReals, Erase, Canon;
    RealFreePrints(lib, v);
    StyledRoundTrip(DEFAULT_FEATURES, lib, st, v, NULL_VALUE);
    JudgeErased(lib, ParseDocument(DEFAULT_FEATURES, lib, StyledDocument(st, lib, v), NULL_VALUE).root);
    JudgeReturned(lib, false, v);
  }

  // ---------------------------------------------------------------- a complete announcement

  function Text(s: string): Value {
    Value(Str(Some(s)), 0, 0)
  }

  function Object(es: Entries): Value {
    Value(Obj(es), 0, 0)
  }

  function One(name: string, v: Value): Value {
    Object(Cons(Name(name), v, Nil))
  }

  /** The parameters of an announcement, from the last to the first in the order of their names */
  function FromRouter(a: Announcement): Entries {
    Cons(Name("router"), One("uuid", Text(a.router)), Nil)
  }

  function FromSettings(a: Announcement): Entries {
    Cons(Name("netSettings"), One("interface", One("name", Text(a.sendingInterface))), FromRouter(a))
  }

  function FromExpiration(a: Announcement): Entries {
    Cons(Name("expiration"), Value(UInt(a.expiration), 0, 0), FromSettings(a))
  }

  function Params(a: Announcement): Entries {
    Cons(Name("device"), One("uuid", Text(a.uuid)), FromExpiration(a))
  }

  /** The tree that a device builds */
  function AnnouncementTree(a: Announcement): Value {
    Object(Cons(Name("method"), Text("announce"), Cons(Name("params"), Object(Params(a)), Nil)))
  }

  /** What the monitor takes: a complete announcement with C string names. */
  predicate IsComplete(a: Announcement) {
    && NulFree(a.sendingInterface) && NulFree(a.uuid) && NulFree(a.router)
    && a.sendingInterface != "" && a.uuid != "" && 0 < a.expiration <= MAX_UINT
  }

  lemma NamesAscend()
    ensures StrLess("device", "expiration") && StrLess("expiration", "netSettings") && StrLess("netSettings", "router")
    ensures StrLess("method", "params")
    ensures NulFree("device") && NulFree("expiration") && NulFree("netSettings") && NulFree("router") && NulFree("uuid")
    ensures NulFree("interface") && NulFree("name") && NulFree("method") && NulFree("params") && NulFree("announce")
  {
  }

  ghost predicate Fine(v: Value) {
    WellFormed(v) && HasBuffers(v) && RealFree(v)
  }

  ghost predicate AllFine(es: Entries) {
    Sorted(es) && WellFormedAll(es, false) && AllHaveBuffers(es) && AllRealFree(es)
  }

  lemma NilIsFine()
    ensures AllFine(Nil)
  {
  }

  lemma ConsIsFine(name: string, v: Value, rest: Entries)
    requires NulFree(name) && Fine(v) && AllFine(rest) && (rest.Cons? ==> rest.key.Name? && StrLess(name, rest.key.s))
    ensures AllFine(Cons(Name(name), v, rest))
  {
    hide StrLess;
  }

  lemma ObjectIsFine(es: Entries)
    requires AllFine(es)
    ensures Fine(Object(es))
  {
  }

  lemma OneIsFine(name: string, v: Value)
    requires NulFree(name) && Fine(v)
    ensures Fine(One(name, v))
  {
    hide AllFine, Fine;
    NilIsFine();
    ConsIsFine(name, v, Nil);
    ObjectIsFine(Cons(Name(name), v, Nil));
  }

  lemma LeavesAreFine(s: string, n: nat)
    requires NulFree(s) && n <= MAX_UINT
    ensures Fine(Text(s)) && Fine(Value(UInt(n), 0, 0))
  {
  }

  lemma TreeIsFine(a: Announcement)
    requires IsComplete(a)
    ensures Fine(AnnouncementTree(a))
  {
    NamesAscend();
    LeavesAreFine("announce", a.expiration);
    LeavesAreFine(a.sendingInterface, 0);
    LeavesAreFine(a.uuid, 0);
    LeavesAreFine(a.router, 0);
    hide StrLess, Fine, AllFine, NulFree, One, Object, Text;
    OneIsFine("uuid", Text(a.uuid));
    OneIsFine("uuid", Text(a.router));
    OneIsFine("name", Text(a.sendingInterface));
    OneIsFine("interface", One("name", Text(a.sendingInterface)));
    NilIsFine();
    ConsIsFine("router", One("uuid", Text(a.router)), Nil);
    ConsIsFine("netSettings", One("interface", One("name", Text(a.sendingInterface))), FromRouter(a));
    ConsIsFine("expiration", Value(UInt(a.expiration), 0, 0), FromSettings(a));
    ConsIsFine("device", One("uuid", Text(a.uuid)), FromExpiration(a));
    ObjectIsFine(Params(a));
    ConsIsFine("params", Object(Params(a)), Nil);
    ConsIsFine("method", Text("announce"), Cons(Name("params"), Object(Params(a)), Nil));
    ObjectIsFine(Cons(Name("method"), Text("announce"), Cons(Name("params"), Object(Params(a)), Nil)));
  }

  lemma LookupStep(name: string, k: string, v: Value, rest: Entries)
    ensures Lookup(Cons(Name(k), v, rest), Name(name)) == if k == name then v else Lookup(rest, Name(name))
  {
  }

  lemma OneMember(name: string, v: Value)
    ensures MemberOf(Some(One(name, v)), name) == Some(v)
  {
  }

  lemma ParamsMembers(a: Announcement)
    ensures var params := Some(Object(Params(a)));
            && MemberOf(params, "device") == Some(One("uuid", Text(a.uuid)))
            && MemberOf(params, "expiration") == Some(Value(UInt(a.expiration), 0, 0))
            && MemberOf(params, "netSettings") == Some(One("interface", One("name", Text(a.sendingInterface))))
            && MemberOf(params, "router") == Some(One("uuid", Text(a.router)))
  {
    hide Lookup, One, Text;
    LookupStep("expiration", "device", One("uuid", Text(a.uuid)), FromExpiration(a));
    LookupStep("netSettings", "device", One("uuid", Text(a.uuid)), FromExpiration(a));
    LookupStep("router", "device", One("uuid", Text(a.uuid)), FromExpiration(a));
    LookupStep("device", "device", One("uuid", Text(a.uuid)), FromExpiration(a));
    LookupStep("expiration", "expiration", Value(UInt(a.expiration), 0, 0), FromSettings(a));
    LookupStep("netSettings", "expiration", Value(UInt(a.expiration), 0, 0), FromSettings(a));
    LookupStep("router", "expiration", Value(UInt(a.expiration), 0, 0), FromSettings(a));
    LookupStep("netSettings", "netSettings", One("interface", One("name", Text(a.sendingInterface))), FromRouter(a));
    LookupStep("router", "netSettings", One("interface", One("name", Text(a.sendingInterface))), FromRouter(a));
    LookupStep("router", "router", One("uuid", Text(a.router)), Nil);
  }

  lemma RootMembers(a: Announcement)
    ensures Member(AnnouncementTree(a), "method") == Some(Text("announce"))
    ensures Member(AnnouncementTree(a), "params") == Some(Object(Params(a)))
  {
    hide Lookup, Params;
    var rest := Cons(Name("params"), Object(Params(a)), Nil);
    LookupStep("method", "method", Text("announce"), rest);
    LookupStep("params", "method", Text("announce"), rest);
    LookupStep("params", "params", Object(Params(a)), Nil);
  }

  lemma TreeIsJudged(lib: CLibrary, a: Announcement)
    requires IsComplete(a)
    ensures JudgeRoot(lib, AnnouncementTree(a)) == Accepted(a)
  {
    RootMembers(a);
    ParamsMembers(a);
    OneMember("uuid", Text(a.uuid));
    OneMember("uuid", Text(a.router));
    OneMember("name", Text(a.sendingInterface));
    OneMember("interface", One("name", Text(a.sendingInterface)));
    hide Member, MemberOf, One, AnnouncementTree, Params, Object;
  }

  /** A complete announcement is accepted with exactly its names and its expiration, whichever writer printed it. */
  lemma AnnouncementArrives(lib: CLibrary, o: FastOptions, st: Style, a: Announcement)
    requires IsComplete(a) && !o.dropNulls && AllSpaces(st.unit)
    ensures Judge(lib, FastDocument(o, lib, AnnouncementTree(a))) == Accepted(a)
    ensures Judge(lib, StyledDocument(st, lib, AnnouncementTree(a))) == Accepted(a)
  {
    hide AnnouncementTree, JudgeRoot, Judge;
    TreeIsFine(a);
    TreeIsJudged(lib, a);
    FastMessageIsUnderstood(lib, o, AnnouncementTree(a));
    StyledMessageIsUnderstood(lib, st, AnnouncementTree(a));
  }

  /** A complete announcement that is new, told to a callback that throws: it is kept and reported as dropped. */
  lemma ThrowingCallbackReportsDrop(lib: CLibrary, o: FastOptions, a: Announcement, receivingInterface: string,
                                    now: int)
    requires IsComplete(a) && !o.dropNulls
    ensures var message := FastDocument(o, lib, AnnouncementTree(a));
            var s := AfterReceive(lib, [ThrowsException], State(map[], true, true, true, []), receivingInterface,
                                  message, now);
            && KeyOf(PathIn(receivingInterface, a)) in s.announcements
            && s.calls == [Announced(PathIn(receivingInterface, a), message),
                           Failed(DATA_DROPPED + E_EXCEPTION1, "Receiving error 1", message)]
  {
    hide AnnouncementTree, Judge, FastDocument, KeyOf;
    AnnouncementArrives(lib, o, Style(false, ""), a);
  }
}
