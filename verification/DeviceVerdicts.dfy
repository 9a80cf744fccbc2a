/**
 Which messages the monitor accepts, and with which code it drops each of the others, told by what is
 found under the names of the parsed message.
 */
module DeviceVerdicts {
  import opened DeviceMonitors
  import opened JsonParser
  import opened JsonTool
  import opened JsonValue
  import opened Wrappers

  /** Where a row of names leads: to a value, to nothing, or into a value that has no members */
  datatype Found = There(v: Value) | Nothing | Blocked

  function Follow(v: Value, names: seq<string>): Found
    decreases |names|
  {
    if names == [] then There(v)
    else
      match v.data
      case Null => Nothing
      case Obj(members) =>
        (match Find(members, Name(names[0])) case Some(w) => Follow(w, names[1..]) case None => Nothing)
      case _ => Blocked
  }

  /** What is found reads as a text: nothing and null as the empty one, containers as none. */
  ghost predicate ReadsAs(lib: CLibrary, found: Found, s: string) {
    match found
    case Nothing => s == ""
    case Blocked => false
    case There(v) =>
      match v.data
      case Null => s == ""
      case Str(t) => s == if t.Some? then t.value else ""
      case Bool(b) => s == if b then "true" else "false"
      case Int(i) => s == IntText(i)
      case UInt(u) => s == Digits(u)
      case Real(d) => s == lib.printDouble(d)
      case _ => false
  }

  /** What is found counts as a number of 32 bits: nothing and null as 0, a real as its integral part. */
  ghost predicate CountsAs(found: Found, n: nat) {
    match found
    case Nothing => n == 0
    case Blocked => false
    case There(v) =>
      match v.data
      case Null => n == 0
      case Bool(b) => n == if b then 1 else 0
      case Int(i) => n == i && n <= 0xFFFF_FFFF
      case UInt(u) => n == u && n <= 0xFFFF_FFFF
      case Real(Finite(r)) => 0.0 <= r <= 4294967295.0 && n as real <= r < n as real + 1.0
      case _ => false
  }

  const METHOD: seq<string> := ["method"]
  const SENDING_INTERFACE: seq<string> := ["params", "netSettings", "interface", "name"]
  const DEVICE: seq<string> := ["params", "device", "uuid"]
  const ROUTER: seq<string> := ["params", "router", "uuid"]
  const EXPIRATION: seq<string> := ["params", "expiration"]

  /** The value that the members on the way give, with `None` for their exception */
  function Walked(v: Option<Value>, names: seq<string>): Option<Value>
    decreases |names|
  {
    if names == [] then v else Walked(MemberOf(v, names[0]), names[1..])
  }

  lemma {:induction false} WalkNowhere(names: seq<string>)
    ensures Walked(None, names) == None && Walked(Some(NULL_VALUE), names) == Some(NULL_VALUE)
  {
    if names != [] {
      WalkNowhere(names[1..]);
    }
  }

  lemma {:induction false} WalkedIsFollowed(v: Value, names: seq<string>)
    ensures Walked(Some(v), names) ==
              match Follow(v, names)
              case There(w) => Some(w)
              case Nothing => Some(NULL_VALUE)
              case Blocked => None
    decreases |names|
  {
    if names != [] {
      WalkNowhere(names[1..]);
      match v.data
      case Obj(members) =>
        if Find(members, Name(names[0])).Some? {
          WalkedIsFollowed(Find(members, Name(names[0])).value, names[1..]);
        }
      case _ =>
    }
  }

  lemma TextIff(lib: CLibrary, v: Value, names: seq<string>, s: string)
    ensures AsString(lib, Walked(Some(v), names)) == Some(s) <==> ReadsAs(lib, Follow(v, names), s)
  {
    hide Follow, Walked, IntText, Digits;
    WalkedIsFollowed(v, names);
  }

  lemma NumberIff(v: Value, names: seq<string>, n: nat)
    ensures AsUInt(Walked(Some(v), names)) == Some(n) <==> CountsAs(Follow(v, names), n)
  {
    hide Follow, Walked;
    WalkedIsFollowed(v, names);
  }

  lemma WalkOne(v: Option<Value>, a: string)
    ensures Walked(v, [a]) == MemberOf(v, a)
  {
    assert [a][1..] == [];
  }

  lemma WalkMore(v: Option<Value>, a: string, names: seq<string>)
    ensures Walked(v, [a] + names) == Walked(MemberOf(v, a), names)
  {
    assert ([a] + names)[1..] == names;
  }

  lemma WalkedPaths(root: Value)
    ensures Walked(Some(root), METHOD) == Member(root, "method")
    ensures Walked(Some(root), SENDING_INTERFACE)
         == MemberOf(MemberOf(MemberOf(Member(root, "params"), "netSettings"), "interface"), "name")
    ensures Walked(Some(root), DEVICE) == MemberOf(MemberOf(Member(root, "params"), "device"), "uuid")
    ensures Walked(Some(root), ROUTER) == MemberOf(MemberOf(Member(root, "params"), "router"), "uuid")
    ensures Walked(Some(root), EXPIRATION) == MemberOf(Member(root, "params"), "expiration")
  {
    hide Walked, Member;
    var params := Member(root, "params");
    WalkOne(Some(root), "method");
    assert SENDING_INTERFACE == ["params"] + (["netSettings"] + (["interface"] + ["name"]));
    WalkMore(Some(root), "params", ["netSettings"] + (["interface"] + ["name"]));
    WalkMore(params, "netSettings", ["interface"] + ["name"]);
    WalkMore(MemberOf(params, "netSettings"), "interface", ["name"]);
    WalkOne(MemberOf(MemberOf(params, "netSettings"), "interface"), "name");
    assert DEVICE == ["params"] + (["device"] + ["uuid"]);
    WalkMore(Some(root), "params", ["device"] + ["uuid"]);
    WalkMore(params, "device", ["uuid"]);
    WalkOne(MemberOf(params, "device"), "uuid");
    assert ROUTER == ["params"] + (["router"] + ["uuid"]);
    WalkMore(Some(root), "params", ["router"] + ["uuid"]);
    WalkMore(params, "router", ["uuid"]);
    WalkOne(MemberOf(params, "router"), "uuid");
    assert EXPIRATION == ["params"] + ["expiration"];
    WalkMore(Some(root), "params", ["expiration"]);
    WalkOne(params, "expiration");
  }

  // ---------------------------------------------------------------- the verdict

  /** The text under a row of names is there and is not empty. */
  ghost predicate Named(lib: CLibrary, root: Value, names: seq<string>) {
    exists s :: s != "" && ReadsAs(lib, Follow(root, names), s)
  }

  /** The conditions in the order in which they are looked at */
  ghost predicate IsAnnouncement(lib: CLibrary, root: Value) {
    ReadsAs(lib, Follow(root, METHOD), "announce")
  }

  ghost predicate HasInterface(lib: CLibrary, root: Value) {
    IsAnnouncement(lib, root) && Named(lib, root, SENDING_INTERFACE)
  }

  ghost predicate HasDevice(lib: CLibrary, root: Value) {
    HasInterface(lib, root) && Named(lib, root, DEVICE)
  }

  ghost predicate HasOtherMethod(lib: CLibrary, root: Value) {
    exists s :: s != "announce" && ReadsAs(lib, Follow(root, METHOD), s)
  }

  ghost predicate IsComplete(lib: CLibrary, root: Value) {
    && HasDevice(lib, root)
    && (exists s :: ReadsAs(lib, Follow(root, ROUTER), s))
    && (exists n: nat :: CountsAs(Follow(root, EXPIRATION), n))
  }

  /**
   A message is accepted as an announcement exactly if it parses, its method is "announce", and the
   names and the expiration of the announcement stand in their places, neither the sending interface
   nor the device being empty nor the expiration being 0.
   */
  lemma AcceptedIff(lib: CLibrary, message: string, a: Announcement)
    ensures var r := ParseDocument(DEFAULT_FEATURES, lib, message, NULL_VALUE);
            Judge(lib, message) == Accepted(a) <==>
              && r.ok
              && ReadsAs(lib, Follow(r.root, METHOD), "announce")
              && ReadsAs(lib, Follow(r.root, SENDING_INTERFACE), a.sendingInterface) && a.sendingInterface != ""
              && ReadsAs(lib, Follow(r.root, DEVICE), a.uuid) && a.uuid != ""
              && ReadsAs(lib, Follow(r.root, ROUTER), a.router)
              && CountsAs(Follow(r.root, EXPIRATION), a.expiration) && a.expiration != 0
  {
    hide ParseDocument, ReadsAs, CountsAs, Follow, Walked, Member, MemberOf, AsString, AsUInt;
    var root := ParseDocument(DEFAULT_FEATURES, lib, message, NULL_VALUE).root;
    WalkedPaths(root);
    TextIff(lib, root, METHOD, "announce");
    TextIff(lib, root, SENDING_INTERFACE, a.sendingInterface);
    TextIff(lib, root, DEVICE, a.uuid);
    TextIff(lib, root, ROUTER, a.router);
    NumberIff(root, EXPIRATION, a.expiration);
  }

  /** The text under a row of names, as the monitor takes it */
  lemma Taken(lib: CLibrary, root: Value, names: seq<string>)
    ensures var t := AsString(lib, Walked(Some(root), names));
            && (t.Some? <==> exists s :: ReadsAs(lib, Follow(root, names), s))
            && (t.Some? && t.value != "" <==> Named(lib, root, names))
            && (t == Some("") <==> ReadsAs(lib, Follow(root, names), ""))
  {
    hide ReadsAs, Follow, Walked, AsString;
    var t := AsString(lib, Walked(Some(root), names));
    if t.Some? {
      TextIff(lib, root, names, t.value);
    }
    forall s ensures t == Some(s) <==> ReadsAs(lib, Follow(root, names), s) {
      TextIff(lib, root, names, s);
    }
  }

  lemma TakenNumber(root: Value, names: seq<string>)
    ensures var t := AsUInt(Walked(Some(root), names));
            && (t.Some? <==> exists n: nat :: CountsAs(Follow(root, names), n))
            && (t == Some(0) <==> CountsAs(Follow(root, names), 0))
  {
    hide CountsAs, Follow, Walked, AsUInt;
    var t := AsUInt(Walked(Some(root), names));
    if t.Some? {
      NumberIff(root, names, t.value);
    }
    forall n: nat ensures t == Some(n) <==> CountsAs(Follow(root, names), n) {
      NumberIff(root, names, n);
    }
  }

  lemma ConditionsTaken(lib: CLibrary, root: Value)
    ensures var name := AsString(lib, Walked(Some(root), METHOD));
            var sending := AsString(lib, Walked(Some(root), SENDING_INTERFACE));
            var uuid := AsString(lib, Walked(Some(root), DEVICE));
            var announced := name == Some("announce");
            && (HasOtherMethod(lib, root) <==> name.Some? && !announced)
            && (IsAnnouncement(lib, root) <==> announced)
            && (HasInterface(lib, root) <==> announced && sending.Some? && sending.value != "")
            && (HasDevice(lib, root) <==>
                  announced && sending.Some? && sending.value != "" && uuid.Some? && uuid.value != "")
            && (IsComplete(lib, root) <==>
                  && HasDevice(lib, root) && AsString(lib, Walked(Some(root), ROUTER)).Some?
                  && AsUInt(Walked(Some(root), EXPIRATION)).Some?)
  {
    hide ReadsAs, CountsAs, Follow, Walked, AsString, AsUInt, Named;
    var name := AsString(lib, Walked(Some(root), METHOD));
    forall s ensures name == Some(s) <==> ReadsAs(lib, Follow(root, METHOD), s) {
      TextIff(lib, root, METHOD, s);
    }
    assert name.Some? ==> ReadsAs(lib, Follow(root, METHOD), name.value);
    Taken(lib, root, SENDING_INTERFACE);
    Taken(lib, root, DEVICE);
    Taken(lib, root, ROUTER);
    TakenNumber(root, EXPIRATION);
  }

  /** Every other message is dropped with the code of the first condition that it fails. */
  lemma DroppedIff(lib: CLibrary, message: string, code: nat)
    ensures var r, v := ParseDocument(DEFAULT_FEATURES, lib, message, NULL_VALUE), Judge(lib, message);
            v.Dropped? && v.code == code <==>
              if !r.ok then code == 0x8000_0001
              else if HasOtherMethod(lib, r.root) then code == 0x8000_0002
              else if IsAnnouncement(lib, r.root) && ReadsAs(lib, Follow(r.root, SENDING_INTERFACE), "") then
                code == 0x8000_0003
              else if HasInterface(lib, r.root) && ReadsAs(lib, Follow(r.root, DEVICE), "") then code == 0x8000_0004
              else if IsComplete(lib, r.root) then
                code == 0x8000_0005 && CountsAs(Follow(r.root, EXPIRATION), 0)
              else code == 0x8000_0006
  {
    hide ParseDocument, ReadsAs, CountsAs, Follow, Walked, AsString, AsUInt, JudgeRoot;
    hide HasOtherMethod, IsAnnouncement, HasInterface, HasDevice, IsComplete;
    var root := ParseDocument(DEFAULT_FEATURES, lib, message, NULL_VALUE).root;
    ConditionsTaken(lib, root);
    TextIff(lib, root, SENDING_INTERFACE, "");
    TextIff(lib, root, DEVICE, "");
    NumberIff(root, EXPIRATION, 0);
    Codes(lib, root, code);
  }

  lemma Codes(lib: CLibrary, root: Value, code: nat)
    ensures var name := AsString(lib, Walked(Some(root), METHOD));
            var sending := AsString(lib, Walked(Some(root), SENDING_INTERFACE));
            var uuid := AsString(lib, Walked(Some(root), DEVICE));
            var router := AsString(lib, Walked(Some(root), ROUTER));
            var expiration := AsUInt(Walked(Some(root), EXPIRATION));
            var v := JudgeRoot(lib, root);
            v.Dropped? && v.code == code <==>
              if name.Some? && name.value != "announce" then code == 0x8000_0002
              else if name.Some? && sending == Some("") then code == 0x8000_0003
              else if name.Some? && sending.Some? && uuid == Some("") then code == 0x8000_0004
              else if name.Some? && sending.Some? && uuid.Some? && router.Some? && expiration.Some? then
                code == 0x8000_0005 && expiration == Some(0)
              else code == 0x8000_0006
  {
    hide Walked, Member, MemberOf, AsString, AsUInt;
    WalkedPaths(root);
  }

  lemma RootReason(lib: CLibrary, root: Value)
    ensures var v := JudgeRoot(lib, root);
            v.Dropped? ==>
              || (v.code == 0x8000_0002 && v.reason == "Missing \"announcement\" in JSON-document")
              || (v.code == 0x8000_0003 && v.reason == "Missing interface name in JSON-document")
              || (v.code == 0x8000_0004 && v.reason == "Missing uuid in JSON-document")
              || (v.code == 0x8000_0005 && v.reason == "Missing expiration in JSON-document")
              || (v.code == 0x8000_0006 && v.reason == "Receiving error 1")
  {
    hide Member, MemberOf, AsString, AsUInt;
  }

  /** The reason that goes with each code */
  lemma ReasonOfCode(lib: CLibrary, message: string)
    ensures var v := Judge(lib, message);
            v.Dropped? ==>
              && (v.code == 0x8000_0001 ==> v.reason == "JSON parser failed")
              && (v.code == 0x8000_0002 ==> v.reason == "Missing \"announcement\" in JSON-document")
              && (v.code == 0x8000_0003 ==> v.reason == "Missing interface name in JSON-document")
              && (v.code == 0x8000_0004 ==> v.reason == "Missing uuid in JSON-document")
              && (v.code == 0x8000_0005 ==> v.reason == "Missing expiration in JSON-document")
              && (v.code == 0x8000_0006 ==> v.reason == "Receiving error 1")
  {
    hide ParseDocument, JudgeRoot;
    RootReason(lib, ParseDocument(DEFAULT_FEATURES, lib, message, NULL_VALUE).root);
  }

  // ---------------------------------------------------------------- what the monitor does with a message

  /** A dropped message changes nothing and is reported. */
  lemma DroppedInFull(lib: CLibrary, endings: seq<Ending>, s: State, receivingInterface: string, message: string,
                      now: int)
    requires Judge(lib, message).Dropped?
    ensures var v := Judge(lib, message);
            AfterReceive(lib, endings, s, receivingInterface, message, now)
            == s.(calls := s.calls + if s.errorCb then [Failed(v.code, v.reason, message)] else [])
  {
    hide Judge;
  }

  /**
   An accepted message is kept under its four names with the time at which it expires, in nanoseconds. It
   is announced, if it is new for its names, and an exception of that is reported.
   */
  lemma AcceptedInFull(lib: CLibrary, endings: seq<Ending>, s: State, receivingInterface: string, message: string,
                       now: int)
    requires Judge(lib, message).Accepted?
    ensures var a := Judge(lib, message).announcement;
            var s' := AfterReceive(lib, endings, s, receivingInterface, message, now);
            var key := receivingInterface + ":" + a.sendingInterface + ":" + a.uuid + ":" + a.router;
            var told := s.announceCb && (key in s.announcements ==> s.announcements[key].announcement != message);
            var ending := if |s.calls| < |endings| then endings[|s.calls|] else Returns;
            && s' == s.(announcements := s'.announcements, calls := s'.calls)
            && s'.announcements == s.announcements[key := ExpiringEntry(message, now + a.expiration * 1_000_000_000)]
            && (!told ==> s'.calls == s.calls)
            && (told ==>
                  s'.calls == s.calls
                              + [Announced(Path(receivingInterface, a.sendingInterface, a.uuid, a.router), message)]
                              + if !s.errorCb || ending == Returns then []
                                else if ending == ThrowsException then
                                  [Failed(0x8000_0006, "Receiving error 1", message)]
                                else [Failed(0x8000_0007, "Receiving error 2", message)])
  {
    hide Judge;
  }
}
