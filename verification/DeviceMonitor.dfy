/**
 The table of announced devices. Announcements are JSON messages; an entry is kept under a key
 that joins four names, until no announcement came in time. A client sees the table through
 callbacks only.
 */
module DeviceMonitors {
  import opened JsonParser
  import opened JsonValue
  import opened Split
  import opened Wrappers

  /** The codes of the error callback; the source combines them with a bitwise or. */
  const DATA_DROPPED: nat := 0x8000_0000
  const ERROR_PARSE: nat := 1
  const ERROR_METHOD: nat := 2
  const ERROR_IPADDR: nat := 3
  const ERROR_UUID: nat := 4
  const ERROR_EXPIRE: nat := 5
  const E_EXCEPTION1: nat := 6
  const E_EXCEPTION2: nat := 7

  /** The steady clock counts nanoseconds. */
  const SECOND: nat := 1_000_000_000

  // ---------------------------------------------------------------- reading a message

  /** `operator[]` with a name; `None` stands for the exception of a value that has no members. */
  function Member(v: Value, name: string): Option<Value> {
    match v.data
    case Null => Some(NULL_VALUE)
    case Obj(members) => Some(Lookup(members, Name(name)))
    case _ => None
  }

  function MemberOf(v: Option<Value>, name: string): Option<Value> {
    if v.Some? then Member(v.value, name) else None
  }

  /** `asString`, with `None` for its exception */
  function AsString(lib: CLibrary, v: Option<Value>): Option<string> {
    if v.None? then None
    else
      match v.value.data
      case Null => Some("")
      case Str(s) => Some(if s.Some? then s.value else "")
      case Bool(b) => Some(if b then "true" else "false")
      case Arr(_) => None
      case Obj(_) => None
      case _ => Some(NumberAsString(lib, v.value.data))
  }

  /** `asUInt`, with `None` for its exception */
  function AsUInt(v: Option<Value>): Option<nat> {
    if v.None? then None
    else
      match v.value.data
      case Null => Some(0)
      case Bool(b) => Some(if b then 1 else 0)
      case Int(i) => if 0 <= i <= MAX_UINT then Some(i) else None
      case UInt(u) => if u <= MAX_UINT then Some(u) else None
      case Real(Finite(r)) => if 0.0 <= r <= MAX_UINT as real then Some(r.Floor) else None
      case _ => None
  }

  /** What a message announces. */
  datatype Announcement = Announcement(sendingInterface: string, uuid: string, router: string, expiration: nat)

  datatype Verdict = Accepted(announcement: Announcement) | Dropped(code: nat, reason: string)

  const THROWN: Verdict := Dropped(DATA_DROPPED + E_EXCEPTION1, "Receiving error 1")

  /** What a parsed message says; every exception ends in the same error. */
  function JudgeRoot(lib: CLibrary, root: Value): Verdict {
    var name := AsString(lib, Member(root, "method"));
    var params := Member(root, "params");
    var sending := AsString(lib, MemberOf(MemberOf(MemberOf(params, "netSettings"), "interface"), "name"));
    var uuid := AsString(lib, MemberOf(MemberOf(params, "device"), "uuid"));
    var router := AsString(lib, MemberOf(MemberOf(params, "router"), "uuid"));
    var expiration := AsUInt(MemberOf(params, "expiration"));
    if name.None? then THROWN
    else if name.value != "announce" then
      Dropped(DATA_DROPPED + ERROR_METHOD, "Missing \"announcement\" in JSON-document")
    else if sending.None? then THROWN
    else if sending.value == "" then
      Dropped(DATA_DROPPED + ERROR_IPADDR, "Missing interface name in JSON-document")
    else if uuid.None? then THROWN
    else if uuid.value == "" then
      Dropped(DATA_DROPPED + ERROR_UUID, "Missing uuid in JSON-document")
    else if router.None? || expiration.None? then THROWN
    else if expiration.value == 0 then
      Dropped(DATA_DROPPED + ERROR_EXPIRE, "Missing expiration in JSON-document")
    else Accepted(Announcement(sending.value, uuid.value, router.value, expiration.value))
  }

  function Judge(lib: CLibrary, message: string): Verdict {
    var parsed := ParseDocument(DEFAULT_FEATURES, lib, message, NULL_VALUE);
    if parsed.ok then JudgeRoot(lib, parsed.root)
    else Dropped(DATA_DROPPED + ERROR_PARSE, "JSON parser failed")
  }

  // ---------------------------------------------------------------- communication paths

  datatype Path = Path(receivingInterface: string, sendingInterface: string, uuid: string, router: string)

  function KeyOf(p: Path): string {
    p.receivingInterface + ":" + p.sendingInterface + ":" + p.uuid + ":" + p.router
  }

  /** `None` stands for the exception "invalid communication path". */
  function PathOf(key: string): Option<Path> {
    var tokens := SplitText(key, ":");
    if |tokens| == 4 then Some(Path(tokens[0], tokens[1], tokens[2], tokens[3])) else None
  }

  predicate ColonFree(p: Path) {
    ':' !in p.receivingInterface && ':' !in p.sendingInterface && ':' !in p.uuid && ':' !in p.router
  }

  lemma KeyIsJoin(p: Path)
    ensures KeyOf(p) == Join([p.receivingInterface, p.sendingInterface, p.uuid, p.router], ":")
  {
    var tokens := [p.receivingInterface, p.sendingInterface, p.uuid, p.router];
    assert tokens[1..] == [p.sendingInterface, p.uuid, p.router];
    assert tokens[1..][1..] == [p.uuid, p.router];
    assert [p.uuid, p.router][1..] == [p.router];
    assert Join([p.router], ":") == p.router;
    assert Join([p.uuid, p.router], ":") == p.uuid + ":" + p.router;
  }

  /** A key is taken apart into its path exactly when no name holds a colon. */
  lemma PathRoundTrip(p: Path)
    ensures PathOf(KeyOf(p)) == Some(p) <==> ColonFree(p)
  {
    var tokens := [p.receivingInterface, p.sendingInterface, p.uuid, p.router];
    KeyIsJoin(p);
    SplitInvertsJoin(tokens, ':');
    hide SplitText, KeyOf, Join;
    assert ColonFree(p) <==> forall n :: 0 <= n < |tokens| ==> ':' !in tokens[n] by {
      assert tokens[0] == p.receivingInterface && tokens[1] == p.sendingInterface;
      assert tokens[2] == p.uuid && tokens[3] == p.router;
    }
    var split := SplitText(KeyOf(p), ":");
    if |split| == 4 {
      assert split == [split[0], split[1], split[2], split[3]];
    }
  }

  /** Whatever is taken apart gives the key back. */
  lemma KeyOfPath(key: string)
    ensures PathOf(key).Some? ==> KeyOf(PathOf(key).value) == key
  {
    JoinSplit(key, ":");
    hide SplitText, KeyOf, Join;
    if PathOf(key).Some? {
      var tokens := SplitText(key, ":");
      KeyIsJoin(PathOf(key).value);
      assert tokens == [tokens[0], tokens[1], tokens[2], tokens[3]];
    }
  }

  // ---------------------------------------------------------------- states and calls

  datatype ExpiringEntry = ExpiringEntry(announcement: string, timeOfExpiry: int)

  /** The calls of the client's callbacks. */
  datatype Call =
    | Announced(path: Path, announcement: string)
    | Expired(path: Path)
    | Failed(code: nat, reason: string, message: string)

  /** How a callback of the client ends. */
  datatype Ending = Returns | ThrowsException | ThrowsOther

  function EndingAt(endings: seq<Ending>, n: nat): Ending {
    if n < |endings| then endings[n] else Returns
  }

  datatype State = State(
    announcements: map<string, ExpiringEntry>,
    announceCb: bool,     // whether the callback is set
    expireCb: bool,
    errorCb: bool,
    calls: seq<Call>)

  function FailedCall(s: State, code: nat, reason: string, message: string): seq<Call> {
    if s.errorCb then [Failed(code, reason, message)] else []
  }

  /** The client is told about a message that is new for its path. */
  function News(s: State, p: Path, message: string): seq<Call> {
    if s.announceCb && !(KeyOf(p) in s.announcements && s.announcements[KeyOf(p)].announcement == message) then
      [Announced(p, message)]
    else []
  }

  /** The error that is reported when the client's announce callback throws. */
  function ThrownCall(s: State, ending: Ending, message: string): seq<Call> {
    match ending
    case Returns => []
    case ThrowsException => FailedCall(s, DATA_DROPPED + E_EXCEPTION1, "Receiving error 1", message)
    case ThrowsOther => FailedCall(s, DATA_DROPPED + E_EXCEPTION2, "Receiving error 2", message)
  }

  function PathIn(receivingInterface: string, a: Announcement): Path {
    Path(receivingInterface, a.sendingInterface, a.uuid, a.router)
  }

  function AfterAccept(endings: seq<Ending>, s: State, p: Path, message: string, expiry: int): State {
    var news := News(s, p, message);
    var thrown := if news == [] then [] else ThrownCall(s, EndingAt(endings, |s.calls|), message);
    s.(announcements := s.announcements[KeyOf(p) := ExpiringEntry(message, expiry)], calls := s.calls + news + thrown)
  }

  /** The state after a message arrives at time `now`. */
  function AfterReceive(lib: CLibrary, endings: seq<Ending>, s: State, receivingInterface: string, message: string,
                        now: int): State {
    match Judge(lib, message)
    case Dropped(code, reason) => s.(calls := s.calls + FailedCall(s, code, reason, message))
    case Accepted(a) => AfterAccept(endings, s, PathIn(receivingInterface, a), message, now + a.expiration * SECOND)
  }

  predicate IsDropReport(call: Call, message: string) {
    call.Failed? && call.code >= DATA_DROPPED && call.message == message
  }

  /** The client is told that a message was dropped. */
  ghost predicate ReportsDrop(s: State, s': State, message: string) {
    exists n :: |s.calls| <= n < |s'.calls| && IsDropReport(s'.calls[n], message)
  }

  /**
   An accepted message is in the table, and reported as dropped exactly if it is announced and the callback
   throws.
   */
  lemma KeptButReportedIff(lib: CLibrary, endings: seq<Ending>, s: State, receivingInterface: string, message: string,
                           now: int)
    requires Judge(lib, message).Accepted?
    ensures var s' := AfterReceive(lib, endings, s, receivingInterface, message, now);
            var key := KeyOf(PathIn(receivingInterface, Judge(lib, message).announcement));
            && key in s'.announcements && s'.announcements[key].announcement == message
            && (ReportsDrop(s, s', message) <==>
                  && s.errorCb && s.announceCb && EndingAt(endings, |s.calls|) != Returns
                  && !(key in s.announcements && s.announcements[key].announcement == message))
  {
    hide Judge, KeyOf;
    var s' := AfterReceive(lib, endings, s, receivingInterface, message, now);
    var p := PathIn(receivingInterface, Judge(lib, message).announcement);
    var thrown := ThrownCall(s, EndingAt(endings, |s.calls|), message);
    if News(s, p, message) != [] && thrown != [] {
      assert s'.calls[|s.calls| + 1] == thrown[0];
      assert ReportsDrop(s, s', message);
    }
  }

  /** The keys in some order, each once. */
  ghost predicate Lists(order: seq<string>, keys: set<string>) {
    && (forall n :: 0 <= n < |order| ==> order[n] in keys)
    && (forall key :: key in keys ==> key in order)
    && (forall m, n :: 0 <= m < n < |order| ==> order[m] != order[n])
  }

  /** A key that cannot be taken apart is skipped silently. */
  function AnnounceNote(key: string, table: map<string, ExpiringEntry>): seq<Call> {
    match PathOf(key)
    case Some(p) => if key in table then [Announced(p, table[key].announcement)] else []
    case None => []
  }

  function ExpireNote(key: string): seq<Call> {
    match PathOf(key)
    case Some(p) => [Expired(p)]
    case None => []
  }

  function AnnounceNotes(order: seq<string>, table: map<string, ExpiringEntry>): seq<Call> {
    if order == [] then []
    else AnnounceNotes(order[..|order| - 1], table) + AnnounceNote(order[|order| - 1], table)
  }

  function ExpireNotes(order: seq<string>): seq<Call> {
    if order == [] then [] else ExpireNotes(order[..|order| - 1]) + ExpireNote(order[|order| - 1])
  }

  function ExpiredKeys(table: map<string, ExpiringEntry>, now: int): set<string> {
    set key | key in table && table[key].timeOfExpiry < now
  }

  /** What the client and the environment do to a monitor. */
  datatype Action =
    | SetAnnounce(isSet: bool)
    | SetExpire(isSet: bool)
    | SetError(isSet: bool)
    | Receive(receivingInterface: string, message: string, now: int)
    | Sweep(now: int)

  /** The new state for each action; `order` is the order in which the hash map is walked. */
  ghost predicate Leads(lib: CLibrary, endings: seq<Ending>, s: State, action: Action, order: seq<string>, s': State) {
    match action
    case SetAnnounce(isSet) =>
      && (isSet ==> Lists(order, s.announcements.Keys))
      && s' == s.(announceCb := isSet, calls := s.calls + if isSet then AnnounceNotes(order, s.announcements) else [])
    case SetExpire(isSet) => s' == s.(expireCb := isSet)
    case SetError(isSet) => s' == s.(errorCb := isSet)
    case Receive(receivingInterface, message, now) =>
      s' == AfterReceive(lib, endings, s, receivingInterface, message, now)
    case Sweep(now) =>
      && Lists(order, ExpiredKeys(s.announcements, now))
      && s' == s.(announcements := s.announcements - ExpiredKeys(s.announcements, now),
                  calls := s.calls + if s.expireCb then ExpireNotes(order) else [])
  }

  lemma ListsOneMore(order: seq<string>, keys: set<string>, key: string)
    requires Lists(order, keys) && key !in keys
    ensures Lists(order + [key], keys + {key})
  {
  }

  lemma NotesOneMore(order: seq<string>, key: string, table: map<string, ExpiringEntry>)
    ensures AnnounceNotes(order + [key], table) == AnnounceNotes(order, table) + AnnounceNote(key, table)
    ensures ExpireNotes(order + [key]) == ExpireNotes(order) + ExpireNote(key)
  {
    assert (order + [key])[..|order|] == order;
  }

  /** Where a walk over a table stands: `left` are the keys to come, `order` the others. */
  ghost predicate Walked(table: map<string, ExpiringEntry>, left: set<string>, order: seq<string>) {
    left <= table.Keys && Lists(order, table.Keys - left)
  }

  lemma WalkStarts(table: map<string, ExpiringEntry>)
    ensures Walked(table, table.Keys, [])
  {
  }

  lemma WalkStep(table: map<string, ExpiringEntry>, left: set<string>, order: seq<string>, key: string)
    requires Walked(table, left, order) && key in left
    ensures key in table && Walked(table, left - {key}, order + [key])
  {
    hide Lists;
    ListsOneMore(order, table.Keys - left, key);
    assert table.Keys - left + {key} == table.Keys - (left - {key});
  }

  lemma WalkEnds(table: map<string, ExpiringEntry>, order: seq<string>)
    requires Walked(table, {}, order)
    ensures Lists(order, table.Keys)
  {
    assert table.Keys - {} == table.Keys;
  }

  /** Where a sweep stands: `table` is what is left of `before`, `order` are the keys erased so far. */
  ghost predicate Swept(before: map<string, ExpiringEntry>, now: int, left: set<string>,
                        table: map<string, ExpiringEntry>, order: seq<string>)
  {
    var gone := ExpiredKeys(before, now) - left;
    left <= before.Keys && table == before - gone && Lists(order, gone)
  }

  lemma SweepStarts(before: map<string, ExpiringEntry>, now: int)
    ensures Swept(before, now, before.Keys, before, [])
  {
    assert ExpiredKeys(before, now) - before.Keys == {};
  }

  lemma SweepStep(before: map<string, ExpiringEntry>, now: int, left: set<string>,
                  table: map<string, ExpiringEntry>, order: seq<string>, key: string)
    requires Swept(before, now, left, table, order) && key in left
    ensures key in table
    ensures if table[key].timeOfExpiry < now then Swept(before, now, left - {key}, table - {key}, order + [key])
            else Swept(before, now, left - {key}, table, order)
  {
    hide Lists;
    var gone, gone' := ExpiredKeys(before, now) - left, ExpiredKeys(before, now) - (left - {key});
    if before[key].timeOfExpiry < now {
      ListsOneMore(order, gone, key);
      assert gone' == gone + {key};
      assert before - gone' == table - {key};
    } else {
      assert gone' == gone;
    }
  }

  lemma SweepEnds(before: map<string, ExpiringEntry>, now: int, table: map<string, ExpiringEntry>, order: seq<string>)
    requires Swept(before, now, {}, table, order)
    ensures Lists(order, ExpiredKeys(before, now)) && table == before - ExpiredKeys(before, now)
  {
    assert ExpiredKeys(before, now) - {} == ExpiredKeys(before, now);
  }

  class DeviceMonitor {
    const lib: CLibrary
    /** How the calls of the client's callbacks end */
    const endings: seq<Ending>

    var announcements: map<string, ExpiringEntry>
    var announceCb: bool
    var expireCb: bool
    var errorCb: bool
    /** The callbacks that were called so far */
    var calls: seq<Call>

    function Current(): State
      reads this
    {
      State(announcements, announceCb, expireCb, errorCb, calls)
    }

    constructor (lib: CLibrary, endings: seq<Ending>)
      ensures this.lib == lib && this.endings == endings
      ensures Current() == State(map[], false, false, false, [])
    {
      this.lib := lib;
      this.endings := endings;
      announcements := map[];
      announceCb := false;
      expireCb := false;
      errorCb := false;
      calls := [];
    }

    /** Calls a callback of the client. */
    method Notify(call: Call) returns (ending: Ending)
      modifies this`calls
      ensures calls == old(calls) + [call] && ending == EndingAt(endings, |old(calls)|)
    {
      ending := EndingAt(endings, |calls|);
      calls := calls + [call];
    }

    method NotifyAnnounced(key: string)
      requires key in announcements
      modifies this`calls
      ensures calls == old(calls) + AnnounceNote(key, announcements)
    {
      match PathOf(key) {
        case Some(path) => var _ := Notify(Announced(path, announcements[key].announcement));
        case None =>
      }
    }

    /** Tells the client of every device in the table. */
    method NotifyAll() returns (ghost order: seq<string>)
      modifies this`calls
      ensures Lists(order, announcements.Keys)
      ensures calls == old(calls) + AnnounceNotes(order, announcements)
    {
      hide AnnounceNote, ExpireNote, AnnounceNotes, ExpireNotes, Walked, Lists;
      order := [];
      var left := announcements.Keys;
      NoNotes(announcements);
      WalkStarts(announcements);
      while left != {}
        invariant Walked(announcements, left, order)
        invariant calls == old(calls) + AnnounceNotes(order, announcements)
        decreases |left|
      {
        var key :| key in left;
        WalkStep(announcements, left, order, key);
        NotesOneMore(order, key, announcements);
        NotifyAnnounced(key);
        left := left - {key};
        order := order + [key];
      }
      WalkEnds(announcements, order);
    }

    /** The client hears of every known device at once; what its callback throws is ignored. */
    method SetAnnounceCb(isSet: bool) returns (ghost order: seq<string>)
      modifies this`announceCb, this`calls
      ensures Leads(lib, endings, old(Current()), SetAnnounce(isSet), order, Current())
    {
      announceCb := isSet;
      order := [];
      if isSet {
        order := NotifyAll();
      }
    }

    method SetExpireCb(isSet: bool)
      modifies this`expireCb
      ensures Leads(lib, endings, old(Current()), SetExpire(isSet), [], Current())
    {
      expireCb := isSet;
    }

    method SetErrorCb(isSet: bool)
      modifies this`errorCb
      ensures Leads(lib, endings, old(Current()), SetError(isSet), [], Current())
    {
      errorCb := isSet;
    }

    method CallErrorCb(code: nat, reason: string, message: string)
      modifies this`calls
      ensures calls == old(calls) + FailedCall(old(Current()), code, reason, message)
    {
      if errorCb {
        var _ := Notify(Failed(code, reason, message));
      }
    }

    method ProcessReceivedAnnouncement(receivingInterface: string, message: string, now: int)
      modifies this`announcements, this`calls
      ensures Leads(lib, endings, old(Current()), Receive(receivingInterface, message, now), [], Current())
    {
      hide Judge, KeyOf;
      var verdict := Judge(lib, message);
      if verdict.Dropped? {
        CallErrorCb(verdict.code, verdict.reason, message);
        return;
      }
      var a := verdict.announcement;
      var path := PathIn(receivingInterface, a);
      var key := KeyOf(path);
      var changed := false;
      if key in announcements {
        var currentEntry := announcements[key];
        announcements := announcements[key := currentEntry.(timeOfExpiry := now + a.expiration * SECOND)];
        if message != currentEntry.announcement {
          announcements := announcements[key := announcements[key].(announcement := message)];
          changed := true;
        }
      } else {
        announcements := announcements[key := ExpiringEntry(message, now + a.expiration * SECOND)];
        changed := true;
      }
      if changed && announceCb {
        var ending := Notify(Announced(path, message));
        match ending
        case Returns =>
        case ThrowsException => CallErrorCb(DATA_DROPPED + E_EXCEPTION1, "Receiving error 1", message);
        case ThrowsOther => CallErrorCb(DATA_DROPPED + E_EXCEPTION2, "Receiving error 2", message);
      }
    }

    method CheckForExpiredTimerCb(fired: bool, now: int) returns (ghost order: seq<string>)
      modifies this`announcements, this`calls
      ensures if fired then Leads(lib, endings, old(Current()), Sweep(now), order, Current())
              else Current() == old(Current())
    {
      if !fired {
        return [];
      }
      order := CheckForExpiredAnnouncements(now);
    }

    /** Tells the client of one expired device, unless its key cannot be taken apart. */
    method NotifyExpired(key: string)
      modifies this`calls
      ensures calls == if expireCb then old(calls) + ExpireNote(key) else old(calls)
    {
      if expireCb {
        match PathOf(key) {
          case Some(path) => var _ := Notify(Expired(path));
          case None =>
        }
      }
    }

    /** Erases one entry if it is due and tells the client. */
    method EraseIfExpired(key: string, now: int) returns (erased: bool)
      requires key in announcements
      modifies this`announcements, this`calls
      ensures erased == (old(announcements)[key].timeOfExpiry < now)
      ensures announcements == if erased then old(announcements) - {key} else old(announcements)
      ensures calls == if erased && expireCb then old(calls) + ExpireNote(key) else old(calls)
    {
      hide ExpireNote;
      erased := announcements[key].timeOfExpiry < now;
      if erased {
        NotifyExpired(key);
        announcements := announcements - {key};
      }
    }

    /** Walks through the table and erases while walking. */
    method EraseExpired(now: int) returns (ghost order: seq<string>)
      modifies this`announcements, this`calls
      ensures Lists(order, ExpiredKeys(old(announcements), now))
      ensures announcements == old(announcements) - ExpiredKeys(old(announcements), now)
      ensures calls == if expireCb then old(calls) + ExpireNotes(order) else old(calls)
    {
      hide AnnounceNote, ExpireNote, AnnounceNotes, ExpireNotes, Swept, Lists, ExpiredKeys;
      order := [];
      ghost var before := announcements;
      var left := announcements.Keys;
      NoNotes(before);
      SweepStarts(before, now);
      while left != {}
        invariant Swept(before, now, left, announcements, order)
        invariant calls == if expireCb then old(calls) + ExpireNotes(order) else old(calls)
        decreases |left|
      {
        var key :| key in left;
        SweepStep(before, now, left, announcements, order, key);
        NotesOneMore(order, key, before);
        var erased := EraseIfExpired(key, now);
        if erased {
          order := order + [key];
        }
        left := left - {key};
      }
      SweepEnds(before, now, announcements, order);
    }

    method CheckForExpiredAnnouncements(now: int) returns (ghost order: seq<string>)
      modifies this`announcements, this`calls
      ensures Leads(lib, endings, old(Current()), Sweep(now), order, Current())
      ensures forall key :: key in announcements <==>
                              key in old(announcements) && now <= old(announcements)[key].timeOfExpiry
      ensures forall key :: key in announcements ==> announcements[key] == old(announcements)[key]
    {
      order := EraseExpired(now);
    }
  }

  lemma NoNotes(table: map<string, ExpiringEntry>)
    ensures AnnounceNotes([], table) == [] && ExpireNotes([]) == []
  {
  }
}
