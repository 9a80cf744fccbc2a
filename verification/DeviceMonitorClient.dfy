/**
 A client that only hears the announce and expire callbacks always knows the table, provided
 no name holds a colon: the key of a device is taken apart again to tell the client who expired.
 */
module DeviceMonitorClient {
  import opened DeviceMonitorRuns
  import opened DeviceMonitors
  import opened JsonParser
  import opened Wrappers

  /** The devices and messages that the callbacks told of so far */
  function View(calls: seq<Call>): map<Path, string> {
    if calls == [] then map[]
    else
      var before := View(calls[..|calls| - 1]);
      match calls[|calls| - 1]
      case Announced(p, message) => before[p := message]
      case Expired(p) => before - {p}
      case Failed(_, _, _) => before
  }

  function ViewStep(view: map<Path, string>, call: Call): map<Path, string> {
    match call
    case Announced(p, message) => view[p := message]
    case Expired(p) => view - {p}
    case Failed(_, _, _) => view
  }

  lemma ViewOneMore(calls: seq<Call>, call: Call)
    ensures View(calls + [call]) == ViewStep(View(calls), call)
  {
    assert (calls + [call])[..|calls|] == calls;
  }

  /** The view shows exactly the devices of the table, each with its message. */
  ghost predicate Agrees(view: map<Path, string>, table: map<string, ExpiringEntry>) {
    forall p: Path ::
      && (p in view <==> ColonFree(p) && KeyOf(p) in table)
      && (p in view ==> view[p] == table[KeyOf(p)].announcement)
  }

  /** Every key can be taken apart. */
  ghost predicate Proper(table: map<string, ExpiringEntry>) {
    forall key :: key in table ==> PathOf(key).Some?
  }

  /** Every accepted announcement comes with names that hold no colon. */
  ghost predicate ColonFreeNames(lib: CLibrary, actions: seq<Action>) {
    forall n :: 0 <= n < |actions| && Announces(lib, actions[n]).Some? ==> ColonFree(Announces(lib, actions[n]).value.0)
  }

  lemma SamePath(p: Path, q: Path)
    requires ColonFree(p) && ColonFree(q) && KeyOf(p) == KeyOf(q)
    ensures p == q
  {
    hide KeyOf, PathOf, ColonFree;
    PathRoundTrip(p);
    PathRoundTrip(q);
  }

  /** The path of a key */
  lemma PathOfKey(key: string, p: Path)
    requires PathOf(key) == Some(p)
    ensures ColonFree(p) && KeyOf(p) == key
  {
    KeyOfPath(key);
    hide KeyOf;
    PathRoundTrip(p);
  }

  // ---------------------------------------------------------------- one action

  lemma ProperStays(lib: CLibrary, endings: seq<Ending>, s: State, action: Action, s': State)
    requires Follows(lib, endings, s, action, s') && Proper(s.announcements)
    requires Announces(lib, action).Some? ==> ColonFree(Announces(lib, action).value.0)
    ensures Proper(s'.announcements)
  {
    hide KeyOf, PathOf, ColonFree, Judge, Lists, AnnounceNotes, ExpireNotes, News, ThrownCall;
    if Announces(lib, action).Some? {
      PathRoundTrip(Announces(lib, action).value.0);
    }
  }

  lemma AnnouncedAgrees(view: map<Path, string>, table: map<string, ExpiringEntry>, p: Path, entry: ExpiringEntry)
    requires Agrees(view, table) && ColonFree(p)
    ensures Agrees(view[p := entry.announcement], table[KeyOf(p) := entry])
    ensures KeyOf(p) in table && table[KeyOf(p)].announcement == entry.announcement ==>
              Agrees(view, table[KeyOf(p) := entry])
  {
    hide KeyOf, ColonFree;
    forall q: Path | ColonFree(q) && KeyOf(q) == KeyOf(p) ensures q == p {
      SamePath(p, q);
    }
  }

  lemma ExpiredAgrees(view: map<Path, string>, table: map<string, ExpiringEntry>, key: string, p: Path)
    requires Agrees(view, table) && PathOf(key) == Some(p)
    ensures Agrees(view - {p}, table - {key})
  {
    hide KeyOf, ColonFree, PathOf;
    PathOfKey(key, p);
    forall q: Path | ColonFree(q) && KeyOf(q) == key ensures q == p {
      SamePath(p, q);
    }
  }

  /** Expiring the keys in some order */
  lemma {:induction false} ExpireNotesAgree(calls: seq<Call>, table: map<string, ExpiringEntry>, order: seq<string>,
                                            keys: set<string>)
    requires Agrees(View(calls), table) && Proper(table) && Lists(order, keys) && keys <= table.Keys
    ensures Agrees(View(calls + ExpireNotes(order)), table - keys)
  {
    hide View, Agrees, PathOf;
    if order == [] {
      assert calls + [] == calls && table - keys == table;
    } else {
      var before, key := order[..|order| - 1], order[|order| - 1];
      ListsAllButLast(order, keys);
      ExpireNotesAgree(calls, table, before, keys - {key});
      var p := PathOf(key).value;
      ExpiredAgrees(View(calls + ExpireNotes(before)), table - (keys - {key}), key, p);
      ViewOneMore(calls + ExpireNotes(before), Expired(p));
      assert calls + (ExpireNotes(before) + [Expired(p)]) == calls + ExpireNotes(before) + [Expired(p)];
      assert table - (keys - {key}) - {key} == table - keys;
    }
  }

  lemma ListsAllButLast(order: seq<string>, keys: set<string>)
    requires Lists(order, keys) && order != []
    ensures Lists(order[..|order| - 1], keys - {order[|order| - 1]}) && order[|order| - 1] in keys
  {
    var before, last := order[..|order| - 1], order[|order| - 1];
    forall key | key in keys && key != last ensures key in before {
      var n :| 0 <= n < |order| && order[n] == key;
      assert before[n] == key;
    }
  }

  /** Announcing known devices again changes nothing. */
  lemma {:induction false} AnnounceNotesAgree(calls: seq<Call>, table: map<string, ExpiringEntry>, order: seq<string>)
    requires Agrees(View(calls), table)
    ensures Agrees(View(calls + AnnounceNotes(order, table)), table)
  {
    hide View, Agrees, PathOf, KeyOf;
    if order == [] {
      assert calls + [] == calls;
    } else {
      var before, key := order[..|order| - 1], order[|order| - 1];
      AnnounceNotesAgree(calls, table, before);
      var notes := calls + AnnounceNotes(before, table);
      if PathOf(key).Some? && key in table {
        var p := PathOf(key).value;
        PathOfKey(key, p);
        AnnouncedAgrees(View(notes), table, p, table[key]);
        ViewOneMore(notes, Announced(p, table[key].announcement));
        assert table[key := table[key]] == table;
        assert calls + (AnnounceNotes(before, table) + AnnounceNote(key, table))
               == notes + [Announced(p, table[key].announcement)];
      } else {
        assert calls + (AnnounceNotes(before, table) + []) == notes;
      }
    }
  }

  /** The part of a table with the given keys */
  function Restrict(table: map<string, ExpiringEntry>, keys: set<string>): map<string, ExpiringEntry> {
    map key | key in keys && key in table :: table[key]
  }

  /** A new client that is told of every device, in any order, knows the table. */
  lemma {:induction false} AllNotesAgree(table: map<string, ExpiringEntry>, order: seq<string>, keys: set<string>)
    requires Proper(table) && Lists(order, keys) && keys <= table.Keys
    ensures Agrees(View(AnnounceNotes(order, table)), Restrict(table, keys))
  {
    hide View, Agrees, PathOf, KeyOf;
    if order == [] {
      NothingAgrees();
      assert Restrict(table, keys) == map[];
    } else {
      var before, key := order[..|order| - 1], order[|order| - 1];
      ListsAllButLast(order, keys);
      AllNotesAgree(table, before, keys - {key});
      var p := PathOf(key).value;
      PathOfKey(key, p);
      AnnouncedAgrees(View(AnnounceNotes(before, table)), Restrict(table, keys - {key}), p, table[key]);
      ViewOneMore(AnnounceNotes(before, table), Announced(p, table[key].announcement));
      assert Restrict(table, keys - {key})[key := table[key]] == Restrict(table, keys);
    }
  }

  lemma NothingAgrees()
    ensures Agrees(View([]), map[])
  {
  }

  /** A message changes the view exactly if it is news. */
  lemma AcceptAgrees(endings: seq<Ending>, s: State, p: Path, message: string, expiry: int, earlier: nat)
    requires s.announceCb && ColonFree(p) && earlier <= |s.calls| && Agrees(View(s.calls[earlier..]), s.announcements)
    ensures var s' := AfterAccept(endings, s, p, message, expiry);
            && s'.announceCb && s'.expireCb == s.expireCb && earlier <= |s'.calls|
            && Agrees(View(s'.calls[earlier..]), s'.announcements)
  {
    hide View, Agrees, KeyOf, ColonFree;
    var s' := AfterAccept(endings, s, p, message, expiry);
    var calls, news := s.calls[earlier..], News(s, p, message);
    AnnouncedAgrees(View(calls), s.announcements, p, ExpiringEntry(message, expiry));
    if news == [] {
      assert s'.calls[earlier..] == calls;
    } else {
      ViewOneMore(calls, Announced(p, message));
      var thrown := ThrownCall(s, EndingAt(endings, |s.calls|), message);
      assert s'.calls[earlier..] == calls + [Announced(p, message)] + thrown;
      FailuresAreIgnored(s, EndingAt(endings, |s.calls|), message, calls + [Announced(p, message)]);
    }
  }

  lemma FailuresAreIgnored(s: State, ending: Ending, message: string, calls: seq<Call>)
    ensures View(calls + ThrownCall(s, ending, message)) == View(calls)
  {
    hide View;
    var thrown := ThrownCall(s, ending, message);
    if thrown == [] {
      assert calls + thrown == calls;
    } else {
      ViewOneMore(calls, thrown[0]);
    }
  }

  lemma DropIsIgnored(s: State, code: nat, reason: string, message: string, calls: seq<Call>)
    ensures View(calls + FailedCall(s, code, reason, message)) == View(calls)
  {
    hide View;
    if s.errorCb {
      ViewOneMore(calls, Failed(code, reason, message));
    } else {
      assert calls + [] == calls;
    }
  }

  /** Neither callback is taken away. */
  predicate KeepsCallbacks(action: Action) {
    action != SetAnnounce(false) && action != SetExpire(false)
  }

  lemma ActionKeepsAgreement(lib: CLibrary, endings: seq<Ending>, s: State, action: Action, s': State, earlier: nat)
    requires Follows(lib, endings, s, action, s') && KeepsCallbacks(action) && s.announceCb && s.expireCb
    requires Announces(lib, action).Some? ==> ColonFree(Announces(lib, action).value.0)
    requires Proper(s.announcements) && earlier <= |s.calls| && Agrees(View(s.calls[earlier..]), s.announcements)
    ensures s'.announceCb && s'.expireCb && earlier <= |s'.calls|
    ensures Agrees(View(s'.calls[earlier..]), s'.announcements)
  {
    hide View, Agrees, KeyOf, PathOf, ColonFree, Judge, Proper, Lists, News, ThrownCall, FailedCall, ExpiredKeys;
    hide AfterAccept;
    var order :| Leads(lib, endings, s, action, order, s');
    var calls := s.calls[earlier..];
    match action {
      case SetAnnounce(_) =>
        AnnounceNotesAgree(calls, s.announcements, order);
        assert s'.calls[earlier..] == calls + AnnounceNotes(order, s.announcements);
      case Sweep(now) =>
        ExpiredAreKeys(s.announcements, now);
        ExpireNotesAgree(calls, s.announcements, order, ExpiredKeys(s.announcements, now));
        assert s'.calls[earlier..] == calls + ExpireNotes(order);
      case Receive(_, message, _) =>
        var verdict := Judge(lib, message);
        if verdict.Accepted? {
          var a := Announces(lib, action).value;
          AcceptAgrees(endings, s, a.0, message, a.1.timeOfExpiry, earlier);
        } else {
          DropIsIgnored(s, verdict.code, verdict.reason, message, calls);
          assert s'.calls[earlier..] == calls + FailedCall(s, verdict.code, verdict.reason, message);
        }
      case _ =>
    }
  }

  lemma ExpiredAreKeys(table: map<string, ExpiringEntry>, now: int)
    ensures ExpiredKeys(table, now) <= table.Keys
  {
  }

  // ---------------------------------------------------------------- runs

  lemma {:induction false} TablesAreProper(lib: CLibrary, endings: seq<Ending>, states: seq<State>,
                                           actions: seq<Action>, n: nat)
    requires IsRun(lib, endings, states, actions) && n < |states| && ColonFreeNames(lib, actions)
    ensures Proper(states[n].announcements)
  {
    hide Follows, Announces, ColonFree, PathOf;
    if n > 0 {
      TablesAreProper(lib, endings, states, actions, n - 1);
      ProperStays(lib, endings, states[n - 1], actions[n - 1], states[n]);
    }
  }

  /**
   From the moment a client sets the announce callback, with the expire callback set before,
   until it takes one of them away, what the callbacks told it is the table, at any time.
   */
  lemma {:induction false} ClientKnowsTheTable(lib: CLibrary, endings: seq<Ending>, states: seq<State>,
                                               actions: seq<Action>, i: nat, n: nat)
    requires IsRun(lib, endings, states, actions) && ColonFreeNames(lib, actions) && i < n < |states|
    requires states[i].expireCb && actions[i] == SetAnnounce(true)
    requires forall k :: i < k < n ==> KeepsCallbacks(actions[k])
    ensures states[n].announceCb && states[n].expireCb && |states[i].calls| <= |states[n].calls|
    ensures Agrees(View(states[n].calls[|states[i].calls|..]), states[n].announcements)
    decreases n
  {
    hide Follows, Announces, ColonFree, Proper, Agrees, View;
    TablesAreProper(lib, endings, states, actions, n - 1);
    if n == i + 1 {
      Subscribing(lib, endings, states[i], states[n]);
    } else {
      ClientKnowsTheTable(lib, endings, states, actions, i, n - 1);
      ActionKeepsAgreement(lib, endings, states[n - 1], actions[n - 1], states[n], |states[i].calls|);
    }
  }

  lemma Subscribing(lib: CLibrary, endings: seq<Ending>, s: State, s': State)
    requires Follows(lib, endings, s, SetAnnounce(true), s') && s.expireCb && Proper(s.announcements)
    ensures s'.announceCb && s'.expireCb && |s.calls| <= |s'.calls|
    ensures Agrees(View(s'.calls[|s.calls|..]), s'.announcements)
  {
    hide View, Agrees, Proper, Lists;
    var order :| Leads(lib, endings, s, SetAnnounce(true), order, s');
    AllNotesAgree(s.announcements, order, s.announcements.Keys);
    assert Restrict(s.announcements, s.announcements.Keys) == s.announcements;
    assert s'.calls[|s.calls|..] == AnnounceNotes(order, s.announcements);
  }

  // ---------------------------------------------------------------- no repetitions

  /** A message is announced exactly if it is accepted and the client does not know it yet. */
  lemma AnnouncesExactlyNews(lib: CLibrary, endings: seq<Ending>, s: State, action: Action, s': State, earlier: nat)
    requires Follows(lib, endings, s, action, s') && action.Receive? && s.announceCb
    requires Announces(lib, action).Some? ==> ColonFree(Announces(lib, action).value.0)
    requires earlier <= |s.calls| && Agrees(View(s.calls[earlier..]), s.announcements)
    ensures var view := View(s.calls[earlier..]);
            |s.calls| < |s'.calls| && s'.calls[|s.calls|].Announced? <==>
              && Announces(lib, action).Some?
              && !(Announces(lib, action).value.0 in view && view[Announces(lib, action).value.0] == action.message)
    ensures |s.calls| < |s'.calls| && s'.calls[|s.calls|].Announced? ==>
              s'.calls[|s.calls|] == Announced(Announces(lib, action).value.0, action.message)
  {
    hide View, KeyOf, ColonFree, Judge;
  }

  /** What was announced last is what the view shows. */
  lemma {:induction false} ViewRemembers(calls: seq<Call>, a: nat, p: Path, message: string)
    requires a < |calls| && calls[a] == Announced(p, message)
    requires forall c :: a < c < |calls| ==>
               calls[c] != Expired(p)
                   && (calls[c].Announced? && calls[c].path == p ==> calls[c].announcement == message)
    ensures p in View(calls) && View(calls)[p] == message
    decreases |calls|
  {
    if a < |calls| - 1 {
      ViewRemembers(calls[..|calls| - 1], a, p, message);
    }
  }

  /** Between two announcements of the same message for a path it expired or announced something else. */
  lemma NoRepetition(lib: CLibrary, endings: seq<Ending>, states: seq<State>, actions: seq<Action>, i: nat, n: nat,
                     a: nat)
    requires IsRun(lib, endings, states, actions) && ColonFreeNames(lib, actions) && i < n < |actions|
    requires states[i].expireCb && actions[i] == SetAnnounce(true)
    requires forall k :: i < k < n ==> KeepsCallbacks(actions[k])
    requires actions[n].Receive? && |states[n].calls| < |states[n + 1].calls|
    requires |states[i].calls| <= a < |states[n].calls| && states[n].calls[a].Announced?
    requires states[n + 1].calls[|states[n].calls|] == states[n].calls[a]
    ensures var p, message := states[n].calls[a].path, states[n].calls[a].announcement;
            exists c :: a < c < |states[n].calls| &&
              (states[n].calls[c] == Expired(p)
               || (states[n].calls[c].Announced? && states[n].calls[c].path == p
                   && states[n].calls[c].announcement != message))
  {
    hide View, Agrees, ColonFree, Announces, Leads;
    var s, earlier := states[n], |states[i].calls|;
    ClientKnowsTheTable(lib, endings, states, actions, i, n);
    AnnouncesExactlyNews(lib, endings, s, actions[n], states[n + 1], earlier);
    var p, message := s.calls[a].path, s.calls[a].announcement;
    if forall c :: a < c < |s.calls| ==>
        s.calls[c] != Expired(p)
            && (s.calls[c].Announced? && s.calls[c].path == p ==> s.calls[c].announcement == message) {
      forall c | a - earlier < c < |s.calls[earlier..]| ensures s.calls[earlier..][c] == s.calls[earlier + c] {
      }
      ViewRemembers(s.calls[earlier..], a - earlier, p, message);
    }
  }

  // ---------------------------------------------------------------- names with colons

  function Colons(s: string): nat {
    if s == "" then 0 else Colons(s[..|s| - 1]) + if s[|s| - 1] == ':' then 1 else 0
  }

  lemma {:induction false} ColonsAppend(a: string, b: string)
    ensures Colons(a + b) == Colons(a) + Colons(b)
  {
    if b == "" {
      assert a + b == a;
    } else {
      ColonsAppend(a, b[..|b| - 1]);
      assert (a + b)[..|a + b| - 1] == a + b[..|b| - 1];
    }
  }

  lemma {:induction false} NoColons(s: string)
    ensures Colons(s) == 0 <==> ':' !in s
  {
    if s != "" {
      NoColons(s[..|s| - 1]);
      assert s == s[..|s| - 1] + [s[|s| - 1]];
    }
  }

  lemma ColonsOfKey(p: Path)
    ensures Colons(KeyOf(p))
            == 3 + Colons(p.receivingInterface) + Colons(p.sendingInterface) + Colons(p.uuid) + Colons(p.router)
  {
    hide Colons;
    var a, b, c := p.receivingInterface, p.sendingInterface, p.uuid;
    OneColon();
    ColonsAppend(a, ":");
    ColonsAppend(a + ":", b);
    ColonsAppend(a + ":" + b, ":");
    ColonsAppend(a + ":" + b + ":", c);
    ColonsAppend(a + ":" + b + ":" + c, ":");
    ColonsAppend(a + ":" + b + ":" + c + ":", p.router);
  }

  lemma OneColon()
    ensures Colons(":") == 1
  {
    assert ":"[..0] == "";
  }

  /** The client hears of an expired device exactly if none of its names holds a colon. */
  lemma ExpireNoteIff(p: Path)
    ensures ExpireNote(KeyOf(p)) == if ColonFree(p) then [Expired(p)] else []
  {
    hide KeyOf, Colons;
    PathRoundTrip(p);
    if PathOf(KeyOf(p)).Some? {
      var q := PathOf(KeyOf(p)).value;
      PathOfKey(KeyOf(p), q);
      ColonsOfKey(p);
      ColonsOfKey(q);
      NoColons(p.receivingInterface);
      NoColons(p.sendingInterface);
      NoColons(p.uuid);
      NoColons(p.router);
      NoColons(q.receivingInterface);
      NoColons(q.sendingInterface);
      NoColons(q.uuid);
      NoColons(q.router);
    }
  }

  /** A new client is told of a device in the table exactly if none of its names holds a colon. */
  lemma AnnounceNoteIff(p: Path, table: map<string, ExpiringEntry>)
    requires KeyOf(p) in table
    ensures AnnounceNote(KeyOf(p), table) == if ColonFree(p) then [Announced(p, table[KeyOf(p)].announcement)] else []
  {
    hide KeyOf, PathOf, ColonFree;
    ExpireNoteIff(p);
    PathRoundTrip(p);
  }

  lemma {:induction false} ExpireNotesKeep(calls: seq<Call>, order: seq<string>, p: Path)
    requires !ColonFree(p) && p in View(calls)
    ensures p in View(calls + ExpireNotes(order))
  {
    hide View, PathOf, ColonFree;
    if order == [] {
      assert calls + [] == calls;
    } else {
      var before, key := order[..|order| - 1], order[|order| - 1];
      ExpireNotesKeep(calls, before, p);
      if PathOf(key).Some? {
        var q := PathOf(key).value;
        PathOfKey(key, q);
        ViewOneMore(calls + ExpireNotes(before), Expired(q));
        assert calls + (ExpireNotes(before) + [Expired(q)]) == calls + ExpireNotes(before) + [Expired(q)];
      } else {
        assert calls + (ExpireNotes(before) + []) == calls + ExpireNotes(before);
      }
    }
  }

  /** A device with a colon in a name that expires leaves the table, but the client goes on to see it. */
  lemma ColonDeviceStaysVisible(lib: CLibrary, endings: seq<Ending>, s: State, now: int, s': State, p: Path,
                                earlier: nat)
    requires Follows(lib, endings, s, Sweep(now), s') && !ColonFree(p)
    requires earlier <= |s.calls| && p in View(s.calls[earlier..])
    requires KeyOf(p) in s.announcements && s.announcements[KeyOf(p)].timeOfExpiry < now
    ensures KeyOf(p) !in s'.announcements && p in View(s'.calls[earlier..])
  {
    hide View, ColonFree, KeyOf, PathOf, Lists, ExpireNotes, AnnounceNotes, AfterReceive;
    var order :| Leads(lib, endings, s, Sweep(now), order, s');
    if s.expireCb {
      ExpireNotesKeep(s.calls[earlier..], order, p);
      assert s'.calls[earlier..] == s.calls[earlier..] + ExpireNotes(order);
    } else {
      assert s'.calls[earlier..] == s.calls[earlier..];
    }
  }
}
