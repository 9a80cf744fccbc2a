/**
 Whole runs of the device monitor: what the table holds at any time, when devices expire, and
 that a client that only listens to the callbacks knows the table.
 */
module DeviceMonitorRuns {
  import opened DeviceMonitors
  import opened JsonParser
  import opened Wrappers

  const START: State := State(map[], false, false, false, [])

  ghost predicate Follows(lib: CLibrary, endings: seq<Ending>, s: State, action: Action, s': State) {
    exists order :: Leads(lib, endings, s, action, order, s')
  }

  /** States that follow one another by the given actions. */
  ghost predicate IsRun(lib: CLibrary, endings: seq<Ending>, states: seq<State>, actions: seq<Action>) {
    && |states| == |actions| + 1 && states[0] == START
    && forall n :: 0 <= n < |actions| ==> Follows(lib, endings, states[n], actions[n], states[n + 1])
  }

  // ---------------------------------------------------------------- the table is determined by the history

  /** The path and the entry that an arriving message sets, if it is accepted. */
  function Announces(lib: CLibrary, action: Action): Option<(Path, ExpiringEntry)> {
    match action
    case Receive(receivingInterface, message, now) =>
      (match Judge(lib, message)
       case Accepted(a) => Some((PathIn(receivingInterface, a), ExpiringEntry(message, now + a.expiration * SECOND)))
       case Dropped(_, _) => None)
    case _ => None
  }

  predicate AnnouncesKey(lib: CLibrary, action: Action, key: string) {
    var a := Announces(lib, action);
    a.Some? && KeyOf(a.value.0) == key
  }

  /**
   What the actions so far leave of a key: the last accepted announcement, unless a later sweep came after
   its expiry.
   */
  function Known(lib: CLibrary, actions: seq<Action>, key: string): Option<ExpiringEntry> {
    if actions == [] then None
    else
      var before := Known(lib, actions[..|actions| - 1], key);
      var last := actions[|actions| - 1];
      if AnnouncesKey(lib, last, key) then Some(Announces(lib, last).value.1)
      else if last.Sweep? && before.Some? && before.value.timeOfExpiry < last.now then None
      else before
  }

  function EntryOf(s: State, key: string): Option<ExpiringEntry> {
    if key in s.announcements then Some(s.announcements[key]) else None
  }

  /** One step of the table at one key */
  lemma StepOfEntry(lib: CLibrary, endings: seq<Ending>, s: State, action: Action, s': State, key: string)
    requires Follows(lib, endings, s, action, s')
    ensures EntryOf(s', key) ==
              if AnnouncesKey(lib, action, key) then Some(Announces(lib, action).value.1)
              else if action.Sweep? && EntryOf(s, key).Some?
                  && EntryOf(s, key).value.timeOfExpiry < action.now then None
              else EntryOf(s, key)
  {
    hide Judge, KeyOf, Lists, AnnounceNotes, ExpireNotes, News, ThrownCall;
  }

  /** At any time of any run the table holds exactly the announcements that are due. */
  lemma {:induction false} TableIsHistory(lib: CLibrary, endings: seq<Ending>, states: seq<State>,
                                          actions: seq<Action>, n: nat, key: string)
    requires IsRun(lib, endings, states, actions) && n < |states|
    ensures EntryOf(states[n], key) == Known(lib, actions[..n], key)
  {
    hide Follows, Announces, AnnouncesKey, KeyOf;
    if n > 0 {
      TableIsHistory(lib, endings, states, actions, n - 1, key);
      StepOfEntry(lib, endings, states[n - 1], actions[n - 1], states[n], key);
      assert actions[..n][..n - 1] == actions[..n - 1];
    } else {
      assert actions[..0] == [];
    }
  }

  /** The last accepted announcement of a key */
  function LastAnnounced(lib: CLibrary, actions: seq<Action>, key: string): (r: Option<nat>)
    ensures r.Some? ==> r.value < |actions| && AnnouncesKey(lib, actions[r.value], key)
  {
    if actions == [] then None
    else if AnnouncesKey(lib, actions[|actions| - 1], key) then Some(|actions| - 1)
    else LastAnnounced(lib, actions[..|actions| - 1], key)
  }

  lemma {:induction false} KnownIsLastAnnounced(lib: CLibrary, actions: seq<Action>, key: string)
    ensures var last := LastAnnounced(lib, actions, key);
            Known(lib, actions, key).Some? ==>
                last.Some? && Known(lib, actions, key) == Some(Announces(lib, actions[last.value]).value.1)
  {
    hide Announces, AnnouncesKey;
    if actions != [] {
      KnownIsLastAnnounced(lib, actions[..|actions| - 1], key);
    }
  }

  /**
   Every entry is what the last accepted announcement of its key set: the message, and its arrival plus its
   expiration.
   */
  lemma EntryIsLastAnnounced(lib: CLibrary, endings: seq<Ending>, states: seq<State>, actions: seq<Action>, n: nat,
                             key: string)
    requires IsRun(lib, endings, states, actions) && n < |states| && key in states[n].announcements
    ensures var last := LastAnnounced(lib, actions[..n], key);
            && last.Some? && last.value < n
            && states[n].announcements[key] == Announces(lib, actions[last.value]).value.1
  {
    hide Known, Announces, AnnouncesKey, Follows;
    TableIsHistory(lib, endings, states, actions, n, key);
    KnownIsLastAnnounced(lib, actions[..n], key);
  }

  // ---------------------------------------------------------------- expiry

  predicate HasTime(action: Action) {
    action.Receive? || action.Sweep?
  }

  /** The clock is steady. */
  ghost predicate Steady(actions: seq<Action>) {
    forall i, j :: 0 <= i < j < |actions| && HasTime(actions[i]) && HasTime(actions[j]) ==>
        actions[i].now <= actions[j].now
  }

  function ExpiryOf(lib: CLibrary, action: Action): int
    requires Announces(lib, action).Some?
  {
    Announces(lib, action).value.1.timeOfExpiry
  }

  /** What was announced by action `j` is announced again before it expires, or the run is over by then. */
  ghost predicate Renews(lib: CLibrary, actions: seq<Action>, key: string, j: nat)
    requires j < |actions| && Announces(lib, actions[j]).Some?
  {
    var expiry := ExpiryOf(lib, actions[j]);
    || (exists m :: j < m < |actions| && AnnouncesKey(lib, actions[m], key) && actions[m].now <= expiry)
    || (forall k :: j < k < |actions| && HasTime(actions[k]) ==> actions[k].now <= expiry)
  }

  ghost predicate KeepsAnnouncing(lib: CLibrary, actions: seq<Action>, key: string, start: nat) {
    forall j :: start <= j < |actions| && AnnouncesKey(lib, actions[j], key) ==> Renews(lib, actions, key, j)
  }

  lemma {:induction false} LastAnnouncedIsLast(lib: CLibrary, actions: seq<Action>, key: string, i: nat)
    requires i < |actions| && AnnouncesKey(lib, actions[i], key)
    ensures var last := LastAnnounced(lib, actions, key);
            last.Some? && i <= last.value && forall m :: last.value < m < |actions| ==>
                !AnnouncesKey(lib, actions[m], key)
  {
    hide Announces, AnnouncesKey;
    if !AnnouncesKey(lib, actions[|actions| - 1], key) {
      var before := actions[..|actions| - 1];
      LastAnnouncedIsLast(lib, before, key, i);
      forall m | LastAnnounced(lib, before, key).value < m < |actions| ensures !AnnouncesKey(lib, actions[m], key) {
        assert m < |before| ==> actions[m] == before[m];
      }
    }
  }

  lemma RenewedInTime(lib: CLibrary, actions: seq<Action>, key: string, j: nat, k: nat)
    requires Steady(actions) && j < k < |actions| && actions[k].Sweep? && Announces(lib, actions[j]).Some?
    requires Renews(lib, actions, key, j) && forall m :: j < m < k ==> !AnnouncesKey(lib, actions[m], key)
    ensures actions[k].now <= ExpiryOf(lib, actions[j])
  {
    hide KeyOf, Judge;
    var expiry := ExpiryOf(lib, actions[j]);
    if m :| j < m < |actions| && AnnouncesKey(lib, actions[m], key) && actions[m].now <= expiry {
      assert k < m;
    }
  }

  /** A sweep never comes after the expiry of the announcement that it meets. */
  lemma SweepIsInTime(lib: CLibrary, actions: seq<Action>, key: string, i: nat, k: nat)
    requires Steady(actions) && i < k < |actions| && AnnouncesKey(lib, actions[i], key) && actions[k].Sweep?
    requires KeepsAnnouncing(lib, actions, key, i)
    ensures var last := LastAnnounced(lib, actions[..k], key);
            last.Some? && i <= last.value < k && actions[k].now <= ExpiryOf(lib, actions[last.value])
  {
    hide Announces, LastAnnounced, Renews, Steady;
    LastAnnouncedIsLast(lib, actions[..k], key, i);
    var last := LastAnnounced(lib, actions[..k], key).value;
    forall m | last < m < k ensures !AnnouncesKey(lib, actions[m], key) {
      assert actions[..k][m] == actions[m];
    }
    assert actions[..k][last] == actions[last];
    RenewedInTime(lib, actions, key, last, k);
  }

  /** A device that announces itself again within its interval stays in the table at all times. */
  lemma {:induction false} AnnouncingDeviceStays(lib: CLibrary, endings: seq<Ending>, states: seq<State>,
                                                 actions: seq<Action>, key: string, i: nat, n: nat)
    requires IsRun(lib, endings, states, actions) && Steady(actions) && i < n < |states|
    requires AnnouncesKey(lib, actions[i], key) && KeepsAnnouncing(lib, actions, key, i)
    ensures key in states[n].announcements
    decreases n
  {
    hide Announces, AnnouncesKey, Follows, Steady, KeepsAnnouncing;
    StepOfEntry(lib, endings, states[n - 1], actions[n - 1], states[n], key);
    if i < n - 1 {
      AnnouncingDeviceStays(lib, endings, states, actions, key, i, n - 1);
      if actions[n - 1].Sweep? {
        SweepIsInTime(lib, actions, key, i, n - 1);
        EntryIsLastAnnounced(lib, endings, states, actions, n - 1, key);
      }
    }
  }

  /** The time of the last sweep; before the first one, that of the start. */
  function LastSweep(actions: seq<Action>, start: int): int {
    if actions == [] then start
    else if actions[|actions| - 1].Sweep? then actions[|actions| - 1].now
    else LastSweep(actions[..|actions| - 1], start)
  }

  lemma {:induction false} LastSweepIsPast(actions: seq<Action>, start: int, now: int)
    requires start <= now && forall i :: 0 <= i < |actions| && actions[i].Sweep? ==> actions[i].now <= now
    ensures LastSweep(actions, start) <= now
  {
    if actions != [] && !actions[|actions| - 1].Sweep? {
      LastSweepIsPast(actions[..|actions| - 1], start, now);
    }
  }

  /** No entry was due before the last sweep. */
  lemma {:induction false} SweptEntries(lib: CLibrary, actions: seq<Action>, start: int, key: string)
    requires Steady(actions) && forall i :: 0 <= i < |actions| && HasTime(actions[i]) ==> start <= actions[i].now
    ensures Known(lib, actions, key).Some? ==> LastSweep(actions, start) <= Known(lib, actions, key).value.timeOfExpiry
  {
    hide Judge, KeyOf;
    if actions != [] {
      var before, last := actions[..|actions| - 1], actions[|actions| - 1];
      forall i, j | 0 <= i < j < |before| && HasTime(before[i]) && HasTime(before[j])
        ensures before[i].now <= before[j].now
      {
        assert before[i] == actions[i] && before[j] == actions[j];
      }
      SweptEntries(lib, before, start, key);
      if last.Receive? {
        LastSweepIsPast(before, start, last.now);
      }
    }
  }

  /** With sweeps at most `period` apart no entry outlives its expiry by more than that. */
  lemma NothingOutlivesExpiry(lib: CLibrary, endings: seq<Ending>, states: seq<State>, actions: seq<Action>,
                              start: int, period: int, now: int, n: nat, key: string)
    requires IsRun(lib, endings, states, actions) && Steady(actions) && n < |states| && key in states[n].announcements
    requires forall i :: 0 <= i < |actions| && HasTime(actions[i]) ==> start <= actions[i].now
    requires now - LastSweep(actions[..n], start) <= period
    ensures now <= states[n].announcements[key].timeOfExpiry + period
  {
    var past := actions[..n];
    TableIsHistory(lib, endings, states, actions, n, key);
    assert Steady(past);
    SweptEntries(lib, past, start, key);
  }
}
