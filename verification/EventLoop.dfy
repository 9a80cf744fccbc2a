/**
 The Linux event loop: requests to add or erase a descriptor are queued in a change list, an
 eventfd counter announces them, and the loop applies them when it handles the announcement.
 Handlers are foreign code; a script says what each call returns and requests.
 */
module EventLoops {
  import opened Wrappers

  /** A non-empty callback, known by a number. */
  type Handler = nat

  /** An empty handler stands for a removal. */
  datatype EventInfo = EventInfo(fd: int, eventHandler: Option<Handler>)

  datatype Request = Add(fd: int, eventHandler: Option<Handler>) | Erase(fd: int)

  /** What one call of a handler does: the requests it makes and the value it returns. */
  datatype Reply = Reply(result: int, requests: seq<Request>)

  /** The largest value an eventfd holds; a further write fails. */
  const MAX_COUNTER: nat := 0xFFFF_FFFF_FFFF_FFFE

  /** `read` of an eventfd gives eight bytes. */
  const READ_SIZE: int := 8

  /** After the script every call returns 0 and requests nothing. */
  function ReplyAt(script: seq<Reply>, n: nat): Reply {
    if n < |script| then script[n] else Reply(0, [])
  }

  /** What a request adds to the change list; adding an empty handler does nothing. */
  function Queued(r: Request): seq<EventInfo> {
    match r
    case Add(fd, None) => []
    case Add(fd, Some(h)) => [EventInfo(fd, Some(h))]
    case Erase(fd) => [EventInfo(fd, None)]
  }

  function QueuedAll(rs: seq<Request>): seq<EventInfo> {
    if rs == [] then [] else QueuedAll(rs[..|rs| - 1]) + Queued(rs[|rs| - 1])
  }

  /** Everything that is queued by the calls from number `a` up to `b`. */
  function QueuedBetween(script: seq<Reply>, a: nat, b: nat): seq<EventInfo>
    requires a <= b
    decreases b
  {
    if a == b then [] else QueuedBetween(script, a, b - 1) + QueuedAll(ReplyAt(script, b - 1).requests)
  }

  // ---------------------------------------------------------------- last writer wins

  function Apply(infos: map<int, Handler>, change: EventInfo): map<int, Handler> {
    match change.eventHandler
    case Some(h) => (infos - {change.fd})[change.fd := h]
    case None => infos - {change.fd}
  }

  /** The handlers after a list of changes. */
  function ApplyAll(infos: map<int, Handler>, changes: seq<EventInfo>): map<int, Handler> {
    if changes == [] then infos else Apply(ApplyAll(infos, changes[..|changes| - 1]), changes[|changes| - 1])
  }

  /** The last change of a descriptor. */
  function LastChange(changes: seq<EventInfo>, fd: int): Option<EventInfo> {
    if changes == [] then None
    else if changes[|changes| - 1].fd == fd then Some(changes[|changes| - 1])
    else LastChange(changes[..|changes| - 1], fd)
  }

  /** The last change of a descriptor alone says which handler it has. */
  lemma {:induction false} LastWriterWins(infos: map<int, Handler>, changes: seq<EventInfo>, fd: int)
    ensures var after, last := ApplyAll(infos, changes), LastChange(changes, fd);
            && (fd in after <==> if last.Some? then last.value.eventHandler.Some? else fd in infos)
            && (fd in after ==> after[fd] == if last.Some? then last.value.eventHandler.value else infos[fd])
  {
    if changes != [] {
      LastWriterWins(infos, changes[..|changes| - 1], fd);
    }
  }

  lemma {:induction false} ApplyAllAppend(infos: map<int, Handler>, a: seq<EventInfo>, b: seq<EventInfo>)
    ensures ApplyAll(infos, a + b) == ApplyAll(ApplyAll(infos, a), b)
  {
    if b == [] {
      assert a + b == a;
    } else {
      ApplyAllAppend(infos, a, b[..|b| - 1]);
      assert (a + b)[..|a + b| - 1] == a + b[..|b| - 1];
    }
  }

  lemma ApplyAllOne(infos: map<int, Handler>, change: EventInfo)
    ensures ApplyAll(infos, [change]) == Apply(infos, change)
  {
    assert [change][..0] == [];
    assert ApplyAll(infos, []) == infos;
  }

  // ---------------------------------------------------------------- calls

  /** How many calls it takes from call number `n` on until a handler returns no positive value. */
  function DrainCount(script: seq<Reply>, n: nat): nat
    decreases |script| - n
  {
    if ReplyAt(script, n).result > 0 then 1 + DrainCount(script, n + 1) else 1
  }

  /** A drained handler was called up to its first value that is not positive, and no further. */
  lemma {:induction false} DrainStopsFirst(script: seq<Reply>, n: nat)
    ensures DrainCount(script, n) > 0 && ReplyAt(script, n + DrainCount(script, n) - 1).result <= 0
    ensures forall j :: n <= j < n + DrainCount(script, n) - 1 ==> ReplyAt(script, j).result > 0
    decreases |script| - n
  {
    if ReplyAt(script, n).result > 0 {
      DrainStopsFirst(script, n + 1);
    }
  }

  /** One call at least of a handler, until it returns a value that is not positive, and no other call */
  ghost predicate IsDrained(script: seq<Reply>, info: EventInfo, before: seq<EventInfo>, after: seq<EventInfo>) {
    && |before| < |after| && before == after[..|before|]
    && (forall n :: |before| <= n < |after| ==> after[n] == info)
    && (forall n :: |before| <= n < |after| - 1 ==> ReplyAt(script, n).result > 0)
    && ReplyAt(script, |after| - 1).result <= 0
  }

  function Repeat(info: EventInfo, k: nat): (r: seq<EventInfo>)
    ensures |r| == k
  {
    if k == 0 then [] else Repeat(info, k - 1) + [info]
  }

  /** The calls that a list of changes makes from call number `n` on: each added handler until it is drained. */
  function Drains(changes: seq<EventInfo>, script: seq<Reply>, n: nat): seq<EventInfo> {
    if changes == [] then []
    else
      var before := Drains(changes[..|changes| - 1], script, n);
      before + DrainsOne(changes[|changes| - 1], script, n + |before|)
  }

  /** The calls that one change makes */
  function DrainsOne(change: EventInfo, script: seq<Reply>, n: nat): seq<EventInfo> {
    if change.eventHandler.None? then [] else Repeat(change, DrainCount(script, n))
  }

  /** The requests that the script still holds. */
  function RequestsLeft(script: seq<Reply>, n: nat): nat
    decreases |script| - n
  {
    if n < |script| then |QueuedAll(script[n].requests)| + RequestsLeft(script, n + 1) else 0
  }

  lemma RequestsLeftStep(script: seq<Reply>, n: nat)
    ensures RequestsLeft(script, n) == |QueuedAll(ReplyAt(script, n).requests)| + RequestsLeft(script, n + 1)
  {
    assert QueuedAll([]) == [];
  }

  lemma NothingYet(info: EventInfo, script: seq<Reply>, n: nat)
    ensures Repeat(info, 0) == [] && QueuedBetween(script, n, n) == []
  {
  }

  lemma RepeatStep(info: EventInfo, k: nat)
    ensures Repeat(info, k + 1) == Repeat(info, k) + [info]
  {
  }

  lemma DrainCountStep(script: seq<Reply>, n: nat)
    ensures DrainCount(script, n) == if ReplyAt(script, n).result > 0 then 1 + DrainCount(script, n + 1) else 1
    ensures ReplyAt(script, n).result > 0 ==> n < |script|
  {
  }

  lemma QueuedBetweenStep(script: seq<Reply>, a: nat, b: nat)
    requires a <= b
    ensures QueuedBetween(script, a, b + 1) == QueuedBetween(script, a, b) + QueuedAll(ReplyAt(script, b).requests)
  {
  }

  lemma NoChanges(infos: map<int, Handler>, script: seq<Reply>, n: nat)
    ensures ApplyAll(infos, []) == infos && Drains([], script, n) == []
  {
  }

  /** Where an event comes from: the stop notification, the change notification or a watched descriptor. */
  datatype Source = StopFd | ChangeFd | User(fd: int)

  /** An event as `epoll_wait` reports it: hang up or error, else readable. */
  datatype Entry = Entry(source: Source, hangup: bool)

  /** What one `epoll_wait` returns. */
  datatype Wait = Interrupted | Failed | TimedOut | Events(events: seq<Entry>)

  predicate IsStop(entry: Entry) {
    entry.source.StopFd? && !entry.hangup
  }

  predicate HasStop(events: seq<Entry>) {
    exists n :: 0 <= n < |events| && IsStop(events[n])
  }

  /** The value with which the loop is left, if it is left at all. */
  function ExitOf(waits: seq<Wait>): Option<int> {
    if waits == [] then None
    else
      match waits[0]
      case Failed => Some(-1)
      case TimedOut => Some(0)
      case Interrupted => ExitOf(waits[1..])
      case Events(events) => if HasStop(events) then Some(0) else ExitOf(waits[1..])
  }

  /** The events before the first stop notification */
  function BeforeStop(events: seq<Entry>): seq<Entry> {
    if events == [] || IsStop(events[0]) then [] else [events[0]] + BeforeStop(events[1..])
  }

  /** The events that are handled before the loop is left */
  function EventsBeforeExit(waits: seq<Wait>): seq<Entry> {
    if waits == [] then []
    else
      match waits[0]
      case Failed => []
      case TimedOut => []
      case Interrupted => EventsBeforeExit(waits[1..])
      case Events(events) =>
        if HasStop(events) then BeforeStop(events) else BeforeStop(events) + EventsBeforeExit(waits[1..])
  }

  /** The handled events of a batch are those in front of the first stop notification. */
  lemma {:induction false} BeforeStopIs(events: seq<Entry>)
    ensures var k := |BeforeStop(events)|;
            && k <= |events| && BeforeStop(events) == events[..k]
            && (forall m :: 0 <= m < k ==> events[m] != Entry(StopFd, false))
            && (k < |events| ==> events[k] == Entry(StopFd, false))
    ensures HasStop(events) <==> |BeforeStop(events)| < |events|
  {
    if events != [] && !IsStop(events[0]) {
      BeforeStopIs(events[1..]);
      assert events == [events[0]] + events[1..];
      var k := |BeforeStop(events[1..])|;
      assert events[..k + 1] == [events[0]] + events[1..][..k];
      if k < |events[1..]| {
        assert IsStop(events[k + 1]);
      }
    }
  }

  /** A wait after which the loop goes on */
  predicate GoesOn(wait: Wait) {
    match wait
    case Interrupted => true
    case Events(events) => Entry(StopFd, false) !in events
    case _ => false
  }

  /** The value of a wait after which the loop is left */
  function ExitValue(wait: Wait): int {
    if wait.Failed? then -1 else 0
  }

  lemma HasStopIff(events: seq<Entry>)
    ensures HasStop(events) <==> Entry(StopFd, false) in events
  {
    if HasStop(events) {
      var n :| 0 <= n < |events| && IsStop(events[n]);
      assert events[n] == Entry(StopFd, false);
    }
  }

  /** The loop is left at the first wait that does not let it go on, -1 telling a failure and 0 all else. */
  lemma {:induction false} ExitIff(waits: seq<Wait>, r: int)
    ensures ExitOf(waits) == Some(r) <==>
              exists n :: 0 <= n < |waits| && (forall m :: 0 <= m < n ==> GoesOn(waits[m]))
                          && !GoesOn(waits[n]) && r == ExitValue(waits[n])
  {
    if waits != [] {
      var rest := waits[1..];
      if waits[0].Events? {
        HasStopIff(waits[0].events);
      }
      if GoesOn(waits[0]) {
        ExitIff(rest, r);
        forall n | 0 <= n < |rest| && (forall m :: 0 <= m < n ==> GoesOn(rest[m])) && !GoesOn(rest[n])
          ensures !GoesOn(waits[n + 1]) && forall m :: 0 <= m < n + 1 ==> GoesOn(waits[m])
        {
          assert rest[n] == waits[n + 1];
          forall m | 0 <= m < n + 1 ensures GoesOn(waits[m]) {
            assert m > 0 ==> waits[m] == rest[m - 1];
          }
        }
        forall n | 0 <= n < |waits| && (forall m :: 0 <= m < n ==> GoesOn(waits[m])) && !GoesOn(waits[n])
          ensures n > 0 && !GoesOn(rest[n - 1]) && forall m :: 0 <= m < n - 1 ==> GoesOn(rest[m])
        {
          assert n > 0;
          assert rest[n - 1] == waits[n];
        }
      } else {
        assert !GoesOn(waits[0]) && r == ExitValue(waits[0]) <==> ExitOf(waits) == Some(r);
      }
    }
  }

  function EventsOf(wait: Wait): seq<Entry> {
    if wait.Events? then wait.events else []
  }

  /** The events of all waits, one after the other */
  function AllEvents(waits: seq<Wait>): seq<Entry> {
    if waits == [] then [] else EventsOf(waits[0]) + AllEvents(waits[1..])
  }

  lemma FirstWait(waits: seq<Wait>)
    requires waits != []
    ensures EventsBeforeExit(waits) == if GoesOn(waits[0]) then EventsOf(waits[0]) + EventsBeforeExit(waits[1..])
                                       else BeforeStop(EventsOf(waits[0]))
  {
    if waits[0].Events? {
      var events := waits[0].events;
      HasStopIff(events);
      BeforeStopIs(events);
      hide BeforeStop, HasStop;
      assert events[..|events|] == events;
    } else {
      assert [] + EventsBeforeExit(waits[1..]) == EventsBeforeExit(waits[1..]);
    }
  }

  /** Up to a wait after which the loop is left all events are handled, and of that those in front of the stop. */
  lemma {:induction false} HandledUpTo(waits: seq<Wait>, n: nat)
    requires n <= |waits| && forall m :: 0 <= m < n ==> GoesOn(waits[m])
    ensures n == |waits| ==> EventsBeforeExit(waits) == AllEvents(waits)
    ensures n < |waits| && !GoesOn(waits[n]) ==>
              EventsBeforeExit(waits) == AllEvents(waits[..n]) + BeforeStop(EventsOf(waits[n]))
  {
    hide EventsBeforeExit, GoesOn, EventsOf, BeforeStop;
    if waits == [] {
      NoWaits();
    } else {
      FirstWait(waits);
      if n > 0 {
        var rest := waits[1..];
        assert GoesOn(waits[0]);
        forall m | 0 <= m < n - 1 ensures GoesOn(rest[m]) {
          assert rest[m] == waits[m + 1];
        }
        HandledUpTo(rest, n - 1);
        assert waits[..n][1..] == rest[..n - 1];
        if n < |waits| {
          assert rest[n - 1] == waits[n];
          var x, y := AllEvents(rest[..n - 1]), BeforeStop(EventsOf(waits[n]));
          assert EventsOf(waits[0]) + (x + y) == EventsOf(waits[0]) + x + y;
        }
      } else {
        assert AllEvents(waits[..0]) == [];
        assert [] + BeforeStop(EventsOf(waits[n])) == BeforeStop(EventsOf(waits[n]));
      }
    }
  }

  lemma NoWaits()
    ensures EventsBeforeExit([]) == [] && AllEvents([]) == []
  {
  }

  /** What handling an event can change and can see of the loop */
  datatype Loop = Loop(
    eventInfos: map<int, Handler>,
    changeList: seq<EventInfo>,
    calls: seq<EventInfo>,
    changeWatched: bool)     // whether epoll watches the change notification

  /** No change removes the change notification itself. */
  predicate SparesChangeFd(changes: seq<EventInfo>, changeFd: int) {
    forall n :: 0 <= n < |changes| ==> changes[n].fd != changeFd
  }

  lemma DrainsLast(changes: seq<EventInfo>, last: EventInfo, script: seq<Reply>, n: nat)
    ensures var before := Drains(changes, script, n);
            Drains(changes + [last], script, n) == before + DrainsOne(last, script, n + |before|)
  {
    hide DrainsOne;
    assert (changes + [last])[..|changes|] == changes;
  }

  lemma SplitLast(a: seq<EventInfo>, b: seq<EventInfo>)
    ensures if b == [] then a + b == a
            else a + b == a + b[..|b| - 1] + [b[|b| - 1]] && b == b[..|b| - 1] + [b[|b| - 1]]
  {
  }

  lemma {:induction false} DrainsAppend(a: seq<EventInfo>, b: seq<EventInfo>, script: seq<Reply>, n: nat)
    ensures Drains(a + b, script, n) == Drains(a, script, n) + Drains(b, script, n + |Drains(a, script, n)|)
  {
    hide Drains, DrainsOne;
    SplitLast(a, b);
    var d := Drains(a, script, n);
    if b == [] {
      NoChanges(map[], script, n + |d|);
    } else {
      var before, last := b[..|b| - 1], b[|b| - 1];
      var e := Drains(before, script, n + |d|);
      DrainsAppend(a, before, script, n);
      DrainsLast(a + before, last, script, n);
      DrainsLast(before, last, script, n + |d|);
      assert d + e + DrainsOne(last, script, n + |d| + |e|) == d + (e + DrainsOne(last, script, n + |d| + |e|));
    }
  }

  lemma SparesAppend(a: seq<EventInfo>, b: seq<EventInfo>, changeFd: int)
    ensures SparesChangeFd(a + b, changeFd) <==> SparesChangeFd(a, changeFd) && SparesChangeFd(b, changeFd)
  {
    if SparesChangeFd(a + b, changeFd) {
      assert forall n :: 0 <= n < |a| ==> (a + b)[n] == a[n];
      assert forall n :: 0 <= n < |b| ==> (a + b)[|a| + n] == b[n];
    }
  }

  /** The first change is applied and the handler that it adds is drained; what is queued meanwhile is put behind. */
  function AfterChange(script: seq<Reply>, changeFd: int, s: Loop): Loop
    requires s.changeList != []
  {
    var item, n := s.changeList[0], |s.calls|;
    var calls := s.calls + DrainsOne(item, script, n);
    Loop(Apply(s.eventInfos, item), s.changeList[1..] + QueuedBetween(script, n, |calls|), calls,
         s.changeWatched && item.fd != changeFd)
  }

  /** All changes are applied one after the other, those queued meanwhile included. */
  function Settle(script: seq<Reply>, changeFd: int, s: Loop): Loop
    decreases |s.changeList| + RequestsLeft(script, |s.calls|)
  {
    if s.changeList == [] then s
    else
      RequestsLeftBetween(script, |s.calls|, |AfterChange(script, changeFd, s).calls|);
      Settle(script, changeFd, AfterChange(script, changeFd, s))
  }

  lemma {:induction false} RequestsLeftBetween(script: seq<Reply>, a: nat, b: nat)
    requires a <= b
    ensures RequestsLeft(script, a) == |QueuedBetween(script, a, b)| + RequestsLeft(script, b)
    decreases b
  {
    hide RequestsLeft, QueuedAll, ReplyAt;
    if a < b {
      RequestsLeftBetween(script, a, b - 1);
      RequestsLeftStep(script, b - 1);
      QueuedBetweenStep(script, a, b - 1);
      hide QueuedBetween;
    }
  }

  /** The handlers are the fold of the changes, and the calls are those that drain each added handler. */
  ghost predicate Folds(script: seq<Reply>, changeFd: int, s: Loop, s': Loop) {
    |s.calls| <= |s'.calls| &&
    var changes := s.changeList + QueuedBetween(script, |s.calls|, |s'.calls|);
    s' == Loop(ApplyAll(s.eventInfos, changes), [], s.calls + Drains(changes, script, |s.calls|),
               s.changeWatched && SparesChangeFd(changes, changeFd))
  }

  /** Applying the changes one after the other folds all of them, whether queued before or meanwhile. */
  lemma {:induction false} SettleFolds(script: seq<Reply>, changeFd: int, s: Loop)
    ensures Folds(script, changeFd, s, Settle(script, changeFd, s))
    decreases |s.changeList| + RequestsLeft(script, |s.calls|)
  {
    hide QueuedBetween, Drains, DrainsOne, ApplyAll, Apply, SparesChangeFd, RequestsLeft;
    if s.changeList == [] {
      NothingFolds(script, changeFd, s);
    } else {
      var s' := AfterChange(script, changeFd, s);
      RequestsLeftBetween(script, |s.calls|, |s'.calls|);
      SettleFolds(script, changeFd, s');
      FoldFirst(script, changeFd, s, Settle(script, changeFd, s'));
    }
  }

  lemma NothingFolds(script: seq<Reply>, changeFd: int, s: Loop)
    requires s.changeList == []
    ensures Folds(script, changeFd, s, s)
  {
    assert Drains([], script, |s.calls|) == [];
  }

  lemma FoldFirst(script: seq<Reply>, changeFd: int, s: Loop, s'': Loop)
    requires s.changeList != [] && Folds(script, changeFd, AfterChange(script, changeFd, s), s'')
    ensures Folds(script, changeFd, s, s'')
  {
    hide QueuedBetween, Drains, DrainsOne, ApplyAll, Apply, SparesChangeFd;
    var item, s' := s.changeList[0], AfterChange(script, changeFd, s);
    var a, b, c := |s.calls|, |s'.calls|, |s''.calls|;
    var changes' := s'.changeList + QueuedBetween(script, b, c);
    QueuedBetweenJoin(script, a, b, c, s.changeList[1..]);
    var changes := s.changeList + QueuedBetween(script, a, c);
    assert changes == [item] + changes' by {
      assert s.changeList == [item] + s.changeList[1..];
      assert [item] + s.changeList[1..] + QueuedBetween(script, a, c)
          == [item] + (s.changeList[1..] + QueuedBetween(script, a, c));
    }
    ApplyAllAppend(s.eventInfos, [item], changes');
    ApplyAllOne(s.eventInfos, item);
    DrainsAppend([item], changes', script, a);
    DrainsFirst(item, script, a);
    SparesAppend([item], changes', changeFd);
    SparesOne(item, changeFd);
  }

  lemma DrainsFirst(item: EventInfo, script: seq<Reply>, n: nat)
    ensures Drains([item], script, n) == DrainsOne(item, script, n)
  {
    hide DrainsOne;
    assert [item][..0] == [];
    assert Drains([], script, n) == [];
  }

  lemma SparesOne(item: EventInfo, changeFd: int)
    ensures SparesChangeFd([item], changeFd) <==> item.fd != changeFd
  {
    assert [item][0] == item;
  }

  /** The handler of a descriptor is called until it is drained. */
  function AfterDrain(script: seq<Reply>, s: Loop, info: EventInfo): Loop {
    var calls := s.calls + Repeat(info, DrainCount(script, |s.calls|));
    s.(changeList := s.changeList + QueuedBetween(script, |s.calls|, |calls|), calls := calls)
  }

  /** One event: a hung up descriptor is queued for removal and not read, even if it is the change notification. */
  function Handled(script: seq<Reply>, changeFd: int, s: Loop, entry: Entry): Loop {
    match entry.source
    case User(fd) =>
      if entry.hangup then s.(changeList := s.changeList + [EventInfo(fd, None)])
      else if fd in s.eventInfos then AfterDrain(script, s, EventInfo(fd, Some(s.eventInfos[fd])))
      else s
    case ChangeFd =>
      if entry.hangup then s.(changeList := s.changeList + [EventInfo(changeFd, None)])
      else Settle(script, changeFd, s)
    case StopFd => s
  }

  /** One event after the other */
  function HandledAll(script: seq<Reply>, changeFd: int, s: Loop, entries: seq<Entry>): Loop {
    if entries == [] then s
    else Handled(script, changeFd, HandledAll(script, changeFd, s, entries[..|entries| - 1]), entries[|entries| - 1])
  }

  lemma HandleOneMore(script: seq<Reply>, changeFd: int, s: Loop, entries: seq<Entry>, entry: Entry)
    ensures HandledAll(script, changeFd, s, entries + [entry])
         == Handled(script, changeFd, HandledAll(script, changeFd, s, entries), entry)
  {
    hide Handled;
    assert (entries + [entry])[..|entries|] == entries;
  }

  lemma {:induction false} HandleMore(script: seq<Reply>, changeFd: int, s: Loop, x: seq<Entry>, y: seq<Entry>)
    ensures HandledAll(script, changeFd, s, x + y)
         == HandledAll(script, changeFd, HandledAll(script, changeFd, s, x), y)
    decreases |y|
  {
    hide Handled;
    if y == [] {
      assert x + y == x;
    } else {
      HandleMore(script, changeFd, s, x, y[..|y| - 1]);
      assert (x + y)[..|x + y| - 1] == x + y[..|y| - 1];
    }
  }

  /** A hang up or error of the change notification ends with epoll not watching it any more. */
  lemma HungUpNotificationIsLost(script: seq<Reply>, changeFd: int, s: Loop)
    ensures !Settle(script, changeFd, Handled(script, changeFd, s, Entry(ChangeFd, true))).changeWatched
  {
    hide QueuedBetween, Drains, ApplyAll, Settle;
    var s' := Handled(script, changeFd, s, Entry(ChangeFd, true));
    var s'' := Settle(script, changeFd, s');
    SettleFolds(script, changeFd, s');
    assert s'.changeList[|s.changeList|].fd == changeFd;
    SparesAppend(s'.changeList, QueuedBetween(script, |s'.calls|, |s''.calls|), changeFd);
  }

  class EventLoop {
    const script: seq<Reply>
    /** Descriptors that epoll refuses to watch. */
    const refused: set<int>
    /** `m_changeFd` */
    const changeFd: int

    /** `m_changeList`, `m_eventInfos` and the value of the eventfd `m_changeFd` */
    var changeList: seq<EventInfo>
    var eventInfos: map<int, Handler>
    var counter: nat
    /** The descriptors that epoll watches */
    var interest: set<int>
    /** The handler calls so far */
    var calls: seq<EventInfo>
    /** Whether epoll watches the change notification */
    var changeWatched: bool

    /** What holds whenever no thread is inside the lock. */
    ghost predicate Valid()
      reads this
    {
      && (changeList != [] ==> counter > 0)
      && interest == eventInfos.Keys - refused
    }

    function Current(): Loop
      reads this
    {
      Loop(eventInfos, changeList, calls, changeWatched)
    }

    constructor (script: seq<Reply>, refused: set<int>, changeFd: int)
      ensures Valid() && this.script == script && this.refused == refused && this.changeFd == changeFd
      ensures Current() == Loop(map[], [], [], true) && counter == 0
    {
      this.changeFd := changeFd;
      changeWatched := true;
      this.script := script;
      this.refused := refused;
      changeList := [];
      eventInfos := map[];
      counter := 0;
      interest := {};
      calls := [];
    }

    /** A failing write leaves a counter that is positive anyway. */
    method NotifyChange()
      modifies this`counter
      ensures counter == if old(counter) < MAX_COUNTER then old(counter) + 1 else old(counter)
    {
      if counter < MAX_COUNTER {
        counter := counter + 1;
      }
    }

    method AddEvent(fd: int, eventHandler: Option<Handler>)
      modifies this`changeList, this`counter
      ensures changeList == old(changeList) + Queued(Add(fd, eventHandler))
      ensures changeList == old(changeList) + if eventHandler.Some? then [EventInfo(fd, eventHandler)] else []
      ensures if eventHandler.Some? then counter > 0 && counter >= old(counter) else counter == old(counter)
      ensures old(Valid()) ==> Valid()
    {
      if eventHandler.None? {
        return;
      }
      changeList := changeList + [EventInfo(fd, eventHandler)];
      NotifyChange();
    }

    method EraseEvent(fd: int)
      modifies this`changeList, this`counter
      ensures changeList == old(changeList) + Queued(Erase(fd)) == old(changeList) + [EventInfo(fd, None)]
      ensures counter > 0 && counter >= old(counter)
      ensures old(Valid()) ==> Valid()
    {
      changeList := changeList + [EventInfo(fd, None)];
      NotifyChange();
    }

    /** One call of a handler, with the requests that it makes while the loop is in it. */
    method Call(info: EventInfo) returns (result: int)
      modifies this`changeList, this`counter, this`calls
      ensures calls == old(calls) + [info] && result == ReplyAt(script, |old(calls)|).result
      ensures changeList == old(changeList) + QueuedAll(ReplyAt(script, |old(calls)|).requests)
      ensures counter >= old(counter)
      ensures if |changeList| > |old(changeList)| then counter > 0 else counter == old(counter)
    {
      var reply := ReplyAt(script, |calls|);
      calls := calls + [info];
      var n := 0;
      while n < |reply.requests|
        invariant 0 <= n <= |reply.requests|
        invariant changeList == old(changeList) + QueuedAll(reply.requests[..n])
        invariant calls == old(calls) + [info]
        invariant counter >= old(counter)
        invariant if |changeList| > |old(changeList)| then counter > 0 else counter == old(counter)
      {
        assert reply.requests[..n + 1][..n] == reply.requests[..n];
        var r := reply.requests[n];
        if r.Add? {
          AddEvent(r.fd, r.eventHandler);
        } else {
          EraseEvent(r.fd);
        }
        n := n + 1;
      }
      assert reply.requests[..n] == reply.requests;
      result := reply.result;
    }

    /** Calls a handler until it has nothing left to do. */
    method Drain(info: EventInfo)
      modifies this`changeList, this`counter, this`calls
      ensures calls == old(calls) + Repeat(info, DrainCount(script, |old(calls)|))
      ensures IsDrained(script, info, old(calls), calls)
      ensures changeList == old(changeList) + QueuedBetween(script, |old(calls)|, |calls|)
      ensures RequestsLeft(script, |old(calls)|) + |old(changeList)| == RequestsLeft(script, |calls|) + |changeList|
      ensures counter >= old(counter)
      ensures if |changeList| > |old(changeList)| then counter > 0 else counter == old(counter)
    {
      hide RequestsLeft, QueuedAll, QueuedBetween, Repeat, DrainCount;
      var result := 1;
      ghost var k := 0;
      NothingYet(info, script, |calls|);
      while result > 0
        invariant calls == old(calls) + Repeat(info, k)
        invariant changeList == old(changeList) + QueuedBetween(script, |old(calls)|, |calls|)
        invariant if result > 0 then DrainCount(script, |old(calls)|) == k + DrainCount(script, |old(calls)| + k)
                  else k == DrainCount(script, |old(calls)|)
        invariant RequestsLeft(script, |old(calls)|) + |old(changeList)| == RequestsLeft(script, |calls|) + |changeList|
        invariant counter >= old(counter)
        invariant if |changeList| > |old(changeList)| then counter > 0 else counter == old(counter)
        decreases result > 0, |script| - |calls|
      {
        RequestsLeftStep(script, |calls|);
        QueuedBetweenStep(script, |old(calls)|, |calls|);
        RepeatStep(info, k);
        DrainCountStep(script, |calls|);
        result := Call(info);
        k := k + 1;
      }
      DrainedCalls(info, script, old(calls));
    }

    /** Removes a descriptor and, unless the handler is empty, adds it again. */
    method ApplyChange(item: EventInfo)
      requires interest == eventInfos.Keys - refused
      modifies this`eventInfos, this`interest, this`changeWatched
      ensures eventInfos == Apply(old(eventInfos), item)
      ensures changeWatched == (old(changeWatched) && item.fd != changeFd)
      ensures interest == eventInfos.Keys - refused
    {
      interest := interest - {item.fd};
      changeWatched := changeWatched && item.fd != changeFd;
      eventInfos := eventInfos - {item.fd};
      if item.eventHandler.Some? {
        eventInfos := eventInfos[item.fd := item.eventHandler.value];
        if item.fd !in refused && item.fd !in interest {
          interest := interest + {item.fd};
        }
      }
    }

    /** One round of the walk over the change list: an added handler is called until it is drained. */
    method Process(item: EventInfo)
      requires interest == eventInfos.Keys - refused
      modifies this
      ensures eventInfos == Apply(old(eventInfos), item) && interest == eventInfos.Keys - refused
      ensures changeWatched == (old(changeWatched) && item.fd != changeFd)
      ensures calls == old(calls) + DrainsOne(item, script, |old(calls)|)
      ensures changeList == old(changeList) + QueuedBetween(script, |old(calls)|, |calls|)
      ensures RequestsLeft(script, |old(calls)|) + |old(changeList)| == RequestsLeft(script, |calls|) + |changeList|
      ensures |changeList| == |old(changeList)| ==> counter == old(counter)
    {
      hide RequestsLeft, QueuedBetween, Repeat, DrainCount, Apply;
      NothingYet(item, script, |calls|);
      ApplyChange(item);
      if item.eventHandler.Some? {
        Drain(item);
      }
    }

    /** Applies the change list, including what handlers append to it while it is walked. */
    method ChangeHandler() returns (result: int)
      requires Valid()
      modifies this
      ensures Valid()
      ensures result == if old(counter) == 0 then -1 else READ_SIZE
      ensures if old(counter) == 0 then unchanged(this) else Current() == Settle(script, changeFd, old(Current()))
      ensures old(counter) > 0 && counter > 0 ==> RequestsLeft(script, |calls|) < RequestsLeft(script, |old(calls)|)
      ensures RequestsLeft(script, |calls|) <= RequestsLeft(script, |old(calls)|)
    {
      if counter == 0 {
        return -1;
      }
      counter := 0;
      result := READ_SIZE;
      Walk();
      changeList := [];
    }

    /** The walk over the change list; a handler that is called meanwhile may append to the list. */
    method Walk()
      requires interest == eventInfos.Keys - refused
      modifies this
      ensures interest == eventInfos.Keys - refused
      ensures Current().(changeList := []) == Settle(script, changeFd, old(Current()))
      ensures counter == old(counter) || RequestsLeft(script, |calls|) < RequestsLeft(script, |old(calls)|)
      ensures RequestsLeft(script, |calls|) <= RequestsLeft(script, |old(calls)|)
    {
      hide RequestsLeft, QueuedAll, QueuedBetween, DrainsOne, Apply;
      var i := 0;
      assert changeList[0..] == changeList;
      while i < |changeList|
        invariant 0 <= i <= |changeList|
        invariant Settle(script, changeFd, Current().(changeList := changeList[i..]))
               == Settle(script, changeFd, old(Current()))
        invariant interest == eventInfos.Keys - refused
        invariant RequestsLeft(script, |old(calls)|) + |old(changeList)| == RequestsLeft(script, |calls|) + |changeList|
        invariant |changeList| > |old(changeList)| || (|changeList| == |old(changeList)| && counter == old(counter))
        decreases |changeList| - i + RequestsLeft(script, |calls|)
      {
        ghost var s, list := Current().(changeList := changeList[i..]), changeList;
        Process(changeList[i]);
        assert changeList[i + 1..] == list[i..][1..] + changeList[|list|..];
        assert Current().(changeList := changeList[i + 1..]) == AfterChange(script, changeFd, s);
        i := i + 1;
      }
    }

    /** Handles the announcement of changes until there is nothing left to read. */
    method DrainChanges()
      requires Valid()
      modifies this
      ensures Valid() && counter == 0
      ensures Current() == Settle(script, changeFd, old(Current()))
    {
      var result := 1;
      while result > 0
        invariant Valid()
        invariant Settle(script, changeFd, Current()) == Settle(script, changeFd, old(Current()))
        invariant result <= 0 ==> counter == 0
        decreases result > 0, RequestsLeft(script, |calls|) + if counter > 0 then 1 else 0
      {
        ghost var s := Current();
        result := ChangeHandler();
        SettledIsSettled(script, changeFd, s);
      }
    }

    /** One reported event; the handler of a readable descriptor is called until it is drained. */
    method Dispatch(entry: Entry) returns (stopped: bool)
      requires Valid()
      modifies this
      ensures Valid()
      ensures stopped <==> IsStop(entry)
      ensures Current() == Handled(script, changeFd, old(Current()), entry)
      ensures !entry.hangup && entry.source == ChangeFd ==> counter == 0
      ensures !entry.hangup && entry.source.User? && entry.source.fd in old(eventInfos) ==>
                && IsDrained(script, EventInfo(entry.source.fd, Some(old(eventInfos)[entry.source.fd])), old(calls),
                             calls)
                && eventInfos == old(eventInfos)
      ensures entry.hangup && entry.source.User? ==>
                && changeList == old(changeList) + [EventInfo(entry.source.fd, None)]
                && calls == old(calls) && eventInfos == old(eventInfos)
    {
      stopped := false;
      if entry.hangup {
        if !entry.source.StopFd? {
          EraseEvent(if entry.source.User? then entry.source.fd else changeFd);
        }
      } else if entry.source.StopFd? {
        stopped := true;
      } else if entry.source.ChangeFd? {
        DrainChanges();
      } else if entry.source.fd in eventInfos {
        Drain(EventInfo(entry.source.fd, Some(eventInfos[entry.source.fd])));
      }
    }

    /** The events of one `epoll_wait`, up to the stop notification */
    method DispatchAll(events: seq<Entry>) returns (stopped: bool)
      requires Valid()
      modifies this
      ensures Valid()
      ensures stopped == HasStop(events)
      ensures Current() == HandledAll(script, changeFd, old(Current()), BeforeStop(events))
    {
      hide Handled, Settle, IsDrained, HandledAll, HasStop, BeforeStop;
      var n := 0;
      ghost var handled: seq<Entry> := [];
      HandleNothing(script, changeFd, Current());
      assert events[0..] == events;
      while n < |events|
        invariant 0 <= n <= |events|
        invariant Valid()
        invariant HasStop(events) == HasStop(events[n..])
        invariant BeforeStop(events) == handled + BeforeStop(events[n..])
        invariant Current() == HandledAll(script, changeFd, old(Current()), handled)
      {
        ghost var s := Current();
        StopsStep(events, n);
        stopped := Dispatch(events[n]);
        if stopped {
          StopIsQuiet(script, changeFd, s, events[n]);
          assert handled + [] == handled;
          return;
        }
        HandleOneMore(script, changeFd, old(Current()), handled, events[n]);
        assert handled + ([events[n]] + BeforeStop(events[n + 1..]))
               == handled + [events[n]] + BeforeStop(events[n + 1..]);
        handled := handled + [events[n]];
        n := n + 1;
      }
      NoStops();
      assert events[n..] == [];
      assert handled + [] == handled;
      return false;
    }

    /** Works on what `epoll_wait` returns, until it fails, times out or reports the stop notification. */
    method Execute(waits: seq<Wait>) returns (r: Option<int>)
      requires Valid()
      modifies this
      ensures Valid()
      ensures r == ExitOf(waits)
      ensures Current() == HandledAll(script, changeFd, old(Current()), EventsBeforeExit(waits))
    {
      hide Handled, HandledAll, BeforeStop, HasStop;
      var w := 0;
      ghost var handled: seq<Entry> := [];
      HandleNothing(script, changeFd, Current());
      while w < |waits|
        invariant 0 <= w <= |waits|
        invariant Valid()
        invariant ExitOf(waits) == ExitOf(waits[w..])
        invariant EventsBeforeExit(waits) == handled + EventsBeforeExit(waits[w..])
        invariant Current() == HandledAll(script, changeFd, old(Current()), handled)
      {
        var wait := waits[w];
        assert waits[w..][0] == wait && waits[w..][1..] == waits[w + 1..];
        if wait.Failed? || wait.TimedOut? {
          assert handled + [] == handled;
          return Some(if wait.Failed? then -1 else 0);
        }
        if wait.Events? {
          var stopped := DispatchAll(wait.events);
          ghost var x := BeforeStop(wait.events);
          HandleMore(script, changeFd, old(Current()), handled, x);
          if stopped {
            return Some(0);
          }
          assert handled + (x + EventsBeforeExit(waits[w + 1..])) == handled + x + EventsBeforeExit(waits[w + 1..]);
          handled := handled + x;
        }
        w := w + 1;
      }
      assert handled + [] == handled;
      return None;
    }
  }

  lemma StopsStep(events: seq<Entry>, n: nat)
    requires n < |events|
    ensures HasStop(events[n..]) <==> IsStop(events[n]) || HasStop(events[n + 1..])
    ensures BeforeStop(events[n..]) == if IsStop(events[n]) then [] else [events[n]] + BeforeStop(events[n + 1..])
  {
    var rest := events[n..];
    assert rest[1..] == events[n + 1..];
    if HasStop(rest) && !IsStop(rest[0]) {
      var k :| 0 <= k < |rest| && IsStop(rest[k]);
      assert IsStop(rest[1..][k - 1]);
    }
    if HasStop(rest[1..]) {
      var k :| 0 <= k < |rest[1..]| && IsStop(rest[1..][k]);
      assert IsStop(rest[k + 1]);
    }
  }

  lemma NoStops()
    ensures !HasStop([]) && BeforeStop([]) == []
  {
  }

  lemma HandleNothing(script: seq<Reply>, changeFd: int, s: Loop)
    ensures HandledAll(script, changeFd, s, []) == s
  {
  }

  lemma StopIsQuiet(script: seq<Reply>, changeFd: int, s: Loop, entry: Entry)
    requires IsStop(entry)
    ensures Handled(script, changeFd, s, entry) == s
  {
  }

  lemma {:induction false} SettledIsSettled(script: seq<Reply>, changeFd: int, s: Loop)
    ensures Settle(script, changeFd, s).changeList == []
    ensures Settle(script, changeFd, Settle(script, changeFd, s)) == Settle(script, changeFd, s)
    decreases |s.changeList| + RequestsLeft(script, |s.calls|)
  {
    hide RequestsLeft, QueuedBetween, DrainsOne, Apply;
    if s.changeList != [] {
      var s' := AfterChange(script, changeFd, s);
      RequestsLeftBetween(script, |s.calls|, |s'.calls|);
      SettledIsSettled(script, changeFd, s');
    }
  }

  lemma {:induction false} RepeatIs(info: EventInfo, k: nat)
    ensures forall n :: 0 <= n < k ==> Repeat(info, k)[n] == info
  {
    if k > 0 {
      RepeatIs(info, k - 1);
    }
  }

  lemma DrainedCalls(info: EventInfo, script: seq<Reply>, before: seq<EventInfo>)
    ensures IsDrained(script, info, before, before + Repeat(info, DrainCount(script, |before|)))
  {
    hide Repeat, DrainCount, ReplyAt;
    DrainStopsFirst(script, |before|);
    RepeatIs(info, DrainCount(script, |before|));
  }

  lemma {:induction false} QueuedBetweenJoin(script: seq<Reply>, a: nat, b: nat, c: nat, first: seq<EventInfo>)
    requires a <= b <= c
    ensures first + QueuedBetween(script, a, c) == first + QueuedBetween(script, a, b) + QueuedBetween(script, b, c)
    decreases c
  {
    if b == c {
      assert first + QueuedBetween(script, a, b) + [] == first + QueuedBetween(script, a, b);
    } else {
      QueuedBetweenJoin(script, a, b, c - 1, first);
      var last := QueuedAll(ReplyAt(script, c - 1).requests);
      assert first + (QueuedBetween(script, a, c - 1) + last) == first + QueuedBetween(script, a, c - 1) + last;
      assert first + QueuedBetween(script, a, b) + (QueuedBetween(script, b, c - 1) + last)
          == first + QueuedBetween(script, a, b) + QueuedBetween(script, b, c - 1) + last;
    }
  }
}
