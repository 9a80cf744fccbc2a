/**
 The class `EventLoop` takes the steps of the machine in `EventLoopRuns`: whatever it does with the
 events of one wait is a run of loop steps that ends with the same handlers and changes and makes the
 same calls, so that the theorems about runs speak of the class.
 */
module EventLoopRefinement {
  import opened EventLoopRuns
  import opened EventLoops
  import opened Wrappers

  /** Where a row of steps leads and the handler calls that return on the way */
  datatype Trace = Stuck | Reached(state: State, calls: seq<EventInfo>)

  /**
   The steps of the loop thread. A handler is taken to read all that is left in its last call. The
   stop notification is not part of it.
   */
  predicate IsLoopStep(s: State, step: Step) {
    && Enabled(s, step)
    && match step
       case NextEvent => s.place.batch != [] && !IsStop(s.place.batch[0])
       case HandlerReads(_) => true
       case HandlerIsDone => true
       case HandlerQueues(_) => true
       case ReadCounter => true
       case WalkRemove => true
       case WalkAdd(_) => true
       case WalkEnd => true
       case TakeAll(fd) => Drained(s) == Some(fd)
       case _ => false
  }

  /** The call that returns in a step */
  function Returning(s: State, step: Step): seq<EventInfo> {
    if (step.HandlerReads? || step.HandlerIsDone?) && Drained(s).Some? && Drained(s).value in s.eventInfos then
      [EventInfo(Drained(s).value, Some(s.eventInfos[Drained(s).value]))]
    else []
  }

  function Run(refused: set<int>, s: State, steps: seq<Step>): Trace
    decreases |steps|
  {
    if steps == [] then Reached(s, [])
    else
      var step := steps[|steps| - 1];
      match Run(refused, s, steps[..|steps| - 1])
      case Stuck => Stuck
      case Reached(t, calls) =>
        if IsLoopStep(t, step) then Reached(After(refused, t, step), calls + Returning(t, step)) else Stuck
  }

  lemma RunNothing(refused: set<int>, s: State)
    ensures Run(refused, s, []) == Reached(s, [])
  {
  }

  lemma RunStep(refused: set<int>, s: State, steps: seq<Step>, step: Step)
    requires Run(refused, s, steps).Reached? && IsLoopStep(Run(refused, s, steps).state, step)
    ensures var r := Run(refused, s, steps);
            Run(refused, s, steps + [step])
                == Reached(After(refused, r.state, step), r.calls + Returning(r.state, step))
  {
    hide IsLoopStep, After, Returning;
    assert (steps + [step])[..|steps|] == steps;
  }

  lemma RunOne(refused: set<int>, s: State, step: Step)
    requires IsLoopStep(s, step)
    ensures Run(refused, s, [step]) == Reached(After(refused, s, step), Returning(s, step))
  {
    hide IsLoopStep, After, Returning;
    RunNothing(refused, s);
    RunStep(refused, s, [], step);
    assert [] + [step] == [step] && [] + Returning(s, step) == Returning(s, step);
  }

  lemma {:induction false} RunMore(refused: set<int>, s: State, a: seq<Step>, b: seq<Step>)
    requires Run(refused, s, a).Reached? && Run(refused, Run(refused, s, a).state, b).Reached?
    ensures var r := Run(refused, s, a);
            var q := Run(refused, r.state, b);
            Run(refused, s, a + b) == Reached(q.state, r.calls + q.calls)
    decreases |b|
  {
    hide IsLoopStep, After, Returning;
    if b == [] {
      assert a + b == a;
    } else {
      var front, step := b[..|b| - 1], b[|b| - 1];
      RunMore(refused, s, a, front);
      assert (a + b)[..|a + b| - 1] == a + front;
    }
  }

  /** A run of loop steps keeps everything. */
  lemma {:induction false} RunKeepsInv(refused: set<int>, s: State, steps: seq<Step>)
    requires Run(refused, s, steps).Reached?
    ensures Consistent(refused, s) ==> Consistent(refused, Run(refused, s, steps).state)
    ensures Inv(refused, s) ==> Inv(refused, Run(refused, s, steps).state)
    decreases |steps|
  {
    hide Enabled, After, Consistent, Inv, Returning;
    if steps != [] {
      var before := Run(refused, s, steps[..|steps| - 1]).state;
      RunKeepsInv(refused, s, steps[..|steps| - 1]);
      if Consistent(refused, before) {
        StepKeepsConsistency(refused, before, steps[|steps| - 1]);
      }
      if Inv(refused, before) {
        StepKeepsInvIff(refused, before, steps[|steps| - 1]);
      }
    }
  }

  // ---------------------------------------------------------------- one call

  /** Apart from the list, what announces it and what was read nothing has changed. */
  ghost predicate OnlyQueued(s: State, t: State, changes: seq<EventInfo>) {
    && t == s.(changeList := s.changeList + changes, history := s.history + changes, counter := t.counter,
               edges := t.edges, readable := t.readable)
    && t.counter >= s.counter && (changes != [] ==> t.counter > 0)
  }

  lemma QueueOneMore(refused: set<int>, s: State, change: EventInfo)
    requires Drained(s).Some? && (s.lock == Nobody || s.lock == LoopThread)
    ensures IsLoopStep(s, HandlerQueues(change)) && Returning(s, HandlerQueues(change)) == []
    ensures var t := After(refused, s, HandlerQueues(change));
            OnlyQueued(s, t, [change]) && Drained(t) == Drained(s)
  {
  }

  lemma QueuedMore(s: State, t: State, u: State, a: seq<EventInfo>, b: seq<EventInfo>)
    requires OnlyQueued(s, t, a) && OnlyQueued(t, u, b)
    ensures OnlyQueued(s, u, a + b)
  {
    assert s.changeList + a + b == s.changeList + (a + b);
    assert s.history + a + b == s.history + (a + b);
  }

  lemma QueuedNothing(s: State)
    ensures OnlyQueued(s, s, [])
  {
    assert s.changeList + [] == s.changeList && s.history + [] == s.history;
  }

  lemma {:induction false} QueueRuns(refused: set<int>, s: State, changes: seq<EventInfo>)
    returns (steps: seq<Step>, t: State)
    requires Drained(s).Some? && (s.lock == Nobody || s.lock == LoopThread)
    ensures Run(refused, s, steps) == Reached(t, []) && OnlyQueued(s, t, changes) && Drained(t) == Drained(s)
    decreases |changes|
  {
    hide IsLoopStep, After, Returning, Drained;
    if changes == [] {
      steps, t := [], s;
      QueuedNothing(s);
    } else {
      var front, last := changes[..|changes| - 1], changes[|changes| - 1];
      steps, t := QueueRuns(refused, s, front);
      QueueOneMore(refused, t, last);
      RunStep(refused, s, steps, HandlerQueues(last));
      var u := After(refused, t, HandlerQueues(last));
      QueuedMore(s, t, u, front, [last]);
      assert front + [last] == changes;
      steps, t := steps + [HandlerQueues(last)], u;
    }
  }

  // ---------------------------------------------------------------- one handler

  /** The handler that is being called, ready to return */
  ghost predicate IsCalling(s: State, info: EventInfo) {
    && Drained(s) == Some(info.fd) && info.fd in s.eventInfos && info.eventHandler == Some(s.eventInfos[info.fd])
    && (s.lock == Nobody || s.lock == LoopThread)
  }

  lemma StaysCalling(s: State, t: State, changes: seq<EventInfo>, info: EventInfo)
    requires IsCalling(s, info) && OnlyQueued(s, t, changes) && Drained(t) == Drained(s)
    ensures IsCalling(t, info)
  {
  }

  /** A call that returns a positive value */
  lemma ReturnsPositive(refused: set<int>, s: State, info: EventInfo)
    requires IsCalling(s, info)
    ensures IsLoopStep(s, HandlerReads(false)) && After(refused, s, HandlerReads(false)) == s
    ensures Returning(s, HandlerReads(false)) == [info]
  {
  }

  /** The last call */
  lemma ReturnsLast(refused: set<int>, s: State, info: EventInfo) returns (steps: seq<Step>, t: State)
    requires IsCalling(s, info)
    ensures Run(refused, s, steps) == Reached(t, [info])
    ensures OnlyQueued(s.(place := EventLoopRuns.AfterDrain(s.place)), t, [])
  {
    var u := After(refused, s, TakeAll(info.fd));
    RunNothing(refused, s);
    RunStep(refused, s, [], TakeAll(info.fd));
    RunStep(refused, s, [] + [TakeAll(info.fd)], HandlerIsDone);
    steps, t := [] + [TakeAll(info.fd)] + [HandlerIsDone], After(refused, u, HandlerIsDone);
    QueuedNothing(s);
  }

  lemma {:induction false} RepeatFront(info: EventInfo, k: nat)
    ensures [info] + Repeat(info, k) == Repeat(info, k + 1)
  {
    if k > 0 {
      RepeatFront(info, k - 1);
      assert [info] + (Repeat(info, k - 1) + [info]) == [info] + Repeat(info, k - 1) + [info];
    } else {
      assert [info] + [] == [] + [info];
    }
  }

  lemma QueuedFront(script: seq<Reply>, n: nat, k: nat)
    ensures QueuedBetween(script, n, n + 1 + k)
         == QueuedAll(ReplyAt(script, n).requests) + QueuedBetween(script, n + 1, n + 1 + k)
    ensures QueuedBetween(script, n, n + 1) == QueuedAll(ReplyAt(script, n).requests)
  {
    hide QueuedAll;
    QueuedBetweenStep(script, n, n);
    assert QueuedBetween(script, n, n) == [];
    assert [] + QueuedAll(ReplyAt(script, n).requests) == QueuedAll(ReplyAt(script, n).requests);
    hide QueuedBetween;
    QueuedBetweenJoin(script, n, n + 1, n + 1 + k, []);
    assert [] + QueuedBetween(script, n, n + 1) == QueuedBetween(script, n, n + 1);
    assert [] + QueuedBetween(script, n, n + 1 + k) == QueuedBetween(script, n, n + 1 + k);
  }

  lemma QueuedElsewhere(s: State, t: State, changes: seq<EventInfo>, place: Place)
    requires OnlyQueued(s, t, changes)
    ensures OnlyQueued(s.(place := place), t.(place := place), changes)
  {
  }

  lemma SamePlaceDrained(s: State, t: State, changes: seq<EventInfo>)
    requires OnlyQueued(s, t, changes)
    ensures t.place == s.place && t.eventInfos == s.eventInfos && t.lock == s.lock
  {
  }

  lemma {:induction false} DrainRuns(refused: set<int>, s: State, script: seq<Reply>, n: nat, info: EventInfo)
    returns (steps: seq<Step>, t: State)
    requires IsCalling(s, info)
    ensures var k := DrainCount(script, n);
            && Run(refused, s, steps) == Reached(t, Repeat(info, k))
            && OnlyQueued(s.(place := EventLoopRuns.AfterDrain(s.place)), t, QueuedBetween(script, n, n + k))
    decreases |script| - n
  {
    hide IsLoopStep, After, Returning, Drained, OnlyQueued, IsCalling, QueuedBetween, QueuedAll;
    var changes := QueuedAll(ReplyAt(script, n).requests);
    CallingQueues(s, info);
    var qs, u := QueueRuns(refused, s, changes);
    StaysCalling(s, u, changes, info);
    SamePlaceDrained(s, u, changes);
    var place := EventLoopRuns.AfterDrain(s.place);
    QueuedElsewhere(s, u, changes, place);
    DrainCountStep(script, n);
    if ReplyAt(script, n).result > 0 {
      ReturnsPositive(refused, u, info);
      RunStep(refused, s, qs, HandlerReads(false));
      var ds;
      ds, t := DrainRuns(refused, u, script, n + 1, info);
      RunMore(refused, s, qs + [HandlerReads(false)], ds);
      steps := qs + [HandlerReads(false)] + ds;
      var k := DrainCount(script, n + 1);
      RepeatFront(info, k);
      QueuedFront(script, n, k);
      QueuedMore(s.(place := place), u.(place := place), t, changes, QueuedBetween(script, n + 1, n + 1 + k));
      assert [] + [info] == [info];
    } else {
      var ds;
      ds, t := ReturnsLast(refused, u, info);
      RunMore(refused, s, qs, ds);
      steps := qs + ds;
      RepeatFront(info, 0);
      QueuedFront(script, n, 0);
      QueuedMore(s.(place := place), u.(place := place), t, changes, []);
      assert changes + [] == changes && [info] + [] == [info] && [] + [info] == [info];
      assert Repeat(info, 0) == [];
    }
  }

  lemma CallingQueues(s: State, info: EventInfo)
    requires IsCalling(s, info)
    ensures Drained(s).Some? && (s.lock == Nobody || s.lock == LoopThread)
  {
  }

  // ---------------------------------------------------------------- the walk over the change list

  /** The loop thread is at entry `i` of the change list and holds the lock. */
  ghost predicate AtEntry(s: State, i: nat, batch: seq<Entry>) {
    s.place == Walking(i, batch) && s.lock == LoopThread && i <= |s.changeList|
  }

  lemma RemoveEntry(refused: set<int>, s: State, i: nat, batch: seq<Entry>) returns (t: State)
    requires AtEntry(s, i, batch) && i < |s.changeList|
    ensures Run(refused, s, [WalkRemove]) == Reached(t, [])
    ensures t.changeList == s.changeList && t.lock == s.lock && t.eventInfos == s.eventInfos - {s.changeList[i].fd}
    ensures t.place == if s.changeList[i].eventHandler.Some? then Adding(i, batch) else Walking(i + 1, batch)
  {
    RunOne(refused, s, WalkRemove);
    hide Run;
    t := After(refused, s, WalkRemove);
  }

  lemma AddEntry(refused: set<int>, s: State, i: nat, batch: seq<Entry>) returns (t: State)
    requires s.place == Adding(i, batch) && s.lock == LoopThread
    requires i < |s.changeList| && s.changeList[i].eventHandler.Some?
    ensures Run(refused, s, [WalkAdd(false)]) == Reached(t, [])
    ensures t.changeList == s.changeList && t.lock == s.lock && t.place == DrainingNew(i, batch)
    ensures t.eventInfos == s.eventInfos[s.changeList[i].fd := s.changeList[i].eventHandler.value]
    ensures IsCalling(t, s.changeList[i])
  {
    RunOne(refused, s, WalkAdd(false));
    hide Run;
    t := After(refused, s, WalkAdd(false));
  }

  lemma NewIsDrained(s: State, t: State, i: nat, batch: seq<Entry>, changes: seq<EventInfo>)
    requires s.place == DrainingNew(i, batch) && s.lock == LoopThread && i < |s.changeList|
    requires OnlyQueued(s.(place := EventLoopRuns.AfterDrain(s.place)), t, changes)
    ensures AtEntry(t, i + 1, batch) && t.eventInfos == s.eventInfos && t.changeList == s.changeList + changes
  {
  }

  lemma ApplyParts(infos: map<int, Handler>, item: EventInfo, script: seq<Reply>, n: nat)
    ensures Apply(infos, item) == if item.eventHandler.None? then infos - {item.fd}
                                  else (infos - {item.fd})[item.fd := item.eventHandler.value]
    ensures DrainsOne(item, script, n) == if item.eventHandler.None? then []
                                          else Repeat(item, DrainCount(script, n))
    ensures QueuedBetween(script, n, n) == []
  {
    hide Repeat, DrainCount;
  }

  /** One entry of the list */
  lemma EntryRuns(refused: set<int>, s: State, script: seq<Reply>, n: nat, i: nat, batch: seq<Entry>)
    returns (steps: seq<Step>, t: State)
    requires AtEntry(s, i, batch) && i < |s.changeList|
    ensures var made := DrainsOne(s.changeList[i], script, n);
            && Run(refused, s, steps) == Reached(t, made) && AtEntry(t, i + 1, batch)
            && t.eventInfos == Apply(s.eventInfos, s.changeList[i])
            && t.changeList == s.changeList + QueuedBetween(script, n, n + |made|)
  {
    hide IsLoopStep, After, Returning, Drained, IsCalling, DrainCount, Repeat, Run, OnlyQueued, Apply, DrainsOne;
    hide QueuedBetween;
    var item := s.changeList[i];
    ApplyParts(s.eventInfos, item, script, n);
    var u := RemoveEntry(refused, s, i, batch);
    if item.eventHandler.Some? {
      var v := AddEntry(refused, u, i, batch);
      RunMore(refused, s, [WalkRemove], [WalkAdd(false)]);
      var ds;
      ds, t := DrainRuns(refused, v, script, n, item);
      var k := DrainCount(script, n);
      NewIsDrained(v, t, i, batch, QueuedBetween(script, n, n + k));
      RunMore(refused, s, [WalkRemove] + [WalkAdd(false)], ds);
      steps := [WalkRemove] + [WalkAdd(false)] + ds;
      NoCallsBefore(Repeat(item, k));
    } else {
      steps, t := [WalkRemove], u;
      assert s.changeList + [] == s.changeList;
    }
  }

  lemma NoCallsBefore(calls: seq<EventInfo>)
    ensures [] + [] + calls == calls
  {
  }

  /** The machine and the class have the same handlers and the same list. */
  ghost predicate Agrees(s: State, infos: map<int, Handler>, changes: seq<EventInfo>) {
    s.eventInfos == infos && s.changeList == changes
  }

  lemma ListGoesOn(list: seq<EventInfo>, i: nat, left: seq<EventInfo>, more: seq<EventInfo>)
    requires i <= |list| && left != [] && list == list[..i] + left
    ensures list + more == (list + more)[..i + 1] + (left[1..] + more)
  {
    assert list == list[..i] + [left[0]] + left[1..];
    assert (list + more)[..i + 1] == list[..i] + [left[0]];
  }

  lemma SettleStep(script: seq<Reply>, changeFd: int, l: Loop)
    ensures Settle(script, changeFd, l)
            == if l.changeList == [] then l else Settle(script, changeFd, AfterChange(script, changeFd, l))
  {
    hide AfterChange;
  }

  lemma {:induction false} WalkRuns(refused: set<int>, s: State, script: seq<Reply>, changeFd: int, l: Loop, i: nat,
                                    batch: seq<Entry>)
    returns (steps: seq<Step>, t: State, calls: seq<EventInfo>)
    requires AtEntry(s, i, batch) && Agrees(s, l.eventInfos, s.changeList[..i] + l.changeList)
    ensures Run(refused, s, steps) == Reached(t, calls) && AtEntry(t, |t.changeList|, batch)
    ensures var l' := Settle(script, changeFd, l); t.eventInfos == l'.eventInfos && l.calls + calls == l'.calls
    ensures l.changeList == [] ==> t == s
    decreases |l.changeList| + RequestsLeft(script, |l.calls|)
  {
    hide IsLoopStep, After, Returning, Run, RequestsLeft, QueuedBetween, DrainsOne, Apply, Settle;
    SettleStep(script, changeFd, l);
    if l.changeList == [] {
      RunNothing(refused, s);
      steps, t, calls := [], s, [];
      assert s.changeList[..i] + l.changeList == s.changeList[..i];
      assert l.calls + [] == l.calls;
    } else {
      var l' := AfterChange(script, changeFd, l);
      var item := l.changeList[0];
      assert s.changeList[i] == item;
      var es, u := EntryRuns(refused, s, script, |l.calls|, i, batch);
      ListGoesOn(s.changeList, i, l.changeList, QueuedBetween(script, |l.calls|, |l'.calls|));
      RequestsLeftBetween(script, |l.calls|, |l'.calls|);
      var ws;
      ws, t, calls := WalkRuns(refused, u, script, changeFd, l', i + 1, batch);
      RunMore(refused, s, es, ws);
      var made := DrainsOne(item, script, |l.calls|);
      assert l.calls + made + calls == l.calls + (made + calls);
      steps, calls := es + ws, made + calls;
    }
  }

  // ---------------------------------------------------------------- the change notification

  /** The loop thread is about to read the counter. */
  ghost predicate AtCounter(s: State, batch: seq<Entry>) {
    s.place == Changing(batch) && s.lock == Nobody && ChangesAreCounted(s)
  }

  /** The loop thread goes on with the next event. */
  ghost predicate AtBatch(s: State, batch: seq<Entry>) {
    s.place == Dispatching(batch) && s.lock == Nobody
  }

  lemma BeginWalk(refused: set<int>, s: State, batch: seq<Entry>) returns (t: State)
    requires AtCounter(s, batch)
    ensures Run(refused, s, [ReadCounter]) == Reached(t, [])
    ensures t.eventInfos == s.eventInfos && t.changeList == s.changeList
    ensures if s.counter == 0 then s.changeList == [] && AtBatch(t, batch) else AtEntry(t, 0, batch) && t.counter == 0
  {
    RunOne(refused, s, ReadCounter);
    hide Run;
    t := After(refused, s, ReadCounter);
  }

  lemma EndWalk(refused: set<int>, s: State, batch: seq<Entry>) returns (t: State)
    requires AtEntry(s, |s.changeList|, batch)
    ensures Run(refused, s, [WalkEnd]) == Reached(t, [])
    ensures t.eventInfos == s.eventInfos && t.changeList == [] && AtCounter(t, batch) && t.counter == s.counter
  {
    RunOne(refused, s, WalkEnd);
    hide Run;
    t := After(refused, s, WalkEnd);
  }

  /** With nothing queued the counter is read until it is 0. */
  lemma QuietRuns(refused: set<int>, s: State, batch: seq<Entry>) returns (steps: seq<Step>, t: State)
    requires AtCounter(s, batch) && s.changeList == []
    ensures Run(refused, s, steps) == Reached(t, []) && AtBatch(t, batch) && Agrees(t, s.eventInfos, [])
  {
    hide IsLoopStep, After, Returning, Run;
    var u := BeginWalk(refused, s, batch);
    steps, t := [ReadCounter], u;
    if s.counter > 0 {
      var v := EndWalk(refused, u, batch);
      RunMore(refused, s, [ReadCounter], [WalkEnd]);
      var w := BeginWalk(refused, v, batch);
      RunMore(refused, s, [ReadCounter] + [WalkEnd], [ReadCounter]);
      steps, t := [ReadCounter] + [WalkEnd] + [ReadCounter], w;
      var none: seq<EventInfo> := [];
      assert none + none == none;
    }
  }

  lemma ChangesRun(refused: set<int>, s: State, script: seq<Reply>, changeFd: int, l: Loop, batch: seq<Entry>)
    returns (steps: seq<Step>, t: State, calls: seq<EventInfo>)
    requires AtCounter(s, batch) && Agrees(s, l.eventInfos, l.changeList)
    ensures Run(refused, s, steps) == Reached(t, calls) && AtBatch(t, batch)
    ensures var l' := Settle(script, changeFd, l); Agrees(t, l'.eventInfos, []) && l.calls + calls == l'.calls
  {
    hide IsLoopStep, After, Returning, Run;
    if s.counter == 0 {
      steps, t := QuietRuns(refused, s, batch);
      calls := [];
      assert l.calls + [] == l.calls;
    } else {
      var u := BeginWalk(refused, s, batch);
      assert u.changeList[..0] + l.changeList == l.changeList;
      var ws, v, made := WalkRuns(refused, u, script, changeFd, l, 0, batch);
      RunMore(refused, s, [ReadCounter], ws);
      var w := EndWalk(refused, v, batch);
      RunMore(refused, s, [ReadCounter] + ws, [WalkEnd]);
      var qs;
      qs, t := QuietRuns(refused, w, batch);
      RunMore(refused, s, [ReadCounter] + ws + [WalkEnd], qs);
      steps, calls := [ReadCounter] + ws + [WalkEnd] + qs, made;
      assert [] + made + [] + [] == made;
    }
  }

  // ---------------------------------------------------------------- the events of one wait

  lemma NextRuns(refused: set<int>, s: State, entry: Entry, rest: seq<Entry>) returns (t: State)
    requires AtBatch(s, [entry] + rest) && !IsStop(entry)
    ensures Run(refused, s, [NextEvent]) == Reached(t, []) && t == AfterEvent(s, entry, rest)
  {
    assert ([entry] + rest)[1..] == rest;
    RunOne(refused, s, NextEvent);
    hide Run;
    t := After(refused, s, NextEvent);
  }

  /** One event that is no stop notification; hang ups of the notifications are not part of the machine. */
  lemma EventRuns(refused: set<int>, s: State, script: seq<Reply>, changeFd: int, l: Loop, entry: Entry,
                  rest: seq<Entry>)
    returns (steps: seq<Step>, t: State, calls: seq<EventInfo>)
    requires AtBatch(s, [entry] + rest) && !IsStop(entry) && (entry.hangup ==> entry.source.User?)
    requires ChangesAreCounted(s) && Agrees(s, l.eventInfos, l.changeList)
    ensures Run(refused, s, steps) == Reached(t, calls) && AtBatch(t, rest)
    ensures var l' := Handled(script, changeFd, l, entry);
            Agrees(t, l'.eventInfos, l'.changeList) && l.calls + calls == l'.calls
  {
    hide IsLoopStep, After, Returning, Run, QueuedBetween, DrainCount, Repeat, Settle;
    var u := NextRuns(refused, s, entry, rest);
    steps, t, calls := [NextEvent], u, [];
    assert l.calls + [] == l.calls;
    if !entry.hangup && entry.source.ChangeFd? {
      var cs, made;
      cs, t, made := ChangesRun(refused, u, script, changeFd, l, rest);
      RunMore(refused, s, [NextEvent], cs);
      steps, calls := [NextEvent] + cs, made;
      assert [] + made == made;
      SettledIsSettled(script, changeFd, l);
    } else if !entry.hangup && entry.source.User? && entry.source.fd in s.eventInfos {
      var info := EventInfo(entry.source.fd, Some(s.eventInfos[entry.source.fd]));
      var ds;
      ds, t := DrainRuns(refused, u, script, |l.calls|, info);
      RunMore(refused, s, [NextEvent], ds);
      steps, calls := [NextEvent] + ds, Repeat(info, DrainCount(script, |l.calls|));
      assert [] + calls == calls;
    }
  }

  /** By these steps the machine follows the class, with the same calls, up to the events that are left. */
  ghost predicate Follows(refused: set<int>, s: State, steps: seq<Step>, l: Loop, l': Loop, left: seq<Entry>) {
    var r := Run(refused, s, steps);
    r.Reached? && AtBatch(r.state, left) && Agrees(r.state, l'.eventInfos, l'.changeList)
        && l.calls + r.calls == l'.calls
  }

  lemma FollowsMore(refused: set<int>, s: State, a: seq<Step>, b: seq<Step>, l: Loop, l': Loop, l'': Loop,
                    left: seq<Entry>, less: seq<Entry>)
    requires Follows(refused, s, a, l, l', left) && Follows(refused, Run(refused, s, a).state, b, l', l'', less)
    ensures Follows(refused, s, a + b, l, l'', less)
  {
    hide Run;
    RunMore(refused, s, a, b);
    var t := Run(refused, s, a);
    var made := Run(refused, t.state, b).calls;
    assert l.calls + t.calls + made == l.calls + (t.calls + made);
  }

  lemma StopSplits(batch: seq<Entry>)
    requires batch != []
    ensures IsStop(batch[0]) ==> BeforeStop(batch) == []
    ensures !IsStop(batch[0]) ==>
              && BeforeStop(batch) == [batch[0]] + BeforeStop(batch[1..])
              && |BeforeStop(batch[1..])| <= |batch[1..]|
              && batch[|BeforeStop(batch)|..] == batch[1..][|BeforeStop(batch[1..])|..]
  {
    BeforeStopIsShort(batch[1..]);
  }

  lemma {:induction false} BeforeStopIsShort(batch: seq<Entry>)
    ensures |BeforeStop(batch)| <= |batch|
  {
    if batch != [] {
      BeforeStopIsShort(batch[1..]);
    }
  }

  lemma HandleFirst(script: seq<Reply>, changeFd: int, l: Loop, entry: Entry, more: seq<Entry>)
    ensures HandledAll(script, changeFd, l, [entry] + more)
         == HandledAll(script, changeFd, Handled(script, changeFd, l, entry), more)
  {
    hide Handled;
    HandleNothing(script, changeFd, l);
    HandleOneMore(script, changeFd, l, [], entry);
    HandleMore(script, changeFd, l, [entry], more);
    assert [] + [entry] == [entry];
  }

  /** The first event of a batch cannot be a hang up of a notification. */
  lemma HangUpsAreUsers(refused: set<int>, s: State, batch: seq<Entry>)
    requires Consistent(refused, s) && AtBatch(s, batch) && batch != []
    ensures (batch[0].hangup ==> batch[0].source.User?) && ChangesAreCounted(s)
  {
    hide HandlersAreLatest, InterestMatches;
  }

  lemma {:induction false} BatchRuns(refused: set<int>, s: State, script: seq<Reply>, changeFd: int, l: Loop,
                                     batch: seq<Entry>)
    returns (steps: seq<Step>)
    requires Consistent(refused, s) && AtBatch(s, batch) && Agrees(s, l.eventInfos, l.changeList)
    ensures |BeforeStop(batch)| <= |batch|
    ensures Follows(refused, s, steps, l, HandledAll(script, changeFd, l, BeforeStop(batch)),
                    batch[|BeforeStop(batch)|..])
    decreases |batch|
  {
    hide IsLoopStep, After, Returning, Run, Handled, HandledAll, Consistent, ChangesAreCounted, BeforeStop;
    BeforeStopIsShort(batch);
    if batch == [] || IsStop(batch[0]) {
      NoStops();
      if batch != [] {
        StopSplits(batch);
      }
      HandleNothing(script, changeFd, l);
      RunNothing(refused, s);
      steps := [];
      assert l.calls + [] == l.calls && batch[0..] == batch;
    } else {
      var entry, rest := batch[0], batch[1..];
      assert batch == [entry] + rest;
      StopSplits(batch);
      HangUpsAreUsers(refused, s, batch);
      var es, u, calls := EventRuns(refused, s, script, changeFd, l, entry, rest);
      var l' := Handled(script, changeFd, l, entry);
      RunKeepsInv(refused, s, es);
      var rs := BatchRuns(refused, u, script, changeFd, l', rest);
      HandleFirst(script, changeFd, l, entry, BeforeStop(rest));
      assert Follows(refused, s, es, l, l', rest);
      hide Follows;
      FollowsMore(refused, s, es, rs, l, l', HandledAll(script, changeFd, l', BeforeStop(rest)), rest,
                  rest[|BeforeStop(rest)|..]);
      steps := es + rs;
    }
  }

  /**
   What the class makes of a batch of events is a run of loop steps from any state of the machine that
   has these events, handlers and changes: it ends with the same handlers and changes, before the stop
   notification or at the end of the batch, and the same calls of handlers return on the way. Neither a
   change nor readiness is lost.
   */
  lemma BatchIsARun(refused: set<int>, s: State, script: seq<Reply>, changeFd: int, l: Loop)
    requires Consistent(refused, s) && s.place.Dispatching? && s.lock == Nobody
    requires s.eventInfos == l.eventInfos && s.changeList == l.changeList
    ensures var events, l' := s.place.batch, HandledAll(script, changeFd, l, BeforeStop(s.place.batch));
            exists steps ::
              var r := Run(refused, s, steps);
              && r.Reached? && r.state.eventInfos == l'.eventInfos && r.state.changeList == l'.changeList
              && l'.calls == l.calls + r.calls
              && |BeforeStop(events)| <= |events| && r.state.place == Dispatching(events[|BeforeStop(events)|..])
              && r.state.lock == Nobody && Consistent(refused, r.state)
              && (Inv(refused, s) ==> Inv(refused, r.state))
  {
    hide Run, HandledAll, BeforeStop, Consistent, Inv;
    var steps := BatchRuns(refused, s, script, changeFd, l, s.place.batch);
    RunKeepsInv(refused, s, steps);
    assert Run(refused, s, steps).Reached?;
  }
}
