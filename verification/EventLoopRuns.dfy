/**
 The event loop as interleaved steps of the loop thread, other threads that queue changes, and
 the kernel. `epoll` is edge triggered: a descriptor is reported once after data arrived, and
 not again until more arrives. No queued change and no arrived data is ever forgotten.
 */
module EventLoopRuns {
  import opened EventLoops
  import opened Wrappers

  /** `MAXEVENTS` */
  const MAX_EVENTS: nat := 16

  datatype Owner = Nobody | Client | LoopThread

  /** Where the loop thread is; `batch` are the reported events that it has not looked at yet. */
  datatype Place =
    | Waiting
    | Dispatching(batch: seq<Entry>)
    | Draining(fd: int, batch: seq<Entry>)         // calling the handler of `fd`
    | Changing(batch: seq<Entry>)                  // about to call the change handler
    | Walking(i: nat, batch: seq<Entry>)           // at entry `i` of the change list
    | Adding(i: nat, batch: seq<Entry>)            // entry `i` is removed and not yet added again
    | DrainingNew(i: nat, batch: seq<Entry>)       // calling the handler that entry `i` added

  datatype State = State(
    place: Place,
    lock: Owner,
    changeList: seq<EventInfo>,
    counter: nat,
    eventInfos: map<int, Handler>,
    interest: set<int>,       // descriptors watched by epoll
    edges: set<Source>,       // what epoll still has to report
    readable: set<int>,       // descriptors with unread data
    hungUp: set<int>,
    history: seq<EventInfo>)  // every change that was ever queued

  /** The steps, with what the environment decides. */
  datatype Step =
    | Arrive(fd: int)
    | HangUp(fd: int)
    | TakeAll(fd: int)                  // whatever was readable is read outside of the loop
    | ClientQueues(change: EventInfo)   // another thread takes the lock and appends to the list
    | ClientNotifies                    // it writes to the eventfd and unlocks
    | Stop                              // somebody notifies the loop to stop
    | EpollWait(batch: seq<Entry>, stale: set<Source>)
    | NextEvent
    | HandlerReads(all: bool)           // a handler returns a positive value
    | HandlerIsDone                     // a handler returns because there is nothing left
    | HandlerQueues(change: EventInfo)  // a handler adds or erases an event
    | ReadCounter
    | WalkRemove
    | WalkAdd(edge: bool)               // whether epoll reports data that was there before
    | WalkEnd

  const START: State := State(Waiting, Nobody, [], 0, map[], {}, {}, {}, {}, [])

  /** Whether epoll finds something to report for a source. */
  predicate IsReady(s: State, source: Source) {
    match source
    case User(fd) => fd in s.readable || fd in s.hungUp
    case ChangeFd => s.counter > 0
    case StopFd => true
  }

  predicate Reports(s: State, entry: Entry) {
    entry.source in s.edges && (entry.hangup <==> entry.source.User? && entry.source.fd in s.hungUp)
  }

  predicate InWalk(p: Place) {
    p.Walking? || p.Adding? || p.DrainingNew?
  }

  /** The descriptor whose handler is being called */
  function Drained(s: State): Option<int> {
    if s.place.Draining? then Some(s.place.fd)
    else if s.place.DrainingNew? && s.place.i < |s.changeList| then Some(s.changeList[s.place.i].fd)
    else None
  }

  /** Whether a source is among the reported events that are still to be handled. */
  predicate InBatch(p: Place, source: Source) {
    !p.Waiting? && exists n :: 0 <= n < |p.batch| && p.batch[n].source == source
  }

  predicate Enabled(s: State, step: Step) {
    match step
    case Arrive(_) => true
    case HangUp(_) => true
    case TakeAll(_) => true
    case Stop => true
    case ClientQueues(_) => s.lock == Nobody
    case ClientNotifies => s.lock == Client
    case EpollWait(batch, stale) =>
      && s.place.Waiting? && 0 < |batch| <= MAX_EVENTS
      && (forall n :: 0 <= n < |batch| ==> Reports(s, batch[n]))
      && (forall source :: source in stale ==> !IsReady(s, source))
    case NextEvent =>
      s.place.Dispatching? && (s.place.batch != [] && QueuesRemoval(s.place.batch[0]) ==> s.lock == Nobody)
    case HandlerReads(_) => Drained(s).Some?
    case HandlerIsDone => Drained(s).Some? && Drained(s).value !in s.readable
    case HandlerQueues(_) => Drained(s).Some? && (s.lock == Nobody || s.lock == LoopThread)
    case ReadCounter => s.place.Changing? && s.lock == Nobody
    case WalkRemove => s.place.Walking? && s.place.i < |s.changeList|
    case WalkAdd(_) => s.place.Adding? && s.place.i < |s.changeList| && s.changeList[s.place.i].eventHandler.Some?
    case WalkEnd => s.place.Walking? && s.place.i == |s.changeList|
  }

  predicate QueuesRemoval(entry: Entry) {
    entry.hangup && entry.source.User?
  }

  /** The write to the eventfd; a full counter refuses it and stays positive. */
  function Notified(s: State): State {
    if s.counter < MAX_COUNTER then s.(counter := s.counter + 1, edges := s.edges + {ChangeFd}) else s
  }

  function Appended(s: State, change: EventInfo): State {
    s.(changeList := s.changeList + [change], history := s.history + [change])
  }

  /** The edge that something new at a descriptor causes if it is watched. */
  function Signal(s: State, fd: int): set<Source> {
    if fd in s.interest then s.edges + {User(fd)} else s.edges
  }

  function SourcesOf(batch: seq<Entry>): set<Source> {
    set n | 0 <= n < |batch| :: batch[n].source
  }

  /** The head of the batch is handled. */
  function AfterEvent(s: State, entry: Entry, rest: seq<Entry>): State {
    if entry.hangup then
      if entry.source.User? then
        Notified(Appended(s, EventInfo(entry.source.fd, None))).(place := Dispatching(rest))
      else s.(place := Dispatching(rest))
    else
      match entry.source
      case StopFd => s.(place := Waiting)
      case ChangeFd => s.(place := Changing(rest))
      case User(fd) => s.(place := if fd in s.eventInfos then Draining(fd, rest) else Dispatching(rest))
  }

  /** The handler that is being called returns for good. */
  function AfterDrain(p: Place): Place {
    match p
    case Draining(_, batch) => Dispatching(batch)
    case DrainingNew(i, batch) => Walking(i + 1, batch)
    case _ => p
  }

  function After(refused: set<int>, s: State, step: Step): State
    requires Enabled(s, step)
  {
    match step
    case Arrive(fd) => s.(readable := s.readable + {fd}, edges := Signal(s, fd))
    case HangUp(fd) => s.(hungUp := s.hungUp + {fd}, edges := Signal(s, fd))
    case TakeAll(fd) => s.(readable := s.readable - {fd})
    case Stop => s.(edges := s.edges + {StopFd})
    case ClientQueues(change) => Appended(s, change).(lock := Client)
    case ClientNotifies => Notified(s).(lock := Nobody)
    case EpollWait(batch, stale) => s.(place := Dispatching(batch), edges := s.edges - SourcesOf(batch) - stale)
    case NextEvent =>
      if s.place.batch == [] then s.(place := Waiting)
      else AfterEvent(s, s.place.batch[0], s.place.batch[1..])
    case HandlerReads(all) => if all then s.(readable := s.readable - {Drained(s).value}) else s
    case HandlerIsDone => s.(place := AfterDrain(s.place))
    case HandlerQueues(change) => Notified(Appended(s, change))
    case ReadCounter =>
      if s.counter == 0 then s.(place := Dispatching(s.place.batch))
      else s.(place := Walking(0, s.place.batch), lock := LoopThread, counter := 0)
    case WalkRemove =>
      var i, item := s.place.i, s.changeList[s.place.i];
      s.(interest := s.interest - {item.fd},
         edges := s.edges - {User(item.fd)},
         eventInfos := s.eventInfos - {item.fd},
         place := if item.eventHandler.Some? then Adding(i, s.place.batch) else Walking(i + 1, s.place.batch))
    case WalkAdd(edge) =>
      var i, item := s.place.i, s.changeList[s.place.i];
      var watched := item.fd !in refused;
      s.(interest := if watched then s.interest + {item.fd} else s.interest,
         edges := if watched && edge then s.edges + {User(item.fd)} else s.edges,
         eventInfos := s.eventInfos[item.fd := item.eventHandler.value],
         place := DrainingNew(i, s.place.batch))
    case WalkEnd => s.(place := Changing(s.place.batch), lock := Nobody, changeList := [])
  }

  // ---------------------------------------------------------------- invariants

  /** The entries of the change list from `i` on are still to be applied. */
  function Applied(p: Place): nat {
    match p
    case Walking(i, _) => i
    case Adding(i, _) => i
    case DrainingNew(i, _) => i + 1
    case _ => 0
  }

  predicate Placed(s: State) {
    && (InWalk(s.place) <==> s.lock == LoopThread)
    && Applied(s.place) <= |s.changeList|
    && (s.place.Adding? ==> s.place.i < |s.changeList| && s.changeList[s.place.i].eventHandler.Some?)
    && (s.place.Draining? ==> s.place.fd in s.eventInfos)
    && (!s.place.Waiting? ==>
          forall n :: 0 <= n < |s.place.batch| && s.place.batch[n].hangup ==>
            s.place.batch[n].source.User? && s.place.batch[n].source.fd in s.hungUp)
  }

  /** A change waits for its turn. */
  predicate IsQueued(s: State, fd: int) {
    exists j :: Applied(s.place) <= j < |s.changeList| && s.changeList[j].fd == fd
  }

  /** While nobody holds the lock a queued change is counted. */
  predicate ChangesAreCounted(s: State) {
    s.lock == Nobody && s.changeList != [] ==> s.counter > 0
  }

  /** A counted change reaches the loop. */
  predicate CountIsNoticed(s: State) {
    s.counter > 0 ==> ChangeFd in s.edges || InBatch(s.place, ChangeFd) || s.place.Changing? || InWalk(s.place)
  }

  /** The handlers, with what is still queued applied, are those that all requests so far ask for. */
  predicate HandlersAreLatest(s: State) {
    Applied(s.place) <= |s.changeList| &&
    ApplyAll(s.eventInfos, s.changeList[Applied(s.place)..]) == ApplyAll(map[], s.history)
  }

  predicate InterestMatches(refused: set<int>, s: State) {
    s.interest == s.eventInfos.Keys - refused
  }

  /**
   Data of a watched descriptor is reported, about to be handled or being read, or it hung up and its change
   is queued.
   */
  predicate Covered(s: State, fd: int) {
    || User(fd) in s.edges
    || InBatch(s.place, User(fd))
    || Drained(s) == Some(fd)
    || (fd in s.hungUp && IsQueued(s, fd))
  }

  predicate NoLostReadiness(s: State) {
    forall fd :: fd in s.interest && fd in s.readable ==> Covered(s, fd)
  }

  /** What holds in every run */
  predicate Consistent(refused: set<int>, s: State) {
    Placed(s) && ChangesAreCounted(s) && HandlersAreLatest(s) && InterestMatches(refused, s)
  }

  predicate Inv(refused: set<int>, s: State) {
    Consistent(refused, s) && CountIsNoticed(s) && NoLostReadiness(s)
  }

  /** The loop is about to return because of the stop notification; the rest of the batch is dropped. */
  predicate MeetsStop(s: State) {
    s.place.Dispatching? && s.place.batch != [] && IsStop(s.place.batch[0])
  }

  /** Every change and all data whose event is dropped is reported once more. */
  predicate DropsNothing(s: State)
    requires MeetsStop(s)
  {
    && (s.counter > 0 ==> ChangeFd in s.edges)
    && forall fd ::
         fd in s.interest && fd in s.readable && InBatch(Dispatching(s.place.batch[1..]), User(fd)) ==>
           User(fd) in s.edges || (fd in s.hungUp && IsQueued(s, fd))
  }

  /** The only step that forgets something */
  predicate Forgets(s: State, step: Step) {
    step.NextEvent? && MeetsStop(s) && !DropsNothing(s)
  }

  lemma StartIsFine(refused: set<int>)
    ensures Inv(refused, START)
  {
  }

  lemma StepKeepsPlaced(refused: set<int>, s: State, step: Step)
    requires Placed(s) && Enabled(s, step)
    ensures Placed(After(refused, s, step))
  {
  }

  lemma StepKeepsInterest(refused: set<int>, s: State, step: Step)
    requires Placed(s) && InterestMatches(refused, s) && Enabled(s, step)
    ensures InterestMatches(refused, After(refused, s, step))
  {
  }

  lemma InBatchTail(p: Place, p': Place, source: Source)
    requires !p.Waiting? && !p'.Waiting? && p.batch != [] && p'.batch == p.batch[1..]
    requires InBatch(p, source) && p.batch[0].source != source
    ensures InBatch(p', source)
  {
    var n :| 0 <= n < |p.batch| && p.batch[n].source == source;
    assert p'.batch[n - 1].source == source;
  }

  lemma SameBatch(p: Place, p': Place, source: Source)
    requires !p.Waiting? && !p'.Waiting? && p'.batch == p.batch && InBatch(p, source)
    ensures InBatch(p', source)
  {
    var n :| 0 <= n < |p.batch| && p.batch[n].source == source;
    assert p'.batch[n].source == source;
  }

  lemma ReportedIsInBatch(edges: set<Source>, stale: set<Source>, batch: seq<Entry>, source: Source)
    requires source in edges && source !in stale
    ensures source in edges - SourcesOf(batch) - stale || InBatch(Dispatching(batch), source)
  {
    if source in SourcesOf(batch) {
      var n :| 0 <= n < |batch| && batch[n].source == source;
      assert Dispatching(batch).batch[n].source == source;
    }
  }

  /** A reported event stays in the batch until it is its turn. */
  lemma BatchStep(refused: set<int>, s: State, step: Step, source: Source)
    requires Placed(s) && Enabled(s, step) && InBatch(s.place, source) && !(step.NextEvent? && MeetsStop(s))
    ensures InBatch(After(refused, s, step).place, source)
         || (step.NextEvent? && s.place.batch != [] && s.place.batch[0].source == source)
  {
    var p, p' := s.place, After(refused, s, step).place;
    if !step.NextEvent? {
      SameBatch(p, p', source);
    } else if p.batch[0].source != source {
      InBatchTail(p, p', source);
    }
  }

  lemma StepKeepsCount(refused: set<int>, s: State, step: Step)
    requires Placed(s) && ChangesAreCounted(s) && Enabled(s, step)
    ensures ChangesAreCounted(After(refused, s, step))
  {
    hide InBatch, SourcesOf;
  }

  lemma StepKeepsNotice(refused: set<int>, s: State, step: Step)
    requires Placed(s) && CountIsNoticed(s) && Enabled(s, step) && !(step.NextEvent? && MeetsStop(s))
    ensures CountIsNoticed(After(refused, s, step))
  {
    hide InBatch, SourcesOf;
    if s.counter > 0 {
      if InBatch(s.place, ChangeFd) {
        BatchStep(refused, s, step, ChangeFd);
      }
      if step.EpollWait? && ChangeFd in s.edges {
        ReportedIsInBatch(s.edges, step.stale, step.batch, ChangeFd);
      }
    }
  }

  /** The table and the changes that are still queued, after one more change is queued */
  lemma QueueOne(s: State, change: EventInfo)
    requires HandlersAreLatest(s)
    ensures HandlersAreLatest(Appended(s, change))
  {
    hide ApplyAll;
    var left := s.changeList[Applied(s.place)..];
    assert Appended(s, change).changeList[Applied(s.place)..] == left + [change];
    ApplyAllAppend(s.eventInfos, left, [change]);
    ApplyAllAppend(map[], s.history, [change]);
    ApplyAllOne(ApplyAll(s.eventInfos, left), change);
  }

  /** Applying the first of the queued changes */
  lemma ApplyFirst(infos: map<int, Handler>, changes: seq<EventInfo>)
    requires changes != []
    ensures ApplyAll(Apply(infos, changes[0]), changes[1..]) == ApplyAll(infos, changes)
  {
    hide ApplyAll;
    assert changes == [changes[0]] + changes[1..];
    ApplyAllAppend(infos, [changes[0]], changes[1..]);
    ApplyAllOne(infos, changes[0]);
  }

  lemma WalkKeepsHandlers(refused: set<int>, s: State, step: Step)
    requires Placed(s) && HandlersAreLatest(s) && Enabled(s, step) && (step.WalkRemove? || step.WalkAdd?)
    ensures HandlersAreLatest(After(refused, s, step))
  {
    hide ApplyAll, SourcesOf;
    var i, s' := s.place.i, After(refused, s, step);
    var left := s.changeList[i..];
    var item := left[0];
    assert s.changeList[i + 1..] == left[1..];
    ApplyFirst(s.eventInfos, left);
    if step.WalkAdd? || item.eventHandler.None? {
      assert s'.eventInfos == Apply(s.eventInfos, item);
    } else {
      ApplyFirst(s.eventInfos - {item.fd}, left);
      assert Apply(s.eventInfos - {item.fd}, item) == Apply(s.eventInfos, item);
    }
  }

  lemma StepKeepsHandlers(refused: set<int>, s: State, step: Step)
    requires Placed(s) && HandlersAreLatest(s) && Enabled(s, step)
    ensures HandlersAreLatest(After(refused, s, step))
  {
    hide ApplyAll, Apply, SourcesOf;
    if step.WalkRemove? || step.WalkAdd? {
      WalkKeepsHandlers(refused, s, step);
    } else if step.ClientQueues? || step.HandlerQueues? {
      QueueOne(s, step.change);
    } else if step.NextEvent? && s.place.batch != [] && QueuesRemoval(s.place.batch[0]) {
      QueueOne(s, EventInfo(s.place.batch[0].source.fd, None));
    } else if step.WalkEnd? {
      assert s.changeList[s.place.i..] == [];
    }
  }

  lemma StillQueued(refused: set<int>, s: State, step: Step, fd: int)
    requires Placed(s) && Enabled(s, step) && IsQueued(s, fd)
    ensures var s' := After(refused, s, step);
            IsQueued(s', fd) || fd !in s'.interest || Drained(s') == Some(fd)
  {
    hide SourcesOf;
    var s' := After(refused, s, step);
    var j :| Applied(s.place) <= j < |s.changeList| && s.changeList[j].fd == fd;
    if step != WalkEnd && Applied(s'.place) <= j {
      assert s'.changeList[j].fd == fd;
    }
  }

  lemma StepKeepsReadiness(refused: set<int>, s: State, step: Step)
    requires Placed(s) && InterestMatches(refused, s) && NoLostReadiness(s)
    requires Enabled(s, step) && !(step.NextEvent? && MeetsStop(s))
    ensures NoLostReadiness(After(refused, s, step))
  {
    var s' := After(refused, s, step);
    forall fd | fd in s'.interest && fd in s'.readable ensures Covered(s', fd) {
      StaysCovered(refused, s, step, fd);
    }
  }

  lemma StaysCovered(refused: set<int>, s: State, step: Step, fd: int)
    requires Placed(s) && InterestMatches(refused, s) && Enabled(s, step) && !(step.NextEvent? && MeetsStop(s))
    requires fd in s.interest && fd in s.readable ==> Covered(s, fd)
    requires fd in After(refused, s, step).interest && fd in After(refused, s, step).readable
    ensures Covered(After(refused, s, step), fd)
  {
    hide InBatch, SourcesOf, IsQueued;
    var s' := After(refused, s, step);
    if fd in s.interest && fd in s.readable {
      if fd in s.hungUp && IsQueued(s, fd) {
        StillQueued(refused, s, step, fd);
      } else if InBatch(s.place, User(fd)) {
        BatchStep(refused, s, step, User(fd));
        if step.NextEvent? && s.place.batch != [] && s.place.batch[0] == Entry(User(fd), true) {
          RemovalIsQueued(s, s', fd);
        }
      } else if step.EpollWait? && User(fd) in s.edges {
        ReportedIsInBatch(s.edges, step.stale, step.batch, User(fd));
      }
    }
  }

  lemma RemovalIsQueued(s: State, s': State, fd: int)
    requires s'.changeList == s.changeList + [EventInfo(fd, None)] && Applied(s'.place) == 0
    ensures IsQueued(s', fd)
  {
    assert s'.changeList[|s.changeList|].fd == fd;
  }

  // ---------------------------------------------------------------- runs

  /** States that follow one another by the given steps. */
  ghost predicate IsRun(refused: set<int>, states: seq<State>, steps: seq<Step>) {
    && |states| == |steps| + 1 && states[0] == START
    && forall n :: 0 <= n < |steps| ==>
        Enabled(states[n], steps[n]) && states[n + 1] == After(refused, states[n], steps[n])
  }

  lemma StepKeepsConsistency(refused: set<int>, s: State, step: Step)
    requires Consistent(refused, s) && Enabled(s, step)
    ensures Consistent(refused, After(refused, s, step))
  {
    hide Enabled, After, Placed, ChangesAreCounted, HandlersAreLatest, InterestMatches;
    StepKeepsPlaced(refused, s, step);
    StepKeepsCount(refused, s, step);
    StepKeepsHandlers(refused, s, step);
    StepKeepsInterest(refused, s, step);
  }

  /**
   At any point of any run a queued change is counted while the lock is free, the handlers with
   the queued changes applied are what all requests so far ask for, and epoll watches them.
   */
  lemma {:induction false} RunsAreConsistent(refused: set<int>, states: seq<State>, steps: seq<Step>, n: nat)
    requires IsRun(refused, states, steps) && n < |states|
    ensures Consistent(refused, states[n])
  {
    if n == 0 {
      StartIsFine(refused);
    } else {
      hide Enabled, After, Consistent;
      RunsAreConsistent(refused, states, steps, n - 1);
      StepKeepsConsistency(refused, states[n - 1], steps[n - 1]);
    }
  }

  /** A step keeps everything exactly if it does not forget. */
  lemma StepKeepsInvIff(refused: set<int>, s: State, step: Step)
    requires Inv(refused, s) && Enabled(s, step)
    ensures Inv(refused, After(refused, s, step)) <==> !Forgets(s, step)
  {
    StepKeepsConsistency(refused, s, step);
    if step.NextEvent? && MeetsStop(s) {
      StopKeepsInvIff(refused, s);
    } else {
      hide Enabled, After, Placed, ChangesAreCounted, HandlersAreLatest, InterestMatches, CountIsNoticed;
      hide NoLostReadiness;
      StepKeepsNotice(refused, s, step);
      StepKeepsReadiness(refused, s, step);
    }
  }

  /** In a run nothing is lost up to some point exactly if no step before it forgets. */
  lemma {:induction false} RunsLoseNothingIff(refused: set<int>, states: seq<State>, steps: seq<Step>, n: nat)
    requires IsRun(refused, states, steps) && n < |states|
    ensures (forall m :: 0 <= m <= n ==> Inv(refused, states[m])) <==>
              (forall k :: 0 <= k < n ==> !Forgets(states[k], steps[k]))
  {
    hide Enabled, After, Forgets, Inv;
    if n == 0 {
      StartIsFine(refused);
    } else {
      RunsLoseNothingIff(refused, states, steps, n - 1);
      if Inv(refused, states[n - 1]) {
        StepKeepsInvIff(refused, states[n - 1], steps[n - 1]);
        assert Inv(refused, states[n]) <==> !Forgets(states[n - 1], steps[n - 1]);
      }
      forall m | 0 <= m <= n && !Inv(refused, states[m])
        ensures exists k :: 0 <= k < n && Forgets(states[k], steps[k])
      {
      }
    }
  }

  /** No change and no readiness is lost at a point of a run if no step before it forgets. */
  lemma RunsLoseNothing(refused: set<int>, states: seq<State>, steps: seq<Step>, n: nat)
    requires IsRun(refused, states, steps) && n < |states|
    requires forall k :: 0 <= k < n ==> !Forgets(states[k], steps[k])
    ensures Inv(refused, states[n])
  {
    hide IsRun, Inv, Forgets;
    RunsLoseNothingIff(refused, states, steps, n);
  }

  /** Whenever nothing is queued the handlers and what epoll watches are what all requests so far ask for. */
  lemma AppliedWhenQuiet(refused: set<int>, s: State)
    requires Consistent(refused, s) && s.changeList == []
    ensures !s.place.Adding? && !s.place.DrainingNew?
    ensures s.eventInfos == ApplyAll(map[], s.history) && s.interest == s.eventInfos.Keys - refused
  {
    assert s.changeList[Applied(s.place)..] == [];
  }

  /** A loop that waits while there is a change to apply or data to read has something to wake up for. */
  lemma WaitingLoopWakesUp(refused: set<int>, s: State, fd: int)
    requires Inv(refused, s) && s.place.Waiting? && s.lock == Nobody
    requires s.changeList != [] || (fd in s.interest && fd in s.readable)
    ensures exists entry :: Enabled(s, EpollWait([entry], {})) && IsReady(s, entry.source)
  {
    if s.changeList != [] {
      var entry := Entry(ChangeFd, false);
      assert Enabled(s, EpollWait([entry], {})) && IsReady(s, entry.source);
    } else {
      assert Covered(s, fd);
      var entry := Entry(User(fd), fd in s.hungUp);
      assert Enabled(s, EpollWait([entry], {})) && IsReady(s, entry.source);
    }
  }

  // ---------------------------------------------------------------- what the stop notification drops

  /** A counted change is still noticed after the stop exactly if it is reported once more. */
  lemma StopKeepsChangesIff(refused: set<int>, s: State)
    requires MeetsStop(s)
    ensures Enabled(s, NextEvent)
    ensures CountIsNoticed(After(refused, s, NextEvent)) <==> (s.counter > 0 ==> ChangeFd in s.edges)
  {
  }

  /** Data is still covered after the stop exactly if its event was not dropped, or is reported once more. */
  lemma StopKeepsReadinessIff(refused: set<int>, s: State)
    requires NoLostReadiness(s) && MeetsStop(s)
    ensures NoLostReadiness(After(refused, s, NextEvent)) <==>
              forall fd ::
                fd in s.interest && fd in s.readable && InBatch(Dispatching(s.place.batch[1..]), User(fd)) ==>
                  User(fd) in s.edges || (fd in s.hungUp && IsQueued(s, fd))
  {
    var s' := After(refused, s, NextEvent);
    forall fd ensures Covered(s', fd) <==> User(fd) in s.edges || (fd in s.hungUp && IsQueued(s, fd)) {
      assert IsQueued(s', fd) <==> IsQueued(s, fd);
    }
    forall fd | fd in s.interest && fd in s.readable
      ensures || User(fd) in s.edges
              || (fd in s.hungUp && IsQueued(s, fd))
              || InBatch(Dispatching(s.place.batch[1..]), User(fd))
    {
      assert Covered(s, fd);
      if InBatch(s.place, User(fd)) {
        InBatchTail(s.place, Dispatching(s.place.batch[1..]), User(fd));
      }
    }
  }

  /**
   Leaving the loop at the stop notification keeps everything exactly if it drops nothing that is not
   reported again.
   */
  lemma StopKeepsInvIff(refused: set<int>, s: State)
    requires Inv(refused, s) && MeetsStop(s)
    ensures Enabled(s, NextEvent)
    ensures Inv(refused, After(refused, s, NextEvent)) <==> DropsNothing(s)
  {
    StepKeepsConsistency(refused, s, NextEvent);
    StopKeepsChangesIff(refused, s);
    StopKeepsReadinessIff(refused, s);
    hide Consistent, After, CountIsNoticed, NoLostReadiness;
  }

  ghost predicate Reachable(refused: set<int>, s: State) {
    exists states, steps :: IsRun(refused, states, steps) && states[|steps|] == s
  }

  lemma StartIsReachable(refused: set<int>)
    ensures Reachable(refused, START)
  {
    var none: seq<Step> := [];
    assert IsRun(refused, [START], none) && [START][|none|] == START;
  }

  lemma ReachNext(refused: set<int>, s: State, step: Step) returns (s': State)
    requires Reachable(refused, s) && Enabled(s, step)
    ensures s' == After(refused, s, step) && Reachable(refused, s')
  {
    hide Enabled, After;
    s' := After(refused, s, step);
    var states, steps :| IsRun(refused, states, steps) && states[|steps|] == s;
    assert IsRun(refused, states + [s'], steps + [step]) && (states + [s'])[|steps| + 1] == s';
  }

  lemma OneSource(entry: Entry)
    ensures SourcesOf([entry]) == {entry.source}
  {
    assert [entry][0] == entry;
  }

  lemma TwoSources(a: Entry, b: Entry)
    ensures SourcesOf([a, b]) == {a.source, b.source}
  {
    assert [a, b][0] == a && [a, b][1] == b;
  }

  /** A descriptor is queued and the loop finds out. */
  lemma QueueFive() returns (s: State)
    ensures var add := EventInfo(5, Some(0));
            s == State(Walking(0, []), LoopThread, [add], 0, map[], {}, {}, {}, {}, [add]) && Reachable({}, s)
  {
    hide Reachable, SourcesOf;
    var entry := Entry(ChangeFd, false);
    StartIsReachable({});
    s := ReachNext({}, START, ClientQueues(EventInfo(5, Some(0))));
    s := ReachNext({}, s, ClientNotifies);
    s := ReachNext({}, s, EpollWait([entry], {}));
    OneSource(entry);
    assert [entry][1..] == [];
    s := ReachNext({}, s, NextEvent);
    s := ReachNext({}, s, ReadCounter);
    assert s.edges == {};
  }

  /** The descriptor is added and the loop goes back to wait. */
  lemma WatchFive() returns (s: State)
    ensures s == State(Waiting, Nobody, [], 0, map[5 := 0], {5}, {}, {}, {}, [EventInfo(5, Some(0))])
            && Reachable({}, s)
  {
    hide Reachable, SourcesOf;
    s := QueueFive();
    s := ReachNext({}, s, WalkRemove);
    s := ReachNext({}, s, WalkAdd(false));
    s := ReachNext({}, s, HandlerIsDone);
    s := ReachNext({}, s, WalkEnd);
    s := ReachNext({}, s, ReadCounter);
    s := ReachNext({}, s, NextEvent);
  }

  /** Nothing is reported any more, and nobody is about to notify the loop. */
  predicate Sleeps(s: State) {
    s.place.Waiting? && s.lock == Nobody && s.edges == {}
  }

  /** Data arrives and a stop is requested at the same time. */
  lemma StopBeforeFive() returns (s: State)
    ensures Reachable({}, s) && Sleeps(s) && 5 in s.interest && 5 in s.readable && !Covered(s, 5)
  {
    hide Reachable, SourcesOf;
    var stop, five := Entry(StopFd, false), Entry(User(5), false);
    s := WatchFive();
    s := ReachNext({}, s, Stop);
    s := ReachNext({}, s, Arrive(5));
    s := ReachNext({}, s, EpollWait([stop, five], {}));
    TwoSources(stop, five);
    s := ReachNext({}, s, NextEvent);
    assert s.edges == {};
  }

  /** A run that ends with data at a watched descriptor that nothing will ever report. */
  lemma StopCanLoseReadiness()
    ensures exists s :: Reachable({}, s) && Sleeps(s) && 5 in s.interest && 5 in s.readable && !Covered(s, 5)
  {
    var s := StopBeforeFive();
  }

  /** A change is queued and a stop is requested at the same time. */
  lemma StopBeforeChange() returns (s: State)
    ensures Reachable({}, s) && Sleeps(s) && s.changeList != [] && s.counter > 0
  {
    hide Reachable, SourcesOf;
    var stop, change := Entry(StopFd, false), Entry(ChangeFd, false);
    StartIsReachable({});
    s := ReachNext({}, START, ClientQueues(EventInfo(5, Some(0))));
    s := ReachNext({}, s, ClientNotifies);
    s := ReachNext({}, s, Stop);
    s := ReachNext({}, s, EpollWait([stop, change], {}));
    TwoSources(stop, change);
    s := ReachNext({}, s, NextEvent);
    assert s.edges == {};
  }

  /** A run that ends with a queued change that the loop does not notice until somebody queues again. */
  lemma StopCanLoseChange()
    ensures exists s :: Reachable({}, s) && Sleeps(s) && s.changeList != [] && s.counter > 0
  {
    var s := StopBeforeChange();
  }
}
