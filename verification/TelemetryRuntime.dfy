/** Persisting telemetry while calls keep coming in (runtime.go). Callers record calls and
    queue their events; one flush at a time (a mutex sees to that) takes the queue and saves
    it and the totals. Every action below is one critical section or one store operation,
    so a sequence of actions is any interleaving of callers and flushes, with any save
    failing. A save that fails is taken to have had no effect. */
module TelemetryRuntime {
  import opened CallCounters
  import opened Common
  import Tracker

  /** A queued event; `no` is its place in the order of enqueueing. */
  datatype Event = Event(no: nat, call: Call)

  /** Where the running flush stands, with the locals it carries. */
  datatype Flush =
    | Idle
    | Began(revision: nat)
    | Taken(revision: nat, hadPersisted: bool, last: nat, events: seq<Event>)
    | EventsSaved(revision: nat, hadPersisted: bool, last: nat)
    | Snapped(revision: nat, snapshot: Tracker.Cumulative, at: nat)
    | SnapshotSaved(revision: nat)

  datatype State = State(
    // the runtime and its tracker
    tracker: Tracker.State, hasPersisted: bool, lastRevision: nat, pending: seq<Event>, flush: Flush,
    // what the store holds
    persisted: seq<Event>, saved: Option<Tracker.Cumulative>, savedAt: nat,
    // history: totals by revision, calls recorded but not queued yet, all queued events, and
    // how many of them overflowed
    history: seq<Tracker.Cumulative>, unqueued: multiset<Call>, recorded: seq<Call>,
    enqueued: seq<Event>, lost: nat)

  datatype Action =
    | Record(call: Call)
    | Enqueue(queued: Call)
    | FlushBegin
    | FlushTake
    | FlushSkip                        // nothing to save: return
    | FlushSaveEvents(eventsOk: bool)
    | FlushNoEvents
    | FlushTotalsSaved                 // totals are saved already: return
    | FlushSnapshot
    | FlushSaveSnapshot(snapshotOk: bool)
    | FlushCommit

  /** Keeps the newest `cap` events. */
  function KeepNewest(events: seq<Event>, cap: nat): seq<Event> {
    if |events| > cap then events[|events| - cap..] else events
  }

  function Overflow(n: nat, cap: nat): nat {
    if n > cap then n - cap else 0
  }

  predicate Enabled(s: State, a: Action) {
    match a
    case Record(_) => true
    case Enqueue(call) => call in s.unqueued
    case FlushBegin => s.flush.Idle?
    case FlushTake => s.flush.Began?
    case FlushSkip => s.flush.Taken? && s.flush.events == [] && s.flush.hadPersisted && s.flush.revision == s.flush.last
    case FlushSaveEvents(_) => s.flush.Taken? && s.flush.events != []
    case FlushNoEvents =>
      s.flush.Taken? && s.flush.events == [] && !(s.flush.hadPersisted && s.flush.revision == s.flush.last)
    case FlushTotalsSaved => s.flush.EventsSaved? && s.flush.hadPersisted && s.flush.revision == s.flush.last
    case FlushSnapshot => s.flush.EventsSaved? && !(s.flush.hadPersisted && s.flush.revision == s.flush.last)
    case FlushSaveSnapshot(_) => s.flush.Snapped?
    case FlushCommit => s.flush.SnapshotSaved?
  }

  function Apply(s: State, a: Action, cap: nat): State
    requires Enabled(s, a)
  {
    match a
    case Record(call) =>
      var tracker := Tracker.RecordStep(s.tracker, call);
      s.(tracker := tracker, history := s.history + [tracker.cumulative],
         unqueued := s.unqueued + multiset{call}, recorded := s.recorded + [call])
    case Enqueue(call) =>
      var event := Event(|s.enqueued|, call);
      s.(pending := KeepNewest(s.pending + [event], cap), enqueued := s.enqueued + [event],
         unqueued := s.unqueued - multiset{call}, lost := s.lost + Overflow(|s.pending| + 1, cap))
    case FlushBegin => s.(flush := Began(s.tracker.revision))
    case FlushTake =>
      s.(flush := Taken(s.flush.revision, s.hasPersisted, s.lastRevision, s.pending), pending := [])
    case FlushSkip => s.(flush := Idle)
    case FlushSaveEvents(ok) =>
      if ok then
        s.(persisted := s.persisted + s.flush.events,
           flush := EventsSaved(s.flush.revision, s.flush.hadPersisted, s.flush.last))
      else
        s.(pending := KeepNewest(s.flush.events + s.pending, cap), flush := Idle,
           lost := s.lost + Overflow(|s.flush.events| + |s.pending|, cap))
    case FlushNoEvents => s.(flush := EventsSaved(s.flush.revision, s.flush.hadPersisted, s.flush.last))
    case FlushTotalsSaved => s.(flush := Idle)
    case FlushSnapshot =>
      s.(flush := Snapped(s.flush.revision, Tracker.Reported(s.tracker.cumulative), s.tracker.revision))
    case FlushSaveSnapshot(ok) =>
      if ok then s.(saved := Some(s.flush.snapshot), savedAt := s.flush.at, flush := SnapshotSaved(s.flush.revision))
      else s.(flush := Idle)
    case FlushCommit => s.(hasPersisted := true, lastRevision := s.flush.revision, flush := Idle)
  }

  /** Startup: the tracker holds what the store held; nothing is known to be saved. */
  function Init(restored: Tracker.Cumulative): State {
    var tracker := Tracker.Restored(restored);
    State(tracker, false, 0, [], Idle, [], None, 0, [tracker.cumulative], multiset{}, [], [], 0)
  }

  ghost predicate Run(states: seq<State>, actions: seq<Action>, restored: Tracker.Cumulative, cap: nat) {
    |states| == |actions| + 1 && states[0] == Init(restored)
    && forall i :: 0 <= i < |actions| ==> Enabled(states[i], actions[i]) && states[i + 1] == Apply(states[i], actions[i], cap)
  }

  // ----- totals -----

  /** Revision the running flush has read, if any. */
  function Reading(f: Flush): Option<nat> {
    if f.Idle? then None else Some(f.revision)
  }

  ghost predicate TotalsInv(s: State) {
    |s.history| == s.tracker.revision + 1 && s.history[s.tracker.revision] == s.tracker.cumulative
    && (s.saved.Some? ==> s.savedAt <= s.tracker.revision && s.saved.value == Tracker.Reported(s.history[s.savedAt]))
    && (s.hasPersisted ==> s.saved.Some? && s.lastRevision <= s.savedAt)
    && (Reading(s.flush).Some? ==> s.lastRevision <= s.flush.revision <= s.tracker.revision)
    && (s.flush.Taken? || s.flush.EventsSaved? ==> s.flush.hadPersisted == s.hasPersisted && s.flush.last == s.lastRevision)
    && (s.flush.Snapped? ==> s.flush.revision <= s.flush.at <= s.tracker.revision)
    && (s.flush.Snapped? ==> s.flush.snapshot == Tracker.Reported(s.history[s.flush.at]))
    && (s.flush.SnapshotSaved? ==> s.saved.Some? && s.flush.revision <= s.savedAt)
    && (!s.hasPersisted ==> s.lastRevision == 0)
  }

  lemma TotalsStep(s: State, a: Action, cap: nat)
    requires TotalsInv(s) && Enabled(s, a)
    ensures TotalsInv(Apply(s, a, cap))
  {}

  lemma {:induction false} TotalsAlways(states: seq<State>, actions: seq<Action>, restored: Tracker.Cumulative,
                                        cap: nat, i: nat)
    requires Run(states, actions, restored, cap) && i < |states|
    ensures TotalsInv(states[i])
  {
    if i > 0 {
      TotalsAlways(states, actions, restored, cap, i - 1);
      TotalsStep(states[i - 1], actions[i - 1], cap);
    }
  }

  /** Whenever the persisted revision is the tracker's, the store holds the current totals. */
  lemma PersistedRevisionMeansSaved(states: seq<State>, actions: seq<Action>, restored: Tracker.Cumulative,
                                    cap: nat, i: nat)
    requires Run(states, actions, restored, cap) && i < |states|
    requires states[i].hasPersisted && states[i].lastRevision == states[i].tracker.revision
    ensures states[i].saved == Some(Tracker.Reported(states[i].tracker.cumulative))
  {
    TotalsAlways(states, actions, restored, cap, i);
  }

  /** The actions by which a flush returns without an error. */
  predicate Succeeds(a: Action) {
    a in {FlushSkip, FlushTotalsSaved, FlushCommit}
  }

  /** The actions that belong to a flush already running. */
  predicate Continues(a: Action) {
    !a.FlushBegin?
  }

  lemma {:induction false} FlushKeepsRevision(states: seq<State>, actions: seq<Action>, restored: Tracker.Cumulative,
                                              cap: nat, b: nat, j: nat)
    requires Run(states, actions, restored, cap) && b < j < |states| && actions[b] == FlushBegin
    requires forall k :: b <= k < j ==> k == b || (Continues(actions[k]) && !states[k].flush.Idle?)
    ensures states[j].flush.Idle? || states[j].flush.revision == states[b].tracker.revision
    decreases j
  {
    if j > b + 1 {
      FlushKeepsRevision(states, actions, restored, cap, b, j - 1);
    }
  }

  /** A flush that returns without an error leaves totals in the store that include every
      call recorded before the flush began, also when it skips the save. */
  lemma FlushSavesEarlierCalls(states: seq<State>, actions: seq<Action>, restored: Tracker.Cumulative,
                               cap: nat, b: nat, e: nat)
    requires Run(states, actions, restored, cap) && b < e < |actions| && actions[b] == FlushBegin
    requires forall k :: b < k <= e ==> Continues(actions[k]) && !states[k].flush.Idle?
    requires Succeeds(actions[e])
    ensures var end := states[e + 1];
      end.saved.Some? && states[b].tracker.revision <= end.savedAt < |end.history|
      && end.saved.value == Tracker.Reported(end.history[end.savedAt])
  {
    FlushKeepsRevision(states, actions, restored, cap, b, e);
    TotalsAlways(states, actions, restored, cap, e);
    TotalsAlways(states, actions, restored, cap, e + 1);
  }

  // ----- events -----

  function InFlight(s: State): seq<Event> {
    if s.flush.Taken? then s.flush.events else []
  }

  /** The events not lost, oldest first. */
  function Kept(s: State): seq<Event> {
    s.persisted + InFlight(s) + s.pending
  }

  function Calls(events: seq<Event>): seq<Call> {
    seq(|events|, i requires 0 <= i < |events| => events[i].call)
  }

  ghost predicate Selection(kept: seq<Event>, enqueued: seq<Event>) {
    (forall i :: 0 <= i < |kept| ==> kept[i].no < |enqueued| && enqueued[kept[i].no] == kept[i])
    && forall i, j :: 0 <= i < j < |kept| ==> kept[i].no < kept[j].no
  }

  ghost predicate EventsInv(s: State, cap: nat) {
    Selection(Kept(s), s.enqueued) && |s.pending| <= cap && |InFlight(s)| <= cap
    && |Kept(s)| + s.lost == |s.enqueued|
    && (forall i :: 0 <= i < |s.enqueued| ==> s.enqueued[i].no == i)
    && multiset(s.recorded) == s.unqueued + multiset(Calls(s.enqueued))
  }

  lemma SelectionDrops(a: seq<Event>, dropped: seq<Event>, b: seq<Event>, enqueued: seq<Event>)
    requires Selection(a + dropped + b, enqueued)
    ensures Selection(a + b, enqueued)
  {
    var whole, d := a + dropped + b, |dropped|;
    forall i | 0 <= i < |a + b| ensures (a + b)[i] == whole[if i < |a| then i else i + d] {}
  }

  lemma KeepNewestSplits(events: seq<Event>, cap: nat)
    ensures events == events[..Overflow(|events|, cap)] + KeepNewest(events, cap)
    ensures |KeepNewest(events, cap)| <= cap && |events| == |KeepNewest(events, cap)| + Overflow(|events|, cap)
  {}

  lemma SelectionMore(kept: seq<Event>, enqueued: seq<Event>, call: Call)
    requires Selection(kept, enqueued)
    ensures var event := Event(|enqueued|, call); Selection(kept + [event], enqueued + [event])
  {}

  lemma CallsMore(events: seq<Event>, event: Event)
    ensures Calls(events + [event]) == Calls(events) + [event.call]
  {}

  lemma SameInFlight(s: State, t: State)
    requires s.flush == t.flush
    ensures InFlight(s) == InFlight(t)
  {}

  lemma EnqueueStep(s: State, call: Call, cap: nat)
    requires EventsInv(s, cap) && call in s.unqueued
    ensures EventsInv(Apply(s, Enqueue(call), cap), cap)
  {
    hide Selection, KeepNewest, Overflow, Calls, InFlight;
    var s' := Apply(s, Enqueue(call), cap);
    var event := Event(|s.enqueued|, call);
    var head, queue := s.persisted + InFlight(s), s.pending + [event];
    KeepNewestSplits(queue, cap);
    SelectionMore(Kept(s), s.enqueued, call);
    assert Kept(s) + [event] == head + queue;
    SameInFlight(s, s');
    assert Kept(s') == head + KeepNewest(queue, cap);
    assert head + queue == head + queue[..Overflow(|queue|, cap)] + KeepNewest(queue, cap);
    SelectionDrops(head, queue[..Overflow(|queue|, cap)], KeepNewest(queue, cap), s'.enqueued);
    CallsMore(s.enqueued, event);
  }

  lemma RequeueStep(s: State, cap: nat)
    requires EventsInv(s, cap) && Enabled(s, FlushSaveEvents(false))
    ensures EventsInv(Apply(s, FlushSaveEvents(false), cap), cap)
  {
    hide Selection, KeepNewest, Overflow, Calls;
    var queue := s.flush.events + s.pending;
    KeepNewestSplits(queue, cap);
    assert Kept(s) == s.persisted + queue;
    assert s.persisted + queue == s.persisted + queue[..Overflow(|queue|, cap)] + KeepNewest(queue, cap);
    SelectionDrops(s.persisted, queue[..Overflow(|queue|, cap)], KeepNewest(queue, cap), s.enqueued);
    assert Kept(Apply(s, FlushSaveEvents(false), cap)) == s.persisted + KeepNewest(queue, cap);
  }

  lemma EventsStep(s: State, a: Action, cap: nat)
    requires EventsInv(s, cap) && Enabled(s, a)
    ensures EventsInv(Apply(s, a, cap), cap)
  {
    match a
    case Enqueue(call) => EnqueueStep(s, call, cap);
    case FlushSaveEvents(ok) =>
      if ok {
        assert Kept(Apply(s, a, cap)) == Kept(s);
      } else {
        RequeueStep(s, cap);
      }
    case Record(call) =>
      assert Kept(Apply(s, a, cap)) == Kept(s);
    case _ =>
      assert Kept(Apply(s, a, cap)) == Kept(s);
  }

  lemma {:induction false} EventsAlways(states: seq<State>, actions: seq<Action>, restored: Tracker.Cumulative,
                                        cap: nat, i: nat)
    requires Run(states, actions, restored, cap) && i < |states|
    ensures EventsInv(states[i], cap)
  {
    if i > 0 {
      EventsAlways(states, actions, restored, cap, i - 1);
      EventsStep(states[i - 1], actions[i - 1], cap);
    } else {
      assert Calls([]) == [];
    }
  }

  /** The action drops events: the queue, with what is put back into it, passes the cap. */
  predicate Overflows(s: State, a: Action, cap: nat) {
    (a.Enqueue? && |s.pending| + 1 > cap)
    || (a == FlushSaveEvents(false) && |InFlight(s)| + |s.pending| > cap)
  }

  lemma {:induction false} LostOnlyByOverflow(states: seq<State>, actions: seq<Action>, restored: Tracker.Cumulative,
                                              cap: nat, i: nat)
    requires Run(states, actions, restored, cap) && i < |states|
    ensures states[i].lost == 0 <==> forall k :: 0 <= k < i ==> !Overflows(states[k], actions[k], cap)
  {
    if i > 0 {
      LostOnlyByOverflow(states, actions, restored, cap, i - 1);
      assert states[i] == Apply(states[i - 1], actions[i - 1], cap);
    }
  }

  /** In every reachable state, persisted, in-flight and pending events together are an
      order-preserving selection of the queued ones without repeats; the queue respects its
      cap; and it is all of them exactly when no action so far overflowed the cap, however
      many saves failed. */
  lemma EventsKept(states: seq<State>, actions: seq<Action>, restored: Tracker.Cumulative, cap: nat, i: nat)
    requires Run(states, actions, restored, cap) && i < |states|
    ensures Selection(Kept(states[i]), states[i].enqueued) && |states[i].pending| <= cap
    ensures Kept(states[i]) == states[i].enqueued
       <==> forall k :: 0 <= k < i ==> !Overflows(states[k], actions[k], cap)
  {
    var s := states[i];
    EventsAlways(states, actions, restored, cap, i);
    LostOnlyByOverflow(states, actions, restored, cap, i);
    if s.lost == 0 {
      SelectionOfAll(Kept(s), s.enqueued);
    }
  }

  lemma SelectionOfAll(kept: seq<Event>, enqueued: seq<Event>)
    requires Selection(kept, enqueued) && |kept| == |enqueued|
    ensures kept == enqueued
  {
    forall i | 0 <= i < |kept| ensures kept[i].no == i {
      AtLeastIndex(kept, enqueued, i);
      AtMostIndex(kept, enqueued, i);
    }
  }

  lemma {:induction false} AtLeastIndex(kept: seq<Event>, enqueued: seq<Event>, i: nat)
    requires Selection(kept, enqueued) && i < |kept|
    ensures kept[i].no >= i
  {
    if i > 0 { AtLeastIndex(kept, enqueued, i - 1); }
  }

  lemma {:induction false} AtMostIndex(kept: seq<Event>, enqueued: seq<Event>, i: nat)
    requires Selection(kept, enqueued) && |kept| == |enqueued| && i < |kept|
    ensures kept[i].no <= i
    decreases |kept| - i
  {
    if i + 1 < |kept| { AtMostIndex(kept, enqueued, i + 1); }
  }

  /** While the in-flight and pending events together leave room before every enqueue, no
      event is lost: a requeue then never overflows either. */
  lemma RoomKeepsEvents(states: seq<State>, actions: seq<Action>, restored: Tracker.Cumulative, cap: nat, i: nat)
    requires Run(states, actions, restored, cap) && i < |states|
    requires forall k :: 0 <= k < i && actions[k].Enqueue? ==> |InFlight(states[k])| + |states[k].pending| < cap
    ensures Kept(states[i]) == states[i].enqueued
  {
    forall k | 0 <= k < i ensures !Overflows(states[k], actions[k], cap) {
      RoomStays(states, actions, restored, cap, k);
    }
    EventsKept(states, actions, restored, cap, i);
  }

  lemma {:induction false} RoomStays(states: seq<State>, actions: seq<Action>, restored: Tracker.Cumulative, cap: nat, i: nat)
    requires Run(states, actions, restored, cap) && i < |states|
    requires forall k :: 0 <= k < i && actions[k].Enqueue? ==> |InFlight(states[k])| + |states[k].pending| < cap
    ensures |InFlight(states[i])| + |states[i].pending| <= cap
  {
    if i > 0 {
      RoomStays(states, actions, restored, cap, i - 1);
      assert states[i] == Apply(states[i - 1], actions[i - 1], cap);
    }
  }

  // ----- the runtime object -----

  /** The actions lead from one state to the other. */
  ghost predicate Steps(s: State, actions: seq<Action>, t: State, cap: nat) {
    if actions == [] then s == t
    else
      var n := |actions| - 1;
      exists mid :: Steps(s, actions[..n], mid, cap) && Enabled(mid, actions[n]) && t == Apply(mid, actions[n], cap)
  }

  lemma StepsNone(s: State, cap: nat)
    ensures Steps(s, [], s, cap)
  {}

  lemma StepsMore(s: State, actions: seq<Action>, t: State, a: Action, cap: nat)
    requires Steps(s, actions, t, cap) && Enabled(t, a)
    ensures Steps(s, actions + [a], Apply(t, a, cap), cap)
  {
    assert (actions + [a])[..|actions|] == actions;
  }

  lemma TwoSteps(s: State, a: Action, t: State, b: Action, cap: nat)
    requires Enabled(s, a) && t == Apply(s, a, cap) && Enabled(t, b)
    ensures Steps(s, [a, b], Apply(t, b, cap), cap)
  {
    hide Steps, Apply, Enabled;
    StepsNone(s, cap);
    StepsMore(s, [], s, a, cap);
    assert [] + [a] == [a];
    StepsMore(s, [a], t, b, cap);
    assert [a] + [b] == [a, b];
  }

  /** One process' runtime with its store. The calls here run one after the other; how their
      critical sections interleave is the business of `Run`. */
  class Runtime {
    const maxPendingCallEvents: nat
    var tracker: Tracker.State
    var hasPersisted: bool
    var lastRevision: nat
    var pendingCallEvents: seq<Event>
    var storedEvents: seq<Event>
    var storedSnapshot: Option<Tracker.Cumulative>
    var queuedCount: nat
    ghost var view: State

    ghost predicate Valid()
      reads this
    {
      view.tracker == tracker && view.hasPersisted == hasPersisted && view.lastRevision == lastRevision
      && view.pending == pendingCallEvents && view.persisted == storedEvents && view.saved == storedSnapshot
      && |view.enqueued| == queuedCount
    }

    /** `NewRuntime` with a store that held `restored` */
    constructor (restored: Tracker.Cumulative, cap: nat)
      ensures Valid() && view == Init(restored) && maxPendingCallEvents == cap
    {
      maxPendingCallEvents := cap;
      tracker := Tracker.Restored(restored);
      hasPersisted, lastRevision, pendingCallEvents := false, 0, [];
      storedEvents, storedSnapshot, queuedCount := [], None, 0;
      view := Init(restored);
    }

    method EnqueueCallEvent(call: Call)
      requires Valid() && call in view.unqueued
      modifies this
      ensures Valid() && view == Apply(old(view), Enqueue(call), maxPendingCallEvents)
    {
      pendingCallEvents := pendingCallEvents + [Event(queuedCount, call)];
      var overflow := |pendingCallEvents| - maxPendingCallEvents;
      if overflow > 0 {
        pendingCallEvents := pendingCallEvents[overflow..];
      }
      queuedCount := queuedCount + 1;
      view := Apply(view, Enqueue(call), maxPendingCallEvents);
    }

    method RequeueCallEvents(events: seq<Event>)
      requires |events| > 0
      modifies `pendingCallEvents
      ensures pendingCallEvents == KeepNewest(events + old(pendingCallEvents), maxPendingCallEvents)
    {
      var merged := events + pendingCallEvents;
      var overflow := |merged| - maxPendingCallEvents;
      if overflow > 0 {
        merged := merged[overflow..];
      }
      pendingCallEvents := merged;
    }

    /** The first critical section of a call: it is recorded in the tracker. */
    method RecordInTracker(call: Call)
      requires Valid()
      modifies this
      ensures Valid() && Enabled(view, Enqueue(call))
      ensures view == Apply(old(view), Record(call), maxPendingCallEvents)
    {
      hide Tracker.RecordStep;
      tracker := Tracker.RecordStep(tracker, call);
      view := Apply(view, Record(call), maxPendingCallEvents);
    }

    method RecordCall(record: Tracker.Record) returns (call: Call)
      requires Valid()
      modifies this
      ensures Valid() && call == Tracker.NormalizeCall(record)
      ensures Steps(old(view), [Record(call), Enqueue(call)], view, maxPendingCallEvents)
    {
      hide Steps, Apply, Tracker.NormalizeCall;
      call := Tracker.NormalizeCall(record);
      ghost var start := view;
      RecordInTracker(call);
      ghost var middle := view;
      EnqueueCallEvent(call);
      TwoSteps(start, Record(call), middle, Enqueue(call), maxPendingCallEvents);
    }

    /** `Flush`; the flags say whether the two saves succeed if they are tried. The actions
        taken are a whole flush: it begins, ends idle, and fails only by a save. */
    method Flush(eventsOk: bool, snapshotOk: bool) returns (failed: bool, ghost actions: seq<Action>)
      requires Valid() && view.flush.Idle?
      modifies this
      ensures Valid() && view.flush.Idle?
      ensures Steps(old(view), actions, view, maxPendingCallEvents)
      ensures |actions| >= 2 && actions[0] == FlushBegin
      ensures var last := actions[|actions| - 1];
        if failed then last in {FlushSaveEvents(false), FlushSaveSnapshot(false)} else Succeeds(last)
      ensures failed <==> (!eventsOk && old(pendingCallEvents) != [])
                          || (!snapshotOk && !(old(hasPersisted) && old(tracker.revision) == old(lastRevision)))
    {
      hide Steps, Apply;
      ghost var start := view;
      var revision, had, last, events;
      revision, had, last, events, actions := TakeEvents(start);
      if |events| == 0 && had && revision == last {
        actions := Skip(start, actions);
        return false, actions;
      }
      var saved;
      saved, actions := SaveEvents(revision, had, last, events, eventsOk, start, actions);
      if !saved {
        return true, actions;
      }
      failed, actions := SaveTotals(revision, had, last, snapshotOk, start, actions);
    }

    /** The start of `Flush`: reads the revision, then takes the queue. */
    method TakeEvents(ghost start: State)
      returns (revision: nat, had: bool, last: nat, events: seq<Event>, ghost actions: seq<Action>)
      requires Valid() && view.flush.Idle? && start == view
      modifies this
      ensures Valid() && view.flush == Taken(revision, had, last, events) && actions == [FlushBegin, FlushTake]
      ensures Steps(start, actions, view, maxPendingCallEvents)
      ensures revision == old(tracker.revision) && had == old(hasPersisted) && last == old(lastRevision)
      ensures events == old(pendingCallEvents)
    {
      hide Steps;
      StepsNone(start, maxPendingCallEvents);
      revision := tracker.revision;
      actions := Note(start, [], FlushBegin);
      had, last, events := hasPersisted, lastRevision, pendingCallEvents;
      pendingCallEvents := [];
      actions := Note(start, actions, FlushTake);
    }

    ghost method Skip(start: State, before: seq<Action>) returns (actions: seq<Action>)
      requires Valid() && Steps(start, before, view, maxPendingCallEvents) && Enabled(view, FlushSkip)
      modifies `view
      ensures Valid() && view.flush.Idle? && actions == before + [FlushSkip]
      ensures Steps(start, actions, view, maxPendingCallEvents)
    {
      hide Steps;
      actions := Note(start, before, FlushSkip);
    }

    /** The middle of `Flush`: saves what was taken, or puts it back. */
    method SaveEvents(revision: nat, had: bool, last: nat, events: seq<Event>, eventsOk: bool, ghost start: State,
                      ghost before: seq<Action>) returns (saved: bool, ghost actions: seq<Action>)
      requires Valid() && view.flush == Taken(revision, had, last, events)
      requires !(|events| == 0 && had && revision == last)
      requires Steps(start, before, view, maxPendingCallEvents)
      modifies this
      ensures Valid() && Steps(start, actions, view, maxPendingCallEvents) && before < actions
      ensures saved <==> eventsOk || events == []
      ensures if saved then view.flush == EventsSaved(revision, had, last)
              else view.flush.Idle? && actions[|actions| - 1] == FlushSaveEvents(false)
    {
      hide Steps, KeepNewest, Tracker.Reported;
      actions := before;
      saved := true;
      if |events| > 0 {
        if !eventsOk {
          actions := PutBack(revision, had, last, events, start, actions);
          return false, actions;
        }
        storedEvents := storedEvents + events;
        actions := Note(start, actions, FlushSaveEvents(true));
      } else {
        actions := Note(start, actions, FlushNoEvents);
      }
    }

    method PutBack(revision: nat, had: bool, last: nat, events: seq<Event>, ghost start: State, ghost before: seq<Action>)
      returns (ghost actions: seq<Action>)
      requires Valid() && view.flush == Taken(revision, had, last, events) && events != []
      requires Steps(start, before, view, maxPendingCallEvents)
      modifies this
      ensures Valid() && Steps(start, actions, view, maxPendingCallEvents) && view.flush.Idle?
      ensures actions == before + [FlushSaveEvents(false)]
    {
      hide Steps, KeepNewest, Tracker.Reported;
      RequeueCallEvents(events);
      actions := Note(start, before, FlushSaveEvents(false));
    }

    /** The second half of `Flush`: saves the totals unless they are saved already. */
    method SaveTotals(revision: nat, had: bool, last: nat, snapshotOk: bool, ghost start: State, ghost before: seq<Action>)
      returns (failed: bool, ghost actions: seq<Action>)
      requires Valid() && view.flush == EventsSaved(revision, had, last)
      requires Steps(start, before, view, maxPendingCallEvents)
      modifies this
      ensures Valid() && view.flush.Idle?
      ensures Steps(start, actions, view, maxPendingCallEvents)
      ensures before < actions
      ensures var last := actions[|actions| - 1];
        if failed then last == FlushSaveSnapshot(false) else Succeeds(last)
      ensures failed <==> !snapshotOk && !(had && revision == last)
    {
      hide Steps, KeepNewest, Tracker.Reported;
      actions := before;
      if had && revision == last {
        actions := Note(start, actions, FlushTotalsSaved);
        return false, actions;
      }
      var snapshot := Tracker.Reported(tracker.cumulative);
      actions := Note(start, actions, FlushSnapshot);
      failed, actions := SaveSnapshot(revision, snapshot, snapshotOk, start, actions);
    }

    /** The end of `Flush`: saves the snapshot and remembers the revision read at the start. */
    method SaveSnapshot(revision: nat, snapshot: Tracker.Cumulative, snapshotOk: bool, ghost start: State,
                        ghost before: seq<Action>)
      returns (failed: bool, ghost actions: seq<Action>)
      requires Valid() && view.flush.Snapped? && view.flush.revision == revision && view.flush.snapshot == snapshot
      requires Steps(start, before, view, maxPendingCallEvents)
      modifies this
      ensures Valid() && view.flush.Idle?
      ensures Steps(start, actions, view, maxPendingCallEvents)
      ensures before < actions
      ensures actions[|actions| - 1] == if failed then FlushSaveSnapshot(false) else FlushCommit
      ensures failed == !snapshotOk
    {
      hide Steps, KeepNewest, Tracker.Reported;
      actions := before;
      if !snapshotOk {
        actions := Note(start, actions, FlushSaveSnapshot(false));
        return true, actions;
      }
      storedSnapshot := Some(snapshot);
      actions := Note(start, actions, FlushSaveSnapshot(true));
      hasPersisted, lastRevision := true, revision;
      actions := Note(start, actions, FlushCommit);
      return false, actions;
    }

    /** Bookkeeping for the proof: the next action of the flush has just been carried out. */
    ghost method Note(start: State, actions: seq<Action>, a: Action) returns (more: seq<Action>)
      requires Steps(start, actions, view, maxPendingCallEvents) && Enabled(view, a)
      modifies `view
      ensures more == actions + [a] && view == Apply(old(view), a, maxPendingCallEvents)
      ensures Steps(start, more, view, maxPendingCallEvents)
    {
      StepsMore(start, actions, view, a, maxPendingCallEvents);
      more := actions + [a];
      view := Apply(view, a, maxPendingCallEvents);
    }
  }
}
