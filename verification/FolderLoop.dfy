/** The per-folder loop of the watcher (runFolderLoop of embedded_worker.go): it merges
    incoming changes, arms a debounce timer, and delivers one batch when the timer fires.
    What the `select` picks next is a signal; a sequence of signals is any schedule. */
module FolderLoop {
  import opened Common
  import opened Text
  import opened WatcherEvents

  /** How processing a batch ends; `Cancelled` is the error of an ended context. */
  datatype BatchEnd = Processed | Cancelled | Failing(message: string)

  datatype Signal =
    | ContextDone
    | SourceError(message: string)
    | NilError
    | ErrorsClosed
    | EventsClosed
    | Incoming(change: Change, accepted: bool)   // whether normalizeWatcherChange accepts it
    | TimerFires(end: BatchEnd)

  /** `armed`: the debounce timer and its channel are set. */
  datatype State = State(pending: Pending, armed: bool, lastError: string, eventsOpen: bool, errorsOpen: bool,
                         running: bool, delivered: seq<seq<Change>>)

  const START := State(map[], false, "", true, true, true, [])

  /** A closed channel is set to nil and never picked again; a nil timer channel neither. */
  predicate Enabled(s: State, g: Signal) {
    s.running
    && match g
       case ContextDone => true
       case SourceError(_) => s.errorsOpen
       case NilError => s.errorsOpen
       case ErrorsClosed => s.errorsOpen
       case EventsClosed => s.eventsOpen
       case Incoming(_, _) => s.eventsOpen
       case TimerFires(_) => s.armed
  }

  /** `sortedPendingChanges`: the entries in path order. */
  ghost predicate IsBatch(pending: Pending, batch: seq<Change>) {
    SortedByPath(batch) && forall c :: c in batch <==> c.path in pending && pending[c.path] == c
  }

  ghost predicate Next(s: State, g: Signal, t: State) {
    match g
    case ContextDone => t == s.(armed := false, running := false)
    case SourceError(message) => t == s.(armed := false, lastError := TrimSpace(message), running := false)
    case NilError => t == s
    case ErrorsClosed =>
      if s.eventsOpen then t == s.(errorsOpen := false)
      else t == s.(errorsOpen := false, armed := false, running := false)
    case EventsClosed =>
      if s.errorsOpen then t == s.(eventsOpen := false)
      else t == s.(eventsOpen := false, armed := false, running := false)
    case Incoming(change, accepted) =>
      if !accepted then t == s
      else var pending := Merge(s.pending, change); t == s.(pending := pending, armed := pending != map[])
    case TimerFires(end) =>
      if s.pending == map[] then t == s.(armed := false)
      else
        |t.delivered| == |s.delivered| + 1 && IsBatch(s.pending, t.delivered[|s.delivered|])
        && t == s.(pending := map[], armed := false, delivered := s.delivered + [t.delivered[|s.delivered|]],
                   lastError := if end.Failing? then TrimSpace(end.message) else "")
  }

  class FolderLoop {
    var pending: Pending
    var armed: bool
    var lastError: string
    var eventsOpen: bool
    var errorsOpen: bool
    var running: bool
    var delivered: seq<seq<Change>>

    ghost function Contents(): State
      reads this
    {
      State(pending, armed, lastError, eventsOpen, errorsOpen, running, delivered)
    }

    constructor ()
      ensures Contents() == START
    {
      pending, armed, lastError, eventsOpen, errorsOpen := map[], false, "", true, true;
      running, delivered := true, [];
    }

    method MergePendingChange(next: Change)
      modifies `pending
      ensures pending == Merge(old(pending), next)
    {
      if next.path !in pending {
        pending := pending[next.path := next];
        return;
      }
      var current := pending[next.path];
      var merged := Collapse(current.kind, next.kind);
      if merged == None {
        pending := pending - {next.path};
        return;
      }
      var oldHash := current.oldHash;
      if oldHash == "" {
        oldHash := next.oldHash;
      }
      pending := pending[next.path := Change(merged.value, next.path, oldHash)];
    }

    method SortedPendingChanges() returns (batch: seq<Change>)
      requires forall p :: p in pending ==> pending[p].path == p
      ensures IsBatch(pending, batch)
    {
      batch := [];
      var paths := pending.Keys;
      while paths != {}
        invariant paths <= pending.Keys && SortedByPath(batch)
        invariant forall c :: c in batch <==> c.path in pending && c.path !in paths && pending[c.path] == c
      {
        var p :| p in paths;
        paths := paths - {p};
        batch := InsertByPath(batch, pending[p]);
      }
    }

    /** One turn of the loop. */
    method Handle(g: Signal)
      requires Enabled(Contents(), g)
      requires forall p :: p in pending ==> pending[p].path == p
      modifies this
      ensures Next(old(Contents()), g, Contents())
      ensures forall p :: p in pending ==> pending[p].path == p
    {
      match g
      case ContextDone =>
        armed, running := false, false;
      case ErrorsClosed =>
        errorsOpen := false;
        if !eventsOpen {
          armed, running := false, false;
        }
      case NilError =>
      case SourceError(message) =>
        lastError := TrimSpace(message);
        armed, running := false, false;
      case EventsClosed =>
        eventsOpen := false;
        if !errorsOpen {
          armed, running := false, false;
        }
      case Incoming(change, accepted) =>
        if accepted {
          MergePendingChange(change);
          armed := pending != map[];
        }
      case TimerFires(end) =>
        armed := false;
        if pending == map[] {
          return;
        }
        var batch := SortedPendingChanges();
        pending := map[];
        delivered := delivered + [batch];
        lastError := if end.Failing? then TrimSpace(end.message) else "";
    }
  }

  // ----- whole runs -----

  ghost predicate Run(states: seq<State>, signals: seq<Signal>) {
    |states| == |signals| + 1 && states[0] == START
    && forall i :: 0 <= i < |signals| ==> Enabled(states[i], signals[i]) && Next(states[i], signals[i], states[i + 1])
  }

  /** At the head of the loop the timer is armed exactly while something is pending; nothing
      delivered is empty. */
  ghost predicate LoopInv(s: State) {
    (s.running ==> (s.armed <==> s.pending != map[]))
    && (forall i :: 0 <= i < |s.delivered| ==> s.delivered[i] != [])
    && forall p :: p in s.pending ==> s.pending[p].path == p
  }

  lemma LoopStep(s: State, g: Signal, t: State)
    requires LoopInv(s) && Enabled(s, g) && Next(s, g, t)
    ensures LoopInv(t)
  {
    if g.TimerFires? {
      var p :| p in s.pending;
      var batch := t.delivered[|s.delivered|];
      assert s.pending[p] in batch;
    }
  }

  lemma {:induction false} TimerArmedIffPending(states: seq<State>, signals: seq<Signal>, i: nat)
    requires Run(states, signals) && i < |states|
    ensures LoopInv(states[i])
  {
    if i > 0 {
      TimerArmedIffPending(states, signals, i - 1);
      LoopStep(states[i - 1], signals[i - 1], states[i]);
    } else {
      assert START.pending == map[];
    }
  }

  /** So a batch is delivered every time the timer fires: its empty-pending branch is dead. */
  lemma EveryFiringDelivers(states: seq<State>, signals: seq<Signal>, i: nat)
    requires Run(states, signals) && i < |signals| && signals[i].TimerFires?
    ensures |states[i + 1].delivered| == |states[i].delivered| + 1
    ensures states[i + 1].delivered[|states[i].delivered|] != []
  {
    TimerArmedIffPending(states, signals, i);
    TimerArmedIffPending(states, signals, i + 1);
  }

  /** The snapshots the accepted changes describe, signal by signal: an accepted change is a
      well-formed observation of the next snapshot, and nothing else changes the files. */
  ghost predicate Describes(world: seq<Snapshot>, signals: seq<Signal>) {
    |world| == |signals| + 1
    && forall i :: 0 <= i < |signals| ==> DescribesStep(world[i], signals[i], world[i + 1])
  }

  ghost predicate DescribesStep(v: Snapshot, g: Signal, v': Snapshot) {
    if g.Incoming? && g.accepted then
      exists after :: WellFormed(v, Observation(g.change, after)) && v' == Observe(v, Observation(g.change, after))
    else v' == v
  }

  /** Index just after the last batch before signal `i`, or 0. */
  ghost function LastFlush(signals: seq<Signal>, i: nat): (f: nat)
    requires i <= |signals|
    ensures f <= i
  {
    if i == 0 then 0 else if signals[i - 1].TimerFires? then i else LastFlush(signals, i - 1)
  }

  /** Pending changes are always the net effect since the last batch. */
  lemma {:induction false} PendingIsNetEffect(states: seq<State>, signals: seq<Signal>, world: seq<Snapshot>, i: nat)
    requires Run(states, signals) && Describes(world, signals) && i < |states|
    ensures NetEffect(world[LastFlush(signals, i)], world[i], states[i].pending)
  {
    if i > 0 {
      var s, g, t := states[i - 1], signals[i - 1], states[i];
      PendingIsNetEffect(states, signals, world, i - 1);
      assert DescribesStep(world[i - 1], g, world[i]);
      if g.Incoming? && g.accepted {
        var after :| WellFormed(world[i - 1], Observation(g.change, after))
          && world[i] == Observe(world[i - 1], Observation(g.change, after));
        MergeIsNetEffect(world[LastFlush(signals, i - 1)], world[i - 1], s.pending, Observation(g.change, after));
      } else if g.TimerFires? {
        assert t.pending == map[];
        NothingPending(world[i]);
      }
    } else {
      NothingPending(world[0]);
    }
  }

  lemma NothingPending(v: Snapshot)
    ensures NetEffect(v, v, map[])
  {}

  /** Every delivered batch is the net effect since the batch before it: a file that appeared
      is added, one that disappeared is deleted, one that is there at both ends and differs
      is modified, one that is absent at both ends is not mentioned, and the batch lists each
      path once, in order. */
  lemma BatchIsNetEffect(states: seq<State>, signals: seq<Signal>, world: seq<Snapshot>, i: nat)
    requires Run(states, signals) && Describes(world, signals) && i < |signals| && signals[i].TimerFires?
    ensures |states[i + 1].delivered| == |states[i].delivered| + 1
    ensures var batch := states[i + 1].delivered[|states[i].delivered|];
      IsBatch(states[i].pending, batch) && NetEffect(world[LastFlush(signals, i)], world[i], states[i].pending)
  {
    EveryFiringDelivers(states, signals, i);
    PendingIsNetEffect(states, signals, world, i);
  }

  /** A step stops the loop exactly if it is the end of the context, an error of the source, or the
      closing of the last open channel; a closed channel stays closed. The last error is the
      source's, or that of the last batch, unless the batch was only cancelled. */
  lemma StepEffects(s: State, g: Signal, t: State)
    requires s.running && Enabled(s, g) && Next(s, g, t)
    ensures !t.running <==> g.ContextDone? || g.SourceError? || (g.EventsClosed? && !s.errorsOpen)
                            || (g.ErrorsClosed? && !s.eventsOpen)
    ensures (t.eventsOpen <==> s.eventsOpen && !g.EventsClosed?) && (t.errorsOpen <==> s.errorsOpen && !g.ErrorsClosed?)
    ensures t.lastError == if g.SourceError? then TrimSpace(g.message)
                           else if g.TimerFires? && s.pending != map[]
                           then (if g.end.Failing? then TrimSpace(g.end.message) else "")
                           else s.lastError
    ensures |t.delivered| == |s.delivered| + if g.TimerFires? && s.pending != map[] then 1 else 0
  {
    hide TrimSpace;
  }

  /** The loop can always be ended by its context; a batch can be delivered whenever something is
      pending, and an event or an error is taken while its channel is open. */
  lemma WhatCanHappen(states: seq<State>, signals: seq<Signal>, i: nat, g: Signal)
    requires Run(states, signals) && i < |states| && states[i].running
    ensures Enabled(states[i], g)
       <==> g.ContextDone? || (g.TimerFires? && states[i].pending != map[])
            || ((g.Incoming? || g.EventsClosed?) && states[i].eventsOpen)
            || ((g.SourceError? || g.NilError? || g.ErrorsClosed?) && states[i].errorsOpen)
  {
    TimerArmedIffPending(states, signals, i);
  }

  /** When the loop stops, what was still pending is not delivered; it stops only by the end
      of its context, an error of the source, or both channels being closed. */
  lemma StopsOnlyAtTheEnd(s: State, g: Signal, t: State)
    requires Enabled(s, g) && Next(s, g, t) && !t.running
    ensures g.ContextDone? || g.SourceError? || (!t.eventsOpen && !t.errorsOpen)
    ensures t.delivered == s.delivered && t.pending == s.pending && !t.armed
  {}
}
