/** Running the items of a batch, one by one or on several workers (batch_fanout.go).

    The parallel run is a state machine: a step is one channel receive, one context check,
    one call of the item function, one error report or one cancellation, by any worker, or
    the end of the caller's context. A sequence of steps is any interleaving. The item
    function may fail in any way; when it succeeds at `i` it fills slot `i` with `value(i)`. */
module BatchFanout {
  import opened Common
  import opened Text

  // ----- policy -----

  datatype Config = Config(mode: string, maxWorkers: int, maxQueueDepth: int, overloadPolicy: string)

  datatype Plan = Rejected | Serial | Parallel(workers: nat)

  /** `batchFanoutPolicy`, `shouldDegradeBatchFanout` and the choice between the two runs. */
  function Decide(cfg: Config, total: int): Plan {
    var overloaded := cfg.maxQueueDepth > 0 && total > cfg.maxQueueDepth;
    var degrade := ToLower(TrimSpace(cfg.overloadPolicy)) == "degrade";
    var parallel := ToLower(TrimSpace(cfg.mode)) == "parallel";
    var maxWorkers := if cfg.maxWorkers <= 0 then 1 else cfg.maxWorkers;
    if total <= 0 then Serial
    else if overloaded && !degrade then Rejected
    else if !parallel || overloaded || total == 1 || maxWorkers <= 1 then Serial
    else Parallel(if maxWorkers > total then total else maxWorkers)
  }

  /** A batch runs in parallel exactly if that is configured, with at least two workers, for at least
      two items and no more than the depth limit allows; then it has as many workers as are
      configured, but at most one for each item. A batch above the limit is refused exactly when
      degrading is not configured. */
  lemma DecideFacts(cfg: Config, total: int)
    ensures Decide(cfg, total).Parallel?
       <==> ToLower(TrimSpace(cfg.mode)) == "parallel" && cfg.maxWorkers >= 2 && total >= 2
            && (cfg.maxQueueDepth <= 0 || total <= cfg.maxQueueDepth)
    ensures Decide(cfg, total).Parallel? ==>
              2 <= Decide(cfg, total).workers <= total
              && (Decide(cfg, total).workers == cfg.maxWorkers || (Decide(cfg, total).workers == total && total <= cfg.maxWorkers))
    ensures Decide(cfg, total) == Rejected
       <==> 0 < cfg.maxQueueDepth < total && ToLower(TrimSpace(cfg.overloadPolicy)) != "degrade"
  {}

  // ----- the parallel run -----

  /** Where an error came from: the item function, the item's own deadline, the caller's
      context, or the cancellation that follows another worker's error. */
  datatype Error = FromItem(index: nat, code: int) | FromDeadline(index: nat) | FromCaller | Internal

  datatype Worker =
    | Idle
    | Holding(index: nat)       // received a job
    | Stopping(index: nat)      // saw the worker context ended
    | Entering(index: nat)
    | Running(index: nat)
    | Returned(index: nat)
    | Failing(error: Error)
    | Cancelling
    | Exited

  /** What became of an index. */
  datatype Stage = Queued | Owned(worker: nat) | Succeeded | Dropped

  datatype State<V> = State(next: nat, workers: seq<Worker>, firstErr: Option<Error>, workerDone: bool,
                            callerDone: bool, runs: seq<nat>, slots: seq<Option<V>>, stage: seq<Stage>)

  datatype Step =
    | Receive(w: nat)
    | CheckWorker(w: nat)
    | CheckCaller(w: nat)
    | Enter(w: nat, deadline: bool)
    | RunItem(w: nat, failure: Option<int>)
    | Leave(w: nat, deadline: bool)
    | Report(w: nat)
    | Cancel(w: nat)
    | CallerEnds
    | Propagate

  predicate Ready<V>(s: State<V>, t: Step) {
    match t
    case CallerEnds => !s.callerDone
    case Propagate => s.callerDone && !s.workerDone
    case Receive(w) => w < |s.workers| && s.workers[w].Idle?
    case CheckWorker(w) => w < |s.workers| && s.workers[w].Holding?
    case CheckCaller(w) => w < |s.workers| && s.workers[w].Stopping?
    case Enter(w, _) => w < |s.workers| && s.workers[w].Entering?
    case RunItem(w, _) => w < |s.workers| && s.workers[w].Running?
    case Leave(w, _) => w < |s.workers| && s.workers[w].Returned?
    case Report(w) => w < |s.workers| && s.workers[w].Failing? && (s.firstErr == None || s.workerDone)
    case Cancel(w) => w < |s.workers| && s.workers[w].Cancelling?
  }

  /** The error an item context shows: its deadline, or the end of the context it is made from. */
  function ItemContext<V>(s: State<V>, index: nat, deadline: bool): Option<Error> {
    if s.workerDone then Some(if s.callerDone then FromCaller else Internal)
    else if deadline then Some(FromDeadline(index))
    else None
  }

  function Put<V>(s: State<V>, w: nat, worker: Worker): State<V>
    requires w < |s.workers|
  {
    s.(workers := s.workers[w := worker])
  }

  function Mark<V>(s: State<V>, i: nat, stage: Stage): State<V> {
    if i < |s.stage| then s.(stage := s.stage[i := stage]) else s
  }

  function CountRun<V>(s: State<V>, i: nat): State<V> {
    if i < |s.runs| then s.(runs := s.runs[i := s.runs[i] + 1]) else s
  }

  function Fill<V>(s: State<V>, i: nat, v: V): State<V> {
    if i < |s.slots| then s.(slots := s.slots[i := Some(v)]) else s
  }

  function Fails<V>(s: State<V>, w: nat, i: nat, e: Error): State<V>
    requires w < |s.workers|
  {
    Mark(Put(s, w, Failing(e)), i, Dropped)
  }

  function Apply<V>(s: State<V>, t: Step, value: nat -> V): State<V>
    requires Ready(s, t)
  {
    match t {
      case CallerEnds => s.(callerDone := true)
      case Propagate => s.(workerDone := true)
      case Receive(w) =>
        if s.next < |s.stage| then Mark(Put(s, w, Holding(s.next)), s.next, Owned(w)).(next := s.next + 1)
        else Put(s, w, Exited)
      case CheckWorker(w) =>
        var i := s.workers[w].index;
        Put(s, w, if s.workerDone then Stopping(i) else Entering(i))
      case CheckCaller(w) =>
        var i := s.workers[w].index;
        if s.callerDone then Fails(s, w, i, FromCaller) else Mark(Put(s, w, Exited), i, Dropped)
      case Enter(w, deadline) =>
        var i := s.workers[w].index;
        var e := ItemContext(s, i, deadline);
        if e.Some? then Fails(s, w, i, e.value) else CountRun(Put(s, w, Running(i)), i)
      case RunItem(w, failure) =>
        var i := s.workers[w].index;
        if failure.Some? then Fails(s, w, i, FromItem(i, failure.value)) else Fill(Put(s, w, Returned(i)), i, value(i))
      case Leave(w, deadline) =>
        var i := s.workers[w].index;
        var e := ItemContext(s, i, deadline);
        if e.Some? then Fails(s, w, i, e.value) else Mark(Put(s, w, Idle), i, Succeeded)
      case Report(w) =>
        if s.firstErr == None then Put(s, w, Cancelling).(firstErr := Some(s.workers[w].error)) else Put(s, w, Exited)
      case Cancel(w) => Put(s, w, Exited).(workerDone := true)
    }
  }

  function Init<V>(total: nat, workers: nat): State<V> {
    State(0, seq(workers, w => Idle), None, false, false, seq(total, i => 0), seq(total, i => None),
          seq(total, i => Queued))
  }

  ghost predicate Run<V>(states: seq<State<V>>, steps: seq<Step>, total: nat, workers: nat, value: nat -> V) {
    |states| == |steps| + 1 && states[0] == Init(total, workers)
    && forall k :: 0 <= k < |steps| ==> Ready(states[k], steps[k]) && states[k + 1] == Apply(states[k], steps[k], value)
  }

  /** A worker between receiving an index and being done with it. */
  predicate Owns(w: Worker) {
    w.Holding? || w.Stopping? || w.Entering? || w.Running? || w.Returned?
  }

  // ----- what every step keeps -----

  /** Sizes agree, and an index is owned by exactly the worker that works on it. */
  ghost predicate OwnInv<V>(s: State<V>, total: nat, workers: nat) {
    |s.stage| == |s.runs| == |s.slots| == total && |s.workers| == workers && s.next <= total
    && (forall i :: 0 <= i < total ==> (s.stage[i].Queued? <==> i >= s.next))
    && (forall w :: 0 <= w < workers && Owns(s.workers[w]) ==>
         s.workers[w].index < total && s.stage[s.workers[w].index] == Owned(w))
    && (forall i :: 0 <= i < total && s.stage[i].Owned? ==>
         s.stage[i].worker < workers && Owns(s.workers[s.stage[i].worker]) && s.workers[s.stage[i].worker].index == i)
  }

  /** The item function has been called at this index: it runs now, or ran. */
  predicate Called(w: Worker) {
    w.Running? || w.Returned?
  }

  /** Nothing runs twice, and a success has run and filled its slot. */
  predicate IndexOk<V(==)>(s: State<V>, i: nat, value: nat -> V)
    requires i < |s.stage| == |s.runs| == |s.slots|
  {
    match s.stage[i]
    case Queued => s.runs[i] == 0 && s.slots[i] == None
    case Owned(w) => w < |s.workers| && s.runs[i] == (if Called(s.workers[w]) then 1 else 0)
      && s.slots[i] == (if s.workers[w].Returned? then Some(value(i)) else None)
    case Succeeded => s.runs[i] == 1 && s.slots[i] == Some(value(i))
    case Dropped => s.runs[i] <= 1
  }

  ghost predicate RunInv<V>(s: State<V>, value: nat -> V)
    requires |s.stage| == |s.runs| == |s.slots|
  {
    forall i :: 0 <= i < |s.stage| ==> IndexOk(s, i, value)
  }

  /** Where errors come from: the internal cancellation only ever follows a reported error,
      an item error comes from an index that ran once, and whoever gives up early leaves an
      error behind. */
  ghost predicate ErrorInv<V>(s: State<V>) {
    CancelCaused(s) && StopCaused(s) && FirstGenuine(s) && FailingGenuine(s) && CancelReported(s) && ExitCaused(s)
    && DropReported(s)
  }

  ghost predicate CancelCaused<V>(s: State<V>) {
    s.workerDone ==> s.firstErr.Some? || s.callerDone
  }

  ghost predicate StopCaused<V>(s: State<V>) {
    forall w :: 0 <= w < |s.workers| && s.workers[w].Stopping? ==> s.workerDone
  }

  ghost predicate FirstGenuine<V>(s: State<V>) {
    s.firstErr.Some? ==> Genuine(s, s.firstErr.value)
  }

  predicate ErrorOk<V>(s: State<V>, e: Error) {
    if e.Internal? then s.firstErr.Some? else Genuine(s, e)
  }

  ghost predicate FailingGenuine<V>(s: State<V>) {
    forall w :: 0 <= w < |s.workers| && s.workers[w].Failing? ==> ErrorOk(s, s.workers[w].error)
  }

  ghost predicate CancelReported<V>(s: State<V>) {
    forall w :: 0 <= w < |s.workers| && s.workers[w].Cancelling? ==> s.firstErr.Some?
  }

  ghost predicate ExitCaused<V>(s: State<V>) {
    forall w :: 0 <= w < |s.workers| && s.workers[w].Exited? ==> s.firstErr.Some? || s.next >= |s.stage|
  }

  ghost predicate SomeFailing<V>(s: State<V>) {
    exists w :: 0 <= w < |s.workers| && s.workers[w].Failing?
  }

  ghost predicate DropReported<V>(s: State<V>) {
    forall i :: 0 <= i < |s.stage| && s.stage[i].Dropped? ==> s.firstErr.Some? || SomeFailing(s)
  }

  predicate Genuine<V>(s: State<V>, e: Error) {
    match e
    case FromItem(i, _) => i < |s.stage| && i < |s.runs| && s.stage[i].Dropped? && s.runs[i] == 1
    case FromDeadline(i) => i < |s.runs|
    case FromCaller => s.callerDone
    case Internal => false
  }

  /** A worker keeps its index, or neither has nor gets one. */
  lemma OwnMove<V>(s: State<V>, w: nat, worker: Worker, total: nat, workers: nat)
    requires OwnInv(s, total, workers) && w < workers
    requires Owns(worker) <==> Owns(s.workers[w])
    requires Owns(worker) ==> worker.index == s.workers[w].index
    ensures OwnInv(Put(s, w, worker), total, workers)
  {
    var s' := Put(s, w, worker);
    forall i | 0 <= i < total && s'.stage[i].Owned? ensures Owns(s'.workers[s'.stage[i].worker]) && s'.workers[s'.stage[i].worker].index == i {
      assert Owns(s.workers[s.stage[i].worker]) && s.workers[s.stage[i].worker].index == i;
    }
  }

  /** A worker lets go of its index. */
  lemma OwnRelease<V>(s: State<V>, w: nat, worker: Worker, stage: Stage, total: nat, workers: nat)
    requires OwnInv(s, total, workers) && w < workers && Owns(s.workers[w])
    requires !Owns(worker) && !stage.Owned? && !stage.Queued?
    ensures OwnInv(Mark(Put(s, w, worker), s.workers[w].index, stage), total, workers)
  {
    var i0, s' := s.workers[w].index, Mark(Put(s, w, worker), s.workers[w].index, stage);
    assert s.stage[i0] == Owned(w) && i0 < s.next;
    forall v | 0 <= v < workers && Owns(s'.workers[v])
      ensures s'.workers[v].index < total && s'.stage[s'.workers[v].index] == Owned(v)
    {
      assert s.stage[s.workers[v].index] == Owned(v);
    }
    forall i | 0 <= i < total && s'.stage[i].Owned?
      ensures s'.stage[i].worker < workers && Owns(s'.workers[s'.stage[i].worker]) && s'.workers[s'.stage[i].worker].index == i
    {
      assert Owns(s.workers[s.stage[i].worker]) && s.workers[s.stage[i].worker].index == i;
    }
  }

  lemma OwnReceive<V>(s: State<V>, w: nat, total: nat, workers: nat)
    requires OwnInv(s, total, workers) && w < workers && s.workers[w].Idle? && s.next < total
    ensures OwnInv(Mark(Put(s, w, Holding(s.next)), s.next, Owned(w)).(next := s.next + 1), total, workers)
  {
    var s' := Mark(Put(s, w, Holding(s.next)), s.next, Owned(w)).(next := s.next + 1);
    forall v | 0 <= v < workers && Owns(s'.workers[v])
      ensures s'.workers[v].index < total && s'.stage[s'.workers[v].index] == Owned(v)
    {
      if v != w { assert s.stage[s.workers[v].index] == Owned(v); }
    }
    forall i | 0 <= i < total && s'.stage[i].Owned?
      ensures s'.stage[i].worker < workers && Owns(s'.workers[s'.stage[i].worker]) && s'.workers[s'.stage[i].worker].index == i
    {
      if i != s.next { assert Owns(s.workers[s.stage[i].worker]) && s.workers[s.stage[i].worker].index == i; }
    }
  }

  /** Only the workers, the stages and the queue matter for ownership. */
  lemma OwnSame<V>(s: State<V>, s': State<V>, total: nat, workers: nat)
    requires OwnInv(s, total, workers)
    requires s'.workers == s.workers && s'.stage == s.stage && s'.next == s.next
    requires |s'.runs| == |s.runs| && |s'.slots| == |s.slots|
    ensures OwnInv(s', total, workers)
  {}

  lemma OwnStep<V>(s: State<V>, t: Step, value: nat -> V, total: nat, workers: nat)
    requires OwnInv(s, total, workers) && Ready(s, t)
    ensures OwnInv(Apply(s, t, value), total, workers)
  {
    hide OwnInv, ItemContext;
    OwnSizes(s, total, workers);
    var s' := Apply(s, t, value);
    if t.CallerEnds? || t.Propagate? {
      OwnSame(s, s', total, workers);
    } else if t.Receive? && s.next < total {
      OwnReceive(s, t.w, total, workers);
    } else if t.CheckCaller? || (t.Enter? && s'.workers[t.w].Failing?) || (t.RunItem? && t.failure.Some?) || t.Leave? {
      OwnRelease(s, t.w, s'.workers[t.w], if s'.workers[t.w].Idle? then Succeeded else Dropped, total, workers);
    } else {
      OwnMove(s, t.w, s'.workers[t.w], total, workers);
      OwnSame(Put(s, t.w, s'.workers[t.w]), s', total, workers);
    }
  }

  lemma OwnSizes<V>(s: State<V>, total: nat, workers: nat)
    requires OwnInv(s, total, workers)
    ensures |s.stage| == |s.runs| == |s.slots| == total && |s.workers| == workers && s.next <= total
    ensures forall w :: 0 <= w < workers && Owns(s.workers[w]) ==> s.workers[w].index < total
  {}

  predicate ByWorker(t: Step) {
    !t.CallerEnds? && !t.Propagate?
  }

  /** The index the step is about: the one its worker owns, or the one it receives. */
  predicate Concerns<V>(s: State<V>, t: Step, i: nat) {
    ByWorker(t) && t.w < |s.workers|
    && ((Owns(s.workers[t.w]) && s.workers[t.w].index == i) || (t.Receive? && s.next == i))
  }

  /** A step changes the stage, the run count and the slot of no index but the one it concerns. */
  lemma StageIsLocal<V>(s: State<V>, t: Step, value: nat -> V, i: nat)
    requires Ready(s, t) && i < |s.stage| && !Concerns(s, t, i)
    ensures |Apply(s, t, value).stage| == |s.stage| && Apply(s, t, value).stage[i] == s.stage[i]
  {
    hide ItemContext;
  }

  lemma RunsAreLocal<V>(s: State<V>, t: Step, value: nat -> V, i: nat)
    requires Ready(s, t) && i < |s.runs| && !Concerns(s, t, i)
    ensures |Apply(s, t, value).runs| == |s.runs| && Apply(s, t, value).runs[i] == s.runs[i]
  {
    hide ItemContext;
  }

  lemma SlotsAreLocal<V>(s: State<V>, t: Step, value: nat -> V, i: nat)
    requires Ready(s, t) && i < |s.slots| && !Concerns(s, t, i)
    ensures |Apply(s, t, value).slots| == |s.slots| && Apply(s, t, value).slots[i] == s.slots[i]
  {
    hide ItemContext;
  }

  lemma OtherIndexUntouched<V>(s: State<V>, t: Step, value: nat -> V, total: nat, workers: nat, i: nat)
    requires OwnInv(s, total, workers) && Ready(s, t) && i < total && !Concerns(s, t, i) && IndexOk(s, i, value)
    ensures var s' := Apply(s, t, value);
      |s'.stage| == |s'.runs| == |s'.slots| == total && IndexOk(s', i, value)
      && s'.stage[i] == s.stage[i] && s'.runs[i] == s.runs[i]
  {
    StageIsLocal(s, t, value, i);
    RunsAreLocal(s, t, value, i);
    SlotsAreLocal(s, t, value, i);
    OneWorkerMoves(s, t, value);
    hide Apply, Ready;
    if ByWorker(t) && s.stage[i].Owned? {
      assert Owns(s.workers[s.stage[i].worker]) && s.workers[s.stage[i].worker].index == i;
      assert s.stage[i].worker != t.w;
    }
  }

  lemma ConcernedIndexOk<V>(s: State<V>, t: Step, value: nat -> V, total: nat, workers: nat, i: nat)
    requires OwnInv(s, total, workers) && Ready(s, t) && i < total && Concerns(s, t, i) && IndexOk(s, i, value)
    ensures var s' := Apply(s, t, value);
      |s'.stage| == |s'.runs| == |s'.slots| == total && IndexOk(s', i, value)
    ensures s.stage[i].Owned? || s.stage[i].Queued?
    ensures t.RunItem? && t.failure.Some? ==> Apply(s, t, value).stage[i].Dropped? && Apply(s, t, value).runs[i] == 1
  {
    assert Owns(s.workers[t.w]) ==> s.stage[i] == Owned(t.w);
    assert |s.stage| == |s.runs| == |s.slots| == total;
    hide OwnInv;
    ConcernedStage(s, t, value, i);
  }

  /** What a step makes of the index it concerns. */
  lemma ConcernedStage<V>(s: State<V>, t: Step, value: nat -> V, i: nat)
    requires Ready(s, t) && i < |s.stage| == |s.runs| == |s.slots| && Concerns(s, t, i)
    requires if t.Receive? then s.stage[i].Queued? else s.stage[i] == Owned(t.w)
    requires IndexOk(s, i, value)
    ensures var s' := Apply(s, t, value);
      |s'.stage| == |s'.runs| == |s'.slots| == |s.stage| && IndexOk(s', i, value)
      && (t.RunItem? && t.failure.Some? ==> s'.stage[i].Dropped? && s'.runs[i] == 1)
  {
    hide ItemContext;
  }

  lemma RunStep<V>(s: State<V>, t: Step, value: nat -> V, total: nat, workers: nat)
    requires OwnInv(s, total, workers) && RunInv(s, value) && Ready(s, t)
    ensures OwnInv(Apply(s, t, value), total, workers) && RunInv(Apply(s, t, value), value)
  {
    hide Apply, OwnInv, IndexOk;
    OwnStep(s, t, value, total, workers);
    var s' := Apply(s, t, value);
    OwnSizes(s, total, workers);
    OwnSizes(s', total, workers);
    forall i | 0 <= i < total ensures IndexOk(s', i, value) {
      if Concerns(s, t, i) {
        ConcernedIndexOk(s, t, value, total, workers, i);
      } else {
        OtherIndexUntouched(s, t, value, total, workers, i);
      }
    }
  }

  /** A genuine error stays genuine. */
  lemma GenuineStays<V>(s: State<V>, t: Step, value: nat -> V, total: nat, workers: nat, e: Error)
    requires OwnInv(s, total, workers) && RunInv(s, value) && Ready(s, t) && Genuine(s, e)
    ensures Genuine(Apply(s, t, value), e)
  {
    match e
    case FromItem(i, _) =>
      assert IndexOk(s, i, value);
      if Concerns(s, t, i) {
        ConcernedIndexOk(s, t, value, total, workers, i);
      } else {
        OtherIndexUntouched(s, t, value, total, workers, i);
      }
    case _ =>
  }

  /** The error a worker runs into is genuine, or follows one that is reported. */
  lemma NewErrorGenuine<V>(s: State<V>, t: Step, value: nat -> V, total: nat, workers: nat)
    requires OwnInv(s, total, workers) && RunInv(s, value) && CancelCaused(s) && Ready(s, t)
    requires ByWorker(t) && !s.workers[t.w].Failing? && Apply(s, t, value).workers[t.w].Failing?
    ensures ErrorOk(Apply(s, t, value), Apply(s, t, value).workers[t.w].error)
  {
    var i := s.workers[t.w].index;
    assert s.stage[i] == Owned(t.w) && IndexOk(s, i, value);
    if t.RunItem? { ConcernedIndexOk(s, t, value, total, workers, i); }
    hide OwnInv, RunInv, IndexOk;
  }

  /** One worker moves, and the others stay as they are. */
  lemma OneWorkerMoves<V>(s: State<V>, t: Step, value: nat -> V)
    requires Ready(s, t)
    ensures var s' := Apply(s, t, value);
      s'.workers == (if ByWorker(t) then s.workers[t.w := s'.workers[t.w]] else s.workers) && |s'.stage| == |s.stage|
  {
    hide ItemContext;
  }

  /** What has happened does not go back. */
  lemma NothingGoesBack<V>(s: State<V>, t: Step, value: nat -> V)
    requires Ready(s, t)
    ensures var s' := Apply(s, t, value);
      s.next <= s'.next && (s.firstErr.Some? ==> s'.firstErr == s.firstErr)
      && (s.workerDone ==> s'.workerDone) && (s.callerDone ==> s'.callerDone) && (ByWorker(t) ==> s'.callerDone == s.callerDone)
      && (s'.firstErr.Some? && s.firstErr == None ==> t.Report? && s'.firstErr.value == s.workers[t.w].error)
  {
    hide ItemContext;
  }

  lemma OthersStay<V>(s: State<V>, t: Step, value: nat -> V)
    requires Ready(s, t)
    ensures var s' := Apply(s, t, value);
      |s'.workers| == |s.workers| && |s'.stage| == |s.stage| && s.next <= s'.next
      && (forall w :: 0 <= w < |s.workers| && !(ByWorker(t) && t.w == w) ==> s'.workers[w] == s.workers[w])
      && (s.firstErr.Some? ==> s'.firstErr == s.firstErr) && (s.workerDone ==> s'.workerDone) && (s.callerDone ==> s'.callerDone)
      && (s'.firstErr.Some? && s.firstErr == None ==> t.Report? && s'.firstErr.value == s.workers[t.w].error)
  {
    OneWorkerMoves(s, t, value);
    NothingGoesBack(s, t, value);
    hide Apply;
  }

  /** What the worker that moves turns into. */
  lemma MoverTurns<V>(s: State<V>, t: Step, value: nat -> V)
    requires Ready(s, t) && ByWorker(t)
    ensures var s', m := Apply(s, t, value), Apply(s, t, value).workers[t.w];
      (m.Stopping? ==> s'.workerDone)
      && (m.Cancelling? ==> s'.firstErr.Some?)
      && (m.Exited? ==> t.Receive? || t.CheckCaller? || t.Report? || t.Cancel?)
      && (m.Exited? && t.Receive? ==> s.next >= |s.stage|)
      && (m.Exited? && t.Report? ==> s.firstErr.Some?)
      && (m.Failing? ==> !s.workers[t.w].Failing?)
      && (s.workers[t.w].Failing? ==> t.Report? && s'.firstErr.Some?)
  {
    hide ItemContext, Fails, Mark, CountRun, Fill;
    MoverIs(s, t, value);
  }

  /** The new state of the worker that moves, apart from the errors. */
  predicate TurnsInto<V>(s: State<V>, t: Step, m: Worker)
    requires Ready(s, t) && ByWorker(t)
  {
    match t {
      case Receive(_) => m == if s.next < |s.stage| then Holding(s.next) else Exited
      case CheckWorker(w) => m == if s.workerDone then Stopping(s.workers[w].index) else Entering(s.workers[w].index)
      case CheckCaller(_) => m == if s.callerDone then Failing(FromCaller) else Exited
      case Enter(_, _) => m.Failing? || m.Running?
      case RunItem(_, _) => m.Failing? || m.Returned?
      case Leave(_, _) => m.Failing? || m.Idle?
      case Report(_) => m == if s.firstErr == None then Cancelling else Exited
      case Cancel(_) => m == Exited
      case _ => true
    }
  }

  lemma MoverIs<V>(s: State<V>, t: Step, value: nat -> V)
    requires Ready(s, t) && ByWorker(t)
    ensures TurnsInto(s, t, Apply(s, t, value).workers[t.w])
    ensures t.Report? ==> Apply(s, t, value).firstErr.Some?
  {
    hide ItemContext;
  }

  lemma CauseStep<V>(s: State<V>, t: Step, value: nat -> V)
    requires ErrorInv(s) && Ready(s, t)
    ensures CancelCaused(Apply(s, t, value))
  {
    OthersStay(s, t, value);
    assert CancelReported(s) && CancelCaused(s);
    hide ErrorInv, FirstGenuine, FailingGenuine, StopCaused, ExitCaused, DropReported, ItemContext, Fails;
  }

  lemma StopStep<V>(s: State<V>, t: Step, value: nat -> V)
    requires StopCaused(s) && Ready(s, t)
    ensures StopCaused(Apply(s, t, value))
  {
    OthersStay(s, t, value);
    if ByWorker(t) { MoverTurns(s, t, value); }
    hide Apply, Ready;
  }

  lemma CancelReportedStep<V>(s: State<V>, t: Step, value: nat -> V)
    requires CancelReported(s) && Ready(s, t)
    ensures CancelReported(Apply(s, t, value))
  {
    OthersStay(s, t, value);
    if ByWorker(t) { MoverTurns(s, t, value); }
    hide Apply, Ready;
  }

  lemma ExitStep<V>(s: State<V>, t: Step, value: nat -> V)
    requires ErrorInv(s) && Ready(s, t) && ExitCaused(s)
    ensures ExitCaused(Apply(s, t, value)) || (t.CheckCaller? && !s.callerDone)
  {
    OthersStay(s, t, value);
    assert CancelReported(s);
    if ByWorker(t) {
      MoverTurns(s, t, value);
      MoverIs(s, t, value);
      assert t.Cancel? ==> s.workers[t.w].Cancelling?;
    }
    hide Apply, ErrorInv;
  }

  /** A worker that stops because the run was cancelled, while the caller's context lasts,
      follows a reported error. */
  lemma StopFollowsError<V>(s: State<V>, t: Step)
    requires ErrorInv(s) && Ready(s, t) && t.CheckCaller? && !s.callerDone
    ensures s.firstErr.Some?
  {}

  lemma FirstStep<V>(s: State<V>, t: Step, value: nat -> V, total: nat, workers: nat)
    requires OwnInv(s, total, workers) && RunInv(s, value) && ErrorInv(s) && Ready(s, t)
    ensures FirstGenuine(Apply(s, t, value))
  {
    OthersStay(s, t, value);
    hide Apply, OwnInv, RunInv, Genuine, ErrorInv;
    if s.firstErr.Some? {
      FirstIsGenuine(s);
      GenuineStays(s, t, value, total, workers, s.firstErr.value);
    } else if Apply(s, t, value).firstErr.Some? {
      NotInternal(s, t.w);
      GenuineStays(s, t, value, total, workers, s.workers[t.w].error);
    }
  }

  lemma FirstIsGenuine<V>(s: State<V>)
    requires ErrorInv(s) && s.firstErr.Some?
    ensures Genuine(s, s.firstErr.value)
  {}

  lemma FailingStep<V>(s: State<V>, t: Step, value: nat -> V, total: nat, workers: nat)
    requires OwnInv(s, total, workers) && RunInv(s, value) && ErrorInv(s) && Ready(s, t)
    ensures FailingGenuine(Apply(s, t, value))
  {
    OthersStay(s, t, value);
    assert CancelCaused(s) && FailingGenuine(s);
    if ByWorker(t) { MoverTurns(s, t, value); }
    hide Apply, Ready, OwnInv, RunInv, Genuine, ErrorInv;
    var s' := Apply(s, t, value);
    forall w | 0 <= w < |s'.workers| && s'.workers[w].Failing? ensures ErrorOk(s', s'.workers[w].error) {
      if ByWorker(t) && t.w == w {
        NewErrorGenuine(s, t, value, total, workers);
      } else {
        assert ErrorOk(s, s.workers[w].error);
        if !s.workers[w].error.Internal? { GenuineStays(s, t, value, total, workers, s.workers[w].error); }
      }
    }
  }

  /** An index that is given up now has its worker failing, or follows a reported error. */
  lemma NewDrop<V>(s: State<V>, t: Step, value: nat -> V, i: nat)
    requires Ready(s, t) && i < |s.stage| && !s.stage[i].Dropped?
    requires i < |Apply(s, t, value).stage| && Apply(s, t, value).stage[i].Dropped?
    ensures ByWorker(t) && (Apply(s, t, value).workers[t.w].Failing? || (t.CheckCaller? && !s.callerDone))
  {}

  lemma DropStep<V>(s: State<V>, t: Step, value: nat -> V)
    requires ErrorInv(s) && Ready(s, t)
    ensures DropReported(Apply(s, t, value))
  {
    var s' := Apply(s, t, value);
    OthersStay(s, t, value);
    assert DropReported(s);
    if ByWorker(t) { MoverTurns(s, t, value); }
    forall i | 0 <= i < |s'.stage| && s'.stage[i].Dropped? ensures s'.firstErr.Some? || SomeFailing(s') {
      if !s.stage[i].Dropped? {
        NewDrop(s, t, value, i);
        if t.CheckCaller? && !s.callerDone { StopFollowsError(s, t); }
      }
      hide Apply, Ready, ErrorInv;
      if s.stage[i].Dropped? && s.firstErr == None {
        var w :| 0 <= w < |s.workers| && s.workers[w].Failing?;
        assert (ByWorker(t) && t.w == w) || s'.workers[w].Failing?;
      }
    }
  }

  lemma ErrorStep<V>(s: State<V>, t: Step, value: nat -> V, total: nat, workers: nat)
    requires OwnInv(s, total, workers) && RunInv(s, value) && ErrorInv(s) && Ready(s, t)
    ensures ErrorInv(Apply(s, t, value))
  {
    CauseStep(s, t, value);
    assert StopCaused(s) && CancelReported(s) && ExitCaused(s);
    StopStep(s, t, value);
    CancelReportedStep(s, t, value);
    ExitStep(s, t, value);
    if t.CheckCaller? && !s.callerDone {
      StopFollowsError(s, t);
      OthersStay(s, t, value);
    }
    FirstStep(s, t, value, total, workers);
    FailingStep(s, t, value, total, workers);
    DropStep(s, t, value);
    hide Apply, Ready, OwnInv, RunInv, CancelCaused, StopCaused, FirstGenuine, FailingGenuine, CancelReported, DropReported;
  }

  lemma NotInternal<V>(s: State<V>, w: nat)
    requires ErrorInv(s) && w < |s.workers| && s.workers[w].Failing? && s.firstErr == None
    ensures Genuine(s, s.workers[w].error)
  {}

  lemma {:induction false} Always<V>(states: seq<State<V>>, steps: seq<Step>, total: nat, workers: nat,
                                     value: nat -> V, k: nat)
    requires Run(states, steps, total, workers, value) && k < |states|
    ensures OwnInv(states[k], total, workers) && RunInv(states[k], value) && ErrorInv(states[k])
  {
    if k > 0 {
      hide OwnInv, RunInv, ErrorInv, Apply;
      Always(states, steps, total, workers, value, k - 1);
      OwnSizes(states[k - 1], total, workers);
      RunStep(states[k - 1], steps[k - 1], value, total, workers);
      ErrorStep(states[k - 1], steps[k - 1], value, total, workers);
    }
  }

  // ----- results -----

  ghost predicate AllExited<V>(s: State<V>) {
    forall w :: 0 <= w < |s.workers| ==> s.workers[w].Exited?
  }

  /** What the parallel run returns once every worker has exited. */
  function Result<V>(s: State<V>): Option<Error> {
    if s.firstErr.Some? then s.firstErr else if s.callerDone then Some(FromCaller) else None
  }

  /** The slots of a batch in which every item succeeded. */
  function FullSlots<V>(total: nat, value: nat -> V): seq<Option<V>> {
    seq(total, i requires 0 <= i < total => Some(value(i)))
  }

  /** No index is run twice, in any interleaving, at any time. */
  lemma AtMostOnce<V>(states: seq<State<V>>, steps: seq<Step>, total: nat, workers: nat, value: nat -> V, k: nat)
    requires Run(states, steps, total, workers, value) && k < |states|
    ensures |states[k].runs| == total && forall i :: 0 <= i < total ==> states[k].runs[i] <= 1
  {
    Always(states, steps, total, workers, value, k);
    forall i | 0 <= i < total ensures states[k].runs[i] <= 1 {
      assert IndexOk(states[k], i, value);
    }
  }

  /** When the run returns no error, every index ran exactly once and filled its slot. */
  lemma NoErrorMeansAllRan<V>(states: seq<State<V>>, steps: seq<Step>, total: nat, workers: nat, value: nat -> V, k: nat)
    requires Run(states, steps, total, workers, value) && k < |states| && workers > 0
    requires AllExited(states[k]) && Result(states[k]) == None
    ensures forall i :: 0 <= i < |states[k].runs| ==> states[k].runs[i] == 1
    ensures states[k].slots == FullSlots(total, value)
  {
    var s := states[k];
    Always(states, steps, total, workers, value, k);
    assert s.workers[0].Exited?;
    forall i | 0 <= i < total ensures s.runs[i] == 1 && s.slots[i] == Some(value(i)) {
      assert IndexOk(s, i, value);
      assert !s.stage[i].Owned?;
    }
  }

  // ----- where errors come from -----

  /** The item function fails at this index, with this very code. */
  predicate RunFails<V>(s: State<V>, t: Step, i: nat, code: int) {
    t.RunItem? && t.failure == Some(code) && t.w < |s.workers| && s.workers[t.w] == Running(i)
  }

  /** A look at the item's own context, before or after its run, finds the deadline passed. */
  predicate DeadlinePasses<V>(s: State<V>, t: Step, i: nat) {
    (t.Enter? && t.deadline && t.w < |s.workers| && s.workers[t.w] == Entering(i))
    || (t.Leave? && t.deadline && t.w < |s.workers| && s.workers[t.w] == Returned(i))
  }

  ghost predicate ItemFailed<V>(states: seq<State<V>>, steps: seq<Step>, k: nat, i: nat, code: int)
    requires k <= |steps| < |states|
  {
    exists j :: 0 <= j < k && RunFails(states[j], steps[j], i, code)
  }

  ghost predicate DeadlinePassed<V>(states: seq<State<V>>, steps: seq<Step>, k: nat, i: nat)
    requires k <= |steps| < |states|
  {
    exists j :: 0 <= j < k && DeadlinePasses(states[j], steps[j], i)
  }

  ghost predicate CallerEnded(steps: seq<Step>, k: nat)
    requires k <= |steps|
  {
    exists j :: 0 <= j < k && steps[j].CallerEnds?
  }

  /** Before the k-th step something happened that is this error. */
  ghost predicate Happened<V>(states: seq<State<V>>, steps: seq<Step>, k: nat, e: Error)
    requires k <= |steps| < |states|
  {
    match e
    case FromItem(i, code) => ItemFailed(states, steps, k, i, code)
    case FromDeadline(i) => DeadlinePassed(states, steps, k, i)
    case FromCaller => CallerEnded(steps, k)
    case Internal => true
  }

  ghost predicate ErrorsHappened<V>(states: seq<State<V>>, steps: seq<Step>, k: nat)
    requires k <= |steps| < |states|
  {
    (states[k].callerDone ==> CallerEnded(steps, k))
    && (states[k].firstErr.Some? ==> Happened(states, steps, k, states[k].firstErr.value))
    && forall w :: 0 <= w < |states[k].workers| && states[k].workers[w].Failing?
         ==> Happened(states, steps, k, states[k].workers[w].error)
  }

  /** The error that a worker runs into is what happens in the step. */
  lemma NewErrorHappens<V>(s: State<V>, t: Step, value: nat -> V)
    requires Ready(s, t) && ByWorker(t) && !s.workers[t.w].Failing? && Apply(s, t, value).workers[t.w].Failing?
    ensures match Apply(s, t, value).workers[t.w].error {
      case FromItem(i, code) => RunFails(s, t, i, code)
      case FromDeadline(i) => DeadlinePasses(s, t, i)
      case FromCaller => s.callerDone
      case Internal => true
    }
  {}

  lemma CallerEndsOnce<V>(s: State<V>, t: Step, value: nat -> V)
    requires Ready(s, t) && Apply(s, t, value).callerDone && !s.callerDone
    ensures t.CallerEnds?
  {}

  lemma HappenedStays<V>(states: seq<State<V>>, steps: seq<Step>, k: nat, e: Error)
    requires k < |steps| < |states| && Happened(states, steps, k, e)
    ensures Happened(states, steps, k + 1, e)
  {}

  lemma HappensNow<V>(states: seq<State<V>>, steps: seq<Step>, k: nat, value: nat -> V)
    requires k < |steps| < |states| && Ready(states[k], steps[k]) && states[k + 1] == Apply(states[k], steps[k], value)
    requires ByWorker(steps[k]) && !states[k].workers[steps[k].w].Failing? && states[k + 1].workers[steps[k].w].Failing?
    requires states[k].callerDone ==> CallerEnded(steps, k)
    ensures Happened(states, steps, k + 1, states[k + 1].workers[steps[k].w].error)
  {
    NewErrorHappens(states[k], steps[k], value);
    if states[k].callerDone { HappenedStays(states, steps, k, FromCaller); }
    hide Apply, Ready;
  }

  lemma ErrorsHappenedStep<V>(states: seq<State<V>>, steps: seq<Step>, k: nat, value: nat -> V)
    requires k < |steps| < |states| && Ready(states[k], steps[k]) && states[k + 1] == Apply(states[k], steps[k], value)
    requires ErrorsHappened(states, steps, k)
    ensures ErrorsHappened(states, steps, k + 1)
  {
    var s, t, s' := states[k], steps[k], states[k + 1];
    OthersStay(s, t, value);
    if ByWorker(t) { MoverTurns(s, t, value); }
    hide Apply, Happened;
    if s'.callerDone && !s.callerDone { CallerEndsOnce(s, t, value); }
    if s'.firstErr.Some? {
      HappenedStays(states, steps, k, s'.firstErr.value);
    }
    forall w | 0 <= w < |s'.workers| && s'.workers[w].Failing?
      ensures Happened(states, steps, k + 1, s'.workers[w].error)
    {
      if ByWorker(t) && t.w == w {
        HappensNow(states, steps, k, value);
      } else {
        HappenedStays(states, steps, k, s.workers[w].error);
      }
    }
  }

  lemma {:induction false} AlwaysHappened<V>(states: seq<State<V>>, steps: seq<Step>, total: nat, workers: nat,
                                             value: nat -> V, k: nat)
    requires Run(states, steps, total, workers, value) && k < |states|
    ensures ErrorsHappened(states, steps, k)
  {
    if k > 0 {
      hide ErrorsHappened, Apply;
      AlwaysHappened(states, steps, total, workers, value, k - 1);
      ErrorsHappenedStep(states, steps, k - 1, value);
    } else {
      hide Happened;
    }
  }

  /** An error returned is the very error of an item that was run, the deadline of an item that
      was found passed, or the end of the caller's context; never the cancellation the run itself
      caused. */
  lemma ErrorOrigin<V>(states: seq<State<V>>, steps: seq<Step>, total: nat, workers: nat, value: nat -> V, k: nat)
    requires Run(states, steps, total, workers, value) && k < |states| && Result(states[k]).Some?
    ensures Genuine(states[k], Result(states[k]).value)
    ensures match Result(states[k]).value {
      case FromItem(i, code) =>
        exists j :: 0 <= j < k && steps[j].RunItem? && steps[j].failure == Some(code)
                    && steps[j].w < |states[j].workers| && states[j].workers[steps[j].w] == Running(i)
      case FromDeadline(i) =>
        exists j :: 0 <= j < k && (steps[j].Enter? || steps[j].Leave?) && steps[j].deadline
                    && steps[j].w < |states[j].workers|
                    && (states[j].workers[steps[j].w] == Entering(i) || states[j].workers[steps[j].w] == Returned(i))
      case FromCaller => exists j :: 0 <= j < k && steps[j].CallerEnds?
      case Internal => false
    }
  {
    Always(states, steps, total, workers, value, k);
    AlwaysHappened(states, steps, total, workers, value, k);
    hide OwnInv, RunInv, Apply, Run;
  }

  // ----- what goes wrong is reported -----

  predicate GoesWrong(t: Step) {
    (t.RunItem? && t.failure.Some?) || ((t.Enter? || t.Leave?) && t.deadline)
  }

  ghost predicate Troubled<V>(s: State<V>) {
    s.firstErr.Some? || SomeFailing(s)
  }

  lemma TroubleStarts<V>(s: State<V>, t: Step, value: nat -> V)
    requires Ready(s, t) && GoesWrong(t)
    ensures Troubled(Apply(s, t, value))
  {
    assert Apply(s, t, value).workers[t.w].Failing?;
  }

  lemma TroubleStays<V>(s: State<V>, t: Step, value: nat -> V)
    requires Ready(s, t) && Troubled(s)
    ensures Troubled(Apply(s, t, value))
  {
    OthersStay(s, t, value);
    if ByWorker(t) { MoverTurns(s, t, value); }
    hide Apply;
    if s.firstErr == None {
      var w :| 0 <= w < |s.workers| && s.workers[w].Failing?;
      assert (ByWorker(t) && t.w == w) || Apply(s, t, value).workers[w].Failing?;
    }
  }

  lemma {:induction false} TroubleLasts<V>(states: seq<State<V>>, steps: seq<Step>, total: nat, workers: nat,
                                           value: nat -> V, j: nat, k: nat)
    requires Run(states, steps, total, workers, value) && j < k < |states| && GoesWrong(steps[j])
    ensures Troubled(states[k])
    decreases k
  {
    hide Apply, Troubled, GoesWrong;
    if j == k - 1 {
      TroubleStarts(states[j], steps[j], value);
    } else {
      TroubleLasts(states, steps, total, workers, value, j, k - 1);
      TroubleStays(states[k - 1], steps[k - 1], value);
    }
  }

  lemma {:induction false} CallerStaysEnded<V>(states: seq<State<V>>, steps: seq<Step>, total: nat, workers: nat,
                                               value: nat -> V, j: nat, k: nat)
    requires Run(states, steps, total, workers, value) && j < k < |states| && steps[j].CallerEnds?
    ensures states[k].callerDone
    decreases k
  {
    if j < k - 1 {
      CallerStaysEnded(states, steps, total, workers, value, j, k - 1);
      NothingGoesBack(states[k - 1], steps[k - 1], value);
      hide Apply;
    }
  }

  /** A run that returns no error met none: no item failed, no deadline was found passed, and
      the caller's context did not end. */
  lemma NoErrorMeansNoneMet<V>(states: seq<State<V>>, steps: seq<Step>, total: nat, workers: nat, value: nat -> V, k: nat)
    requires Run(states, steps, total, workers, value) && k < |states|
    requires AllExited(states[k]) && Result(states[k]) == None
    ensures forall j :: 0 <= j < k ==>
              !(steps[j].RunItem? && steps[j].failure.Some?) && !((steps[j].Enter? || steps[j].Leave?) && steps[j].deadline)
              && !steps[j].CallerEnds?
  {
    forall j | 0 <= j < k ensures !GoesWrong(steps[j]) && !steps[j].CallerEnds? {
      if GoesWrong(steps[j]) { TroubleLasts(states, steps, total, workers, value, j, k); }
      if steps[j].CallerEnds? { CallerStaysEnded(states, steps, total, workers, value, j, k); }
    }
    hide Run, Apply;
  }

  ghost predicate NoDeadlineSeen<V>(s: State<V>) {
    (s.firstErr.Some? ==> !s.firstErr.value.FromDeadline?)
    && forall w :: 0 <= w < |s.workers| && s.workers[w].Failing? ==> !s.workers[w].error.FromDeadline?
  }

  lemma NoDeadlineStep<V>(s: State<V>, t: Step, value: nat -> V)
    requires NoDeadlineSeen(s) && Ready(s, t) && !((t.Enter? || t.Leave?) && t.deadline)
    ensures NoDeadlineSeen(Apply(s, t, value))
  {
    OthersStay(s, t, value);
    if ByWorker(t) {
      MoverTurns(s, t, value);
      if Apply(s, t, value).workers[t.w].Failing? { NewErrorHappens(s, t, value); }
    }
    hide Apply, Ready;
  }

  lemma {:induction false} NoDeadlines<V>(states: seq<State<V>>, steps: seq<Step>, total: nat, workers: nat,
                                          value: nat -> V, k: nat)
    requires Run(states, steps, total, workers, value) && k < |states|
    requires forall j :: 0 <= j < k ==> !((steps[j].Enter? || steps[j].Leave?) && steps[j].deadline)
    ensures NoDeadlineSeen(states[k])
  {
    if k > 0 {
      hide NoDeadlineSeen, Apply, Ready;
      NoDeadlines(states, steps, total, workers, value, k - 1);
      NoDeadlineStep(states[k - 1], steps[k - 1], value);
    }
  }

  /** While the caller's context lasts and no item deadline expires, an error returned is the
      error of an item that ran. */
  lemma OnlyItemErrors<V>(states: seq<State<V>>, steps: seq<Step>, total: nat, workers: nat, value: nat -> V, k: nat)
    requires Run(states, steps, total, workers, value) && k < |states| && Result(states[k]).Some?
    requires !states[k].callerDone
    requires forall j :: 0 <= j < k ==> !((steps[j].Enter? || steps[j].Leave?) && steps[j].deadline)
    ensures var e := Result(states[k]).value;
      e.FromItem? && e.index < |states[k].runs| && states[k].runs[e.index] == 1
      && exists j :: 0 <= j < k && RunFails(states[j], steps[j], e.index, e.code)
  {
    ErrorOrigin(states, steps, total, workers, value, k);
    NoDeadlines(states, steps, total, workers, value, k);
  }

  // ----- termination -----

  function Rank(w: Worker): nat {
    match w
    case Idle => 1
    case Holding(_) => 8
    case Stopping(_) => 7
    case Entering(_) => 7
    case Running(_) => 6
    case Returned(_) => 5
    case Failing(_) => 3
    case Cancelling => 2
    case Exited => 0
  }

  function RankSum(workers: seq<Worker>): nat {
    if workers == [] then 0 else Rank(workers[0]) + RankSum(workers[1..])
  }

  lemma {:induction false} RankSumUpdate(workers: seq<Worker>, w: nat, worker: Worker)
    requires w < |workers|
    ensures RankSum(workers[w := worker]) + Rank(workers[w]) == RankSum(workers) + Rank(worker)
  {
    if w > 0 {
      assert workers[w := worker][1..] == workers[1..][w - 1 := worker];
      RankSumUpdate(workers[1..], w - 1, worker);
    } else {
      assert workers[w := worker][1..] == workers[1..];
    }
  }

  ghost function Measure<V>(s: State<V>): int {
    8 * (|s.stage| - s.next) + RankSum(s.workers) + (if s.callerDone then 0 else 1) + (if s.workerDone then 0 else 1)
  }

  /** The rank of the worker that moves falls by more than the queue's worth. */
  lemma MoverRankFalls<V>(s: State<V>, t: Step, value: nat -> V)
    requires Ready(s, t) && ByWorker(t) && s.next <= |s.stage|
    ensures var s' := Apply(s, t, value);
      |s'.workers| == |s.workers| && Rank(s'.workers[t.w]) + 8 * (s.next - s'.next) < Rank(s.workers[t.w])
  {
    OneWorkerMoves(s, t, value);
    MoverIs(s, t, value);
    QueueMoves(s, t, value);
    hide Apply;
  }

  lemma QueueMoves<V>(s: State<V>, t: Step, value: nat -> V)
    requires Ready(s, t)
    ensures Apply(s, t, value).next == if t.Receive? && s.next < |s.stage| then s.next + 1 else s.next
  {
    hide ItemContext;
  }

  lemma StepDecreases<V>(s: State<V>, t: Step, value: nat -> V, total: nat, workers: nat)
    requires OwnInv(s, total, workers) && Ready(s, t)
    ensures Measure(Apply(s, t, value)) < Measure(s)
  {
    OwnSizes(s, total, workers);
    hide OwnInv;
    if ByWorker(t) {
      MoverRankFalls(s, t, value);
      OneWorkerMoves(s, t, value);
      NothingGoesBack(s, t, value);
      var w := t.w;
      hide Apply, Ready, ByWorker;
      var s' := Apply(s, t, value);
      RankSumUpdate(s.workers, w, s'.workers[w]);
    }
  }

  lemma {:induction false} IdleRanks(workers: seq<Worker>)
    requires forall w :: 0 <= w < |workers| ==> workers[w].Idle?
    ensures RankSum(workers) == |workers|
  {
    if workers != [] { IdleRanks(workers[1..]); }
  }

  lemma InitMeasure<V>(total: nat, workers: nat)
    ensures Measure(Init<V>(total, workers)) == 8 * total + workers + 2
  {
    IdleRanks(Init<V>(total, workers).workers);
  }

  lemma MeasureNat<V>(s: State<V>, total: nat, workers: nat)
    requires OwnInv(s, total, workers)
    ensures Measure(s) >= 0
  {}

  /** Every interleaving is finite: it has at most eight steps for each item, one for each
      worker and two for the contexts. */
  lemma {:induction false} RunsAreFinite<V>(states: seq<State<V>>, steps: seq<Step>, total: nat, workers: nat,
                                            value: nat -> V, k: nat)
    requires Run(states, steps, total, workers, value) && k < |states|
    ensures k + Measure(states[k]) <= 8 * total + workers + 2
    ensures k <= 8 * total + workers + 2
  {
    hide Measure, Apply, Ready, Init, OwnInv, RunInv, ErrorInv;
    Always(states, steps, total, workers, value, k);
    MeasureNat(states[k], total, workers);
    if k > 0 {
      RunsAreFinite(states, steps, total, workers, value, k - 1);
      Always(states, steps, total, workers, value, k - 1);
      StepDecreases(states[k - 1], steps[k - 1], value, total, workers);
    } else {
      InitMeasure<V>(total, workers);
    }
  }

  /** An error reported but not yet acted on has its worker about to cancel. */
  ghost predicate CancelInv<V>(s: State<V>) {
    s.firstErr.Some? && !s.workerDone ==> exists w :: 0 <= w < |s.workers| && s.workers[w].Cancelling?
  }

  lemma CancelStep<V>(s: State<V>, t: Step, value: nat -> V)
    requires CancelInv(s) && Ready(s, t)
    ensures CancelInv(Apply(s, t, value))
  {
    var s' := Apply(s, t, value);
    if s'.firstErr.Some? && !s'.workerDone {
      if s.firstErr.Some? {
        var w :| 0 <= w < |s.workers| && s.workers[w].Cancelling?;
        assert s'.workers[w].Cancelling?;
      } else {
        assert s'.workers[t.w].Cancelling?;
      }
    }
  }

  lemma {:induction false} CancelAlways<V>(states: seq<State<V>>, steps: seq<Step>, total: nat, workers: nat,
                                           value: nat -> V, k: nat)
    requires Run(states, steps, total, workers, value) && k < |states|
    ensures CancelInv(states[k])
  {
    if k > 0 {
      CancelAlways(states, steps, total, workers, value, k - 1);
      CancelStep(states[k - 1], steps[k - 1], value);
    }
  }

  /** The step a worker can take next, unless it waits to report an error. */
  function NextStep(worker: Worker, w: nat): Step {
    match worker
    case Idle => Receive(w)
    case Holding(_) => CheckWorker(w)
    case Stopping(_) => CheckCaller(w)
    case Entering(_) => Enter(w, false)
    case Running(_) => RunItem(w, None)
    case Returned(_) => Leave(w, false)
    case Failing(_) => Report(w)
    case Cancelling => Cancel(w)
    case Exited => CallerEnds
  }

  /** No interleaving gets stuck: until every worker has exited, one of them can go on. */
  lemma SomeWorkerCanGoOn<V>(states: seq<State<V>>, steps: seq<Step>, total: nat, workers: nat, value: nat -> V, k: nat)
    requires Run(states, steps, total, workers, value) && k < |states| && !AllExited(states[k])
    ensures exists t :: ByWorker(t) && Ready(states[k], t)
  {
    var s := states[k];
    CancelAlways(states, steps, total, workers, value, k);
    var w :| 0 <= w < |s.workers| && !s.workers[w].Exited?;
    if s.workers[w].Failing? && s.firstErr.Some? && !s.workerDone {
      var v :| 0 <= v < |s.workers| && s.workers[v].Cancelling?;
      assert Ready(s, Cancel(v));
    } else {
      assert Ready(s, NextStep(s.workers[w], w));
    }
  }

  // ----- the serial run -----

  /** A serial run: `failure` is how the item function fails at an index, if it does, `early` and
      `late` whether the item's own deadline has passed before or after it, and `ended` whether
      the caller's context is found ended at the n-th look at a context. There are four for each
      item, two at its own context, which ends with the caller's, between two at the caller's. The
      items before the last one run went well, what was filled stays filled, and the run ends
      with the first failure, the first expired deadline or the end of the caller's context. */
  ghost predicate SerialRun<V>(total: nat, value: nat -> V, failure: nat -> Option<Error>, early: nat -> bool,
                               late: nat -> bool, ended: nat -> bool, err: Option<Error>, slots: seq<Option<V>>, ran: nat) {
    |slots| == total && ran <= total
    && (forall i :: 0 <= i < total ==> slots[i] == if i < ran && failure(i) == None then Some(value(i)) else None)
    && (forall i :: 0 <= i < ran - 1 ==> failure(i) == None && !late(i))
    && (forall i :: 0 <= i < ran ==> !early(i))
    && (forall n :: 0 <= n < 4 * ran - 2 ==> !ended(n))
    && (err == None ==> ran == total && (total > 0 ==> !ended(4 * total) && WentWell(total - 1, failure, late, ended)))
    && (err.Some? ==> total > 0)
    && (err.Some? ==>
          (err == Some(FromCaller) && CallerStops(total, ran, ended))
          || (ran < total && early(ran) && err == Some(FromDeadline(ran)))
          || (ran > 0 && err == failure(ran - 1))
          || (ran > 0 && failure(ran - 1) == None && late(ran - 1) && err == Some(FromDeadline(ran - 1))))
  }

  predicate WentWell(i: nat, failure: nat -> Option<Error>, late: nat -> bool, ended: nat -> bool) {
    failure(i) == None && !late(i) && !ended(4 * i + 2) && !ended(4 * i + 3)
  }

  /** After this many items a look at a context finds that it has ended. */
  predicate CallerStops(total: nat, ran: nat, ended: nat -> bool) {
    ended(4 * ran) || (ran < total && ended(4 * ran + 1)) || (ran > 0 && (ended(4 * ran - 2) || ended(4 * ran - 1)))
  }

  /** The serial mode, and how many items it has run; without items nothing is looked at. */
  method RunSerial<V>(total: nat, value: nat -> V, failure: nat -> Option<Error>, early: nat -> bool, late: nat -> bool,
                      ended: nat -> bool)
    returns (err: Option<Error>, slots: seq<Option<V>>, ran: nat)
    ensures SerialRun(total, value, failure, early, late, ended, err, slots, ran)
    ensures |slots| == total && (err == None ==> forall i :: 0 <= i < total ==> slots[i] == Some(value(i)))
  {
    slots, ran, err := seq(total, i => None), 0, None;
    if total == 0 {
      return;
    }
    var checks := 0;
    for i := 0 to total
      invariant ran == i && |slots| == total
      invariant forall j :: 0 <= j < i ==> failure(j) == None && slots[j] == Some(value(j))
      invariant forall j :: 0 <= j < i ==> !early(j) && !late(j)
      invariant checks == 4 * i && forall n :: 0 <= n < checks ==> !ended(n)
      invariant forall j :: i <= j < total ==> slots[j] == None
    {
      if ended(checks) {
        return Some(FromCaller), slots, ran;
      }
      if ended(checks + 1) {
        return Some(FromCaller), slots, ran;
      }
      if early(i) {
        return Some(FromDeadline(i)), slots, ran;
      }
      ran := i + 1;
      var failed := failure(i);
      if failed.Some? {
        return failed, slots, ran;
      }
      slots := slots[i := Some(value(i))];
      if ended(checks + 2) {
        return Some(FromCaller), slots, ran;
      }
      if late(i) {
        return Some(FromDeadline(i)), slots, ran;
      }
      if ended(checks + 3) {
        return Some(FromCaller), slots, ran;
      }
      checks := checks + 4;
    }
    if ended(checks) {
      return Some(FromCaller), slots, ran;
    }
  }

  /** A serial run of any items returns no error exactly if it meets none: no item fails, no
      deadline passes and no look finds the caller's context ended. */
  lemma SerialMeetsNoError<V>(total: nat, value: nat -> V, failure: nat -> Option<Error>, early: nat -> bool,
                              late: nat -> bool, ended: nat -> bool, err: Option<Error>, slots: seq<Option<V>>, ran: nat)
    requires SerialRun(total, value, failure, early, late, ended, err, slots, ran) && total > 0
    ensures err == None
       <==> (forall i :: 0 <= i < total ==> failure(i) == None && !early(i) && !late(i))
            && forall n :: 0 <= n <= 4 * total ==> !ended(n)
  {
    if err == None {
      assert ran == total && 4 * (total - 1) + 2 == 4 * total - 2 && 4 * (total - 1) + 3 == 4 * total - 1;
      forall n | 0 <= n <= 4 * total ensures !ended(n) {
        assert n < 4 * ran - 2 || n == 4 * total - 2 || n == 4 * total - 1 || n == 4 * total;
      }
    }
  }

  /** A parallel run that returns no error leaves the very slots that a serial run returns when
      it returns none. */
  lemma ParallelIsSerial<V>(states: seq<State<V>>, steps: seq<Step>, total: nat, workers: nat, value: nat -> V, k: nat,
                            failure: nat -> Option<Error>, early: nat -> bool, late: nat -> bool, ended: nat -> bool,
                            slots: seq<Option<V>>, ran: nat)
    requires Run(states, steps, total, workers, value) && k < |states| && workers > 0
    requires AllExited(states[k]) && Result(states[k]) == None
    requires SerialRun(total, value, failure, early, late, ended, None, slots, ran)
    ensures states[k].slots == slots
  {
    NoErrorMeansAllRan(states, steps, total, workers, value, k);
  }
}
