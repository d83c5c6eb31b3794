/** Reindex state and freshness waits per repository (state_controller.go). A Go channel is
    a number; closing it is recorded in a log, so closing twice would show. */
module Freshness {
  import opened Common
  import opened Text

  datatype RepoState = RepoState(active: nat, reindexing: bool, staleSince: Option<int>,
                                 lastError: string, failures: nat, waitCh: nat)

  /** The controller's shared state; `next` numbers the channels. */
  datatype Control = Control(states: map<string, RepoState>, closings: seq<nat>, next: nat)

  const EMPTY := Control(map[], [], 0)

  /** What happens to a repository: it is watched, or a reindex starts, succeeds or fails. */
  datatype Signal = Watched | Started(at: int) | Done | Failed(message: string, at: int)

  datatype Event = Event(repo: string, signal: Signal)

  /** `ensureStateLocked`: an unknown repository gets a channel that is closed already. */
  function Ensured(c: Control, repo: string): Control {
    if repo in c.states then c
    else Control(c.states[repo := RepoState(0, false, None, "", 0, c.next)], c.closings + [c.next], c.next + 1)
  }

  /** `closeSignal` */
  function Close(c: Control, ch: nat): Control {
    if ch in c.closings then c else c.(closings := c.closings + [ch])
  }

  function Since(s: RepoState, at: int): Option<int> {
    if s.staleSince == None then Some(at) else s.staleSince
  }

  function Pred(n: nat): nat {
    if n > 0 then n - 1 else 0
  }

  /** The state of the repository after the signal; a first start gets the new channel. */
  function NextState(s: RepoState, signal: Signal, next: nat): RepoState {
    match signal
    case Watched => s
    case Started(at) =>
      s.(active := s.active + 1, reindexing := true, lastError := "", staleSince := Since(s, at),
         waitCh := if s.active == 0 then next else s.waitCh)
    case Done =>
      if s.active > 1 then s.(active := s.active - 1, reindexing := true)
      else RepoState(0, false, None, "", 0, s.waitCh)
    case Failed(message, at) =>
      s.(active := Pred(s.active), lastError := TrimSpace(message), failures := s.failures + 1,
         staleSince := Since(s, at), reindexing := s.active > 1)
  }

  function Apply(c0: Control, e: Event): Control {
    var c := Ensured(c0, e.repo);
    var s := c.states[e.repo];
    var s' := NextState(s, e.signal, c.next);
    var d := c.(states := c.states[e.repo := s']);
    if e.signal.Started? then d.(next := if s.active == 0 then c.next + 1 else c.next)
    else if e.signal.Watched? || s'.active > 0 then d
    else Close(d, s.waitCh)
  }

  datatype Status = Status(isFresh: bool, indexStale: bool, inProgress: bool, lastError: string, failures: nat)

  /** `statusFromState`, without the age of the staleness */
  function StatusOf(s: RepoState, waitSemantics: bool): Status {
    var indexStale := s.reindexing || s.staleSince.Some?;
    var status := Status(!indexStale, indexStale, s.reindexing, "", 0);
    if waitSemantics && !s.reindexing && s.failures < 2 then status.(isFresh := true)
    else if s.failures >= 2 && s.lastError != "" then
      Status(if waitSemantics then false else status.isFresh, indexStale, s.reindexing, s.lastError, s.failures)
    else status
  }

  const UNKNOWN := Status(true, false, false, "", 0)

  // ----- waiting -----

  /** How a wait goes on after its look at the state: it is answered, gives up at once, or
      sleeps on the wait channel it saw. */
  datatype Wait = NoRepo | Answered(status: Status) | GivesUp(seen: Status) | Sleeps(ch: nat, seen: Status)

  /** What ends the sleep: the channel, the timer or the caller's context. */
  datatype Wake = ByChannel | ByTimer | ByContext

  /** `WaitForFresh` up to its `select`. */
  function BeginWait(c: Control, repo: string, timeoutMS: int): Wait {
    if repo == "" then NoRepo
    else if repo !in c.states then Answered(UNKNOWN)
    else
      var snapshot := StatusOf(c.states[repo], true);
      if !snapshot.inProgress then Answered(snapshot)
      else if timeoutMS <= 0 then GivesUp(snapshot)
      else Sleeps(c.states[repo].waitCh, snapshot)
  }

  class StateController {
    var states: map<string, RepoState>
    var closings: seq<nat>
    var nextChannel: nat

    ghost function Contents(): Control
      reads this
    {
      Control(states, closings, nextChannel)
    }

    constructor ()
      ensures Contents() == EMPTY
    {
      states, closings, nextChannel := map[], [], 0;
    }

    method EnsureState(repo: string) returns (state: RepoState)
      modifies this
      ensures Contents() == Ensured(old(Contents()), repo) && repo in states && state == states[repo]
    {
      if repo !in states {
        closings := closings + [nextChannel];
        states := states[repo := RepoState(0, false, None, "", 0, nextChannel)];
        nextChannel := nextChannel + 1;
      }
      state := states[repo];
    }

    method CloseSignal(ch: nat)
      modifies `closings
      ensures Contents() == Close(old(Contents()), ch)
    {
      if ch in closings {
        return;
      }
      closings := closings + [ch];
    }

    method MarkReindexStart(rawRepo: string, now: int)
      modifies this
      ensures var repo := TrimSpace(rawRepo);
        Contents() == if repo == "" then old(Contents()) else Apply(old(Contents()), Event(repo, Started(now)))
    {
      var repo := TrimSpace(rawRepo);
      if repo == "" {
        return;
      }
      var state := EnsureState(repo);
      var wasIdle := state.active == 0;
      state := state.(active := state.active + 1, reindexing := true, lastError := "");
      if state.staleSince == None {
        state := state.(staleSince := Some(now));
      }
      if wasIdle {
        state := state.(waitCh := nextChannel);
        nextChannel := nextChannel + 1;
      }
      states := states[repo := state];
    }

    method MarkReindexDone(rawRepo: string)
      modifies this
      ensures var repo := TrimSpace(rawRepo);
        Contents() == if repo == "" then old(Contents()) else Apply(old(Contents()), Event(repo, Done))
    {
      var repo := TrimSpace(rawRepo);
      if repo == "" {
        return;
      }
      var state := EnsureState(repo);
      if state.active > 0 {
        state := state.(active := state.active - 1);
      }
      if state.active > 0 {
        states := states[repo := state.(reindexing := true)];
        return;
      }
      states := states[repo := RepoState(0, false, None, "", 0, state.waitCh)];
      CloseSignal(state.waitCh);
    }

    method MarkReindexFailed(rawRepo: string, errMessage: string, now: int)
      modifies this
      ensures var repo := TrimSpace(rawRepo);
        Contents() == if repo == "" then old(Contents()) else Apply(old(Contents()), Event(repo, Failed(errMessage, now)))
    {
      var repo := TrimSpace(rawRepo);
      if repo == "" {
        return;
      }
      var state := EnsureState(repo);
      if state.active > 0 {
        state := state.(active := state.active - 1);
      }
      state := state.(lastError := TrimSpace(errMessage), failures := state.failures + 1);
      if state.staleSince == None {
        state := state.(staleSince := Some(now));
      }
      if state.active > 0 {
        states := states[repo := state.(reindexing := true)];
        return;
      }
      states := states[repo := state.(active := 0, reindexing := false)];
      CloseSignal(state.waitCh);
    }

    /** `Query`; a blank name is an error. */
    method Query(rawRepo: string) returns (status: Option<Status>)
      ensures var repo := TrimSpace(rawRepo);
        status == if repo == "" then None
                  else if repo in states then Some(StatusOf(states[repo], false)) else Some(Status(true, false, false, "", 0))
    {
      var repo := TrimSpace(rawRepo);
      if repo == "" {
        return None;
      }
      if repo !in states {
        return Some(UNKNOWN);
      }
      return Some(StatusOf(states[repo], false));
    }

    /** The first half of `WaitForFresh`, under the read lock. */
    method StartWait(rawRepo: string, timeoutMS: int) returns (wait: Wait)
      ensures wait == BeginWait(Contents(), TrimSpace(rawRepo), timeoutMS)
    {
      var repo := TrimSpace(rawRepo);
      if repo == "" {
        return NoRepo;
      }
      var timeout := if timeoutMS < 0 then 0 else timeoutMS;
      if repo !in states {
        return Answered(UNKNOWN);
      }
      var waitCh := states[repo].waitCh;
      var snapshot := StatusOf(states[repo], true);
      if !snapshot.inProgress {
        return Answered(snapshot);
      }
      if timeout <= 0 {
        return GivesUp(snapshot);
      }
      return Sleeps(waitCh, snapshot);
    }

    /** The second half: only a wait ended by its channel returns without an error, and what
        it reports is the state at that moment, not the one it saw before. */
    method FinishWait(repo: string, wait: Wait, wake: Wake) returns (status: Status, failed: bool)
      requires wait.Sleeps? && repo in states
      ensures failed <==> !wake.ByChannel?
      ensures status == if wake.ByContext? then wait.seen else StatusOf(states[repo], true)
    {
      match wake
      case ByContext => return wait.seen, true;
      case ByTimer => return StatusOf(states[repo], true), true;
      case ByChannel => return StatusOf(states[repo], true), false;
    }
  }

  // ----- whole histories -----

  ghost function After(events: seq<Event>): Control {
    if events == [] then EMPTY else Apply(After(events[..|events| - 1]), events[|events| - 1])
  }

  /** What a repository has seen, in order. */
  ghost function History(events: seq<Event>, repo: string): seq<Signal> {
    if events == [] then []
    else
      var last := events[|events| - 1];
      History(events[..|events| - 1], repo) + if last.repo == repo then [last.signal] else []
  }

  ghost predicate RepoInv(s: RepoState, closings: seq<nat>, next: nat) {
    (s.reindexing <==> s.active > 0) && (s.waitCh in closings <==> s.active == 0) && s.waitCh < next
    && (s.active > 0 || s.failures > 0 ==> s.staleSince.Some?)
  }

  /** A repository is reindexing exactly while its count is positive and its wait channel is
      open; no two repositories share a channel; and no channel was closed twice. */
  ghost predicate Inv(c: Control) {
    (forall r :: r in c.states ==> RepoInv(c.states[r], c.closings, c.next))
    && (forall q, r :: q in c.states && r in c.states && q != r ==> c.states[q].waitCh != c.states[r].waitCh)
    && (forall i :: 0 <= i < |c.closings| ==> c.closings[i] < c.next)
    && forall i, j :: 0 <= i < j < |c.closings| ==> c.closings[i] != c.closings[j]
  }

  lemma EnsuredInv(c: Control, repo: string)
    requires Inv(c)
    ensures Inv(Ensured(c, repo)) && repo in Ensured(c, repo).states
  {
    var d := Ensured(c, repo);
    forall r | r in d.states ensures RepoInv(d.states[r], d.closings, d.next) {
      if r in c.states { assert RepoInv(c.states[r], c.closings, c.next); }
    }
  }

  /** One repository's state may change, and its own channel may be closed. */
  lemma UpdateInv(c: Control, repo: string, s: RepoState, closings: seq<nat>)
    requires Inv(c) && repo in c.states && s.waitCh == c.states[repo].waitCh
    requires closings == c.closings || (s.waitCh !in c.closings && closings == c.closings + [s.waitCh])
    requires RepoInv(s, closings, c.next)
    ensures Inv(Control(c.states[repo := s], closings, c.next))
  {
    assert RepoInv(c.states[repo], c.closings, c.next);
    forall r | r in c.states && r != repo ensures RepoInv(c.states[r], closings, c.next) {
      assert c.states[r].waitCh != s.waitCh;
      assert RepoInv(c.states[r], c.closings, c.next);
    }
  }

  /** A repository may get a channel no one else has. */
  lemma NewChannelInv(c: Control, repo: string, s: RepoState)
    requires Inv(c) && repo in c.states && s.waitCh == c.next && RepoInv(s, c.closings, c.next + 1)
    ensures Inv(Control(c.states[repo := s], c.closings, c.next + 1))
  {
    forall r | r in c.states ensures c.states[r].waitCh < c.next && RepoInv(c.states[r], c.closings, c.next + 1) {
      assert RepoInv(c.states[r], c.closings, c.next);
    }
  }

  lemma ApplyInv(c0: Control, e: Event)
    requires Inv(c0)
    ensures Inv(Apply(c0, e))
  {
    hide Inv;
    EnsuredInv(c0, e.repo);
    var c := Ensured(c0, e.repo);
    var s := c.states[e.repo];
    var s' := NextState(s, e.signal, c.next);
    StateInv(c, e.repo);
    if e.signal.Started? && s.active == 0 {
      NewChannelInv(c, e.repo, s');
    } else {
      UpdateInv(c, e.repo, s', Apply(c0, e).closings);
    }
  }

  lemma StateInv(c: Control, repo: string)
    requires Inv(c) && repo in c.states
    ensures RepoInv(c.states[repo], c.closings, c.next)
    ensures forall i :: 0 <= i < |c.closings| ==> c.closings[i] < c.next
  {}

  lemma {:induction false} ReachableInv(events: seq<Event>)
    ensures Inv(After(events))
  {
    if events != [] {
      ReachableInv(events[..|events| - 1]);
      ApplyInv(After(events[..|events| - 1]), events[|events| - 1]);
    }
  }

  // ----- what freshness means -----

  /** Reindexes running after the signals; finishing more than was started is ignored. */
  ghost function Running(h: seq<Signal>): nat {
    if h == [] then 0
    else
      var before := Running(h[..|h| - 1]);
      match h[|h| - 1]
      case Watched => before
      case Started(_) => before + 1
      case Done => Pred(before)
      case Failed(_, _) => Pred(before)
  }

  /** Signal `i` is a success that leaves nothing running. */
  ghost predicate Settles(h: seq<Signal>, i: nat)
    requires i < |h|
  {
    h[i] == Done && Running(h[..i]) <= 1
  }

  /** Index after the last settling success. */
  ghost function LastSettled(h: seq<Signal>): (n: nat)
    ensures n <= |h|
  {
    if h == [] then 0
    else if Settles(h, |h| - 1) then |h| else LastSettled(h[..|h| - 1])
  }

  lemma {:induction false} LastSettledIsLast(h: seq<Signal>)
    ensures var n := LastSettled(h);
      (n > 0 ==> Settles(h, n - 1)) && forall i :: n <= i < |h| ==> !Settles(h, i)
  {
    if h != [] {
      var p := h[..|h| - 1];
      LastSettledIsLast(p);
      forall i | 0 <= i < |p| ensures Settles(h, i) <==> Settles(p, i) {
        assert h[..i] == p[..i];
      }
    }
  }

  ghost function CountFailed(h: seq<Signal>): nat {
    if h == [] then 0 else CountFailed(h[..|h| - 1]) + (if h[|h| - 1].Failed? then 1 else 0)
  }

  ghost predicate Dirty(h: seq<Signal>) {
    exists i :: 0 <= i < |h| && (h[i].Started? || h[i].Failed?)
  }

  /** The message of the last signal, if no reindex has started since it failed. */
  ghost function LastError(h: seq<Signal>): string {
    if h == [] then ""
    else
      match h[|h| - 1]
      case Started(_) => ""
      case Failed(message, _) => TrimSpace(message)
      case _ => LastError(h[..|h| - 1])
  }

  /** When the first start or failure was. */
  ghost function StaleFrom(h: seq<Signal>): Option<int> {
    if h == [] then None
    else
      match h[0]
      case Started(at) => Some(at)
      case Failed(_, at) => Some(at)
      case _ => StaleFrom(h[1..])
  }

  lemma {:induction false} StaleFromStep(h: seq<Signal>, s: Signal)
    ensures StaleFrom(h + [s]) == if StaleFrom(h).Some? then StaleFrom(h)
                                  else if s.Started? || s.Failed? then Some(s.at) else None
  {
    if h != [] {
      assert (h + [s])[1..] == h[1..] + [s];
      StaleFromStep(h[1..], s);
    }
  }

  lemma LastErrorStep(h: seq<Signal>, s: Signal)
    ensures LastError(h + [s]) == if s.Started? then "" else if s.Failed? then TrimSpace(s.message) else LastError(h)
  {
    assert (h + [s])[..|h|] == h;
  }

  /** The signals since the last settling success. */
  ghost function Unsettled(h: seq<Signal>): seq<Signal> {
    h[LastSettled(h)..]
  }

  lemma UnsettledStep(h: seq<Signal>, s: Signal)
    ensures var h' := h + [s];
      Unsettled(h') == if s == Done && Running(h) <= 1 then [] else Unsettled(h) + [s]
  {
    var h' := h + [s];
    assert h'[..|h|] == h;
  }

  lemma DirtyStep(h: seq<Signal>, s: Signal)
    ensures Dirty(h + [s]) <==> Dirty(h) || s.Started? || s.Failed?
    ensures CountFailed(h + [s]) == CountFailed(h) + (if s.Failed? then 1 else 0)
  {
    assert (h + [s])[..|h|] == h && (h + [s])[|h|] == s;
    if Dirty(h) {
      var i :| 0 <= i < |h| && (h[i].Started? || h[i].Failed?);
      assert (h + [s])[i] == h[i];
    }
  }

  /** The state of a repository agrees with its history. */
  ghost predicate Agrees(c: Control, repo: string, h: seq<Signal>) {
    if repo in c.states then
      var s := c.states[repo];
      s.active == Running(h) && (s.staleSince.Some? <==> Dirty(Unsettled(h))) && s.failures == CountFailed(Unsettled(h))
      && s.lastError == LastError(Unsettled(h)) && s.staleSince == StaleFrom(Unsettled(h))
    else h == []
  }

  lemma AgreesStep(c: Control, e: Event, h: seq<Signal>)
    requires Agrees(c, e.repo, h)
    ensures Agrees(Apply(c, e), e.repo, h + [e.signal])
  {
    hide Unsettled, Dirty, CountFailed, LastError, StaleFrom, TrimSpace;
    UnsettledStep(h, e.signal);
    LastErrorStep(Unsettled(h), e.signal);
    StaleFromStep(Unsettled(h), e.signal);
    DirtyStep(Unsettled(h), e.signal);
    RunningStep(h, e.signal);
    NothingYet();
  }

  lemma RunningStep(h: seq<Signal>, s: Signal)
    ensures Running(h + [s]) == if s.Started? then Running(h) + 1 else if s.Watched? then Running(h) else Pred(Running(h))
  {
    assert (h + [s])[..|h|] == h;
  }

  lemma NothingYet()
    ensures Running([]) == 0 && Unsettled([]) == [] && !Dirty([]) && CountFailed([]) == 0
    ensures LastError([]) == "" && StaleFrom([]) == None
  {}

  lemma OtherReposUntouched(c: Control, e: Event, repo: string)
    requires e.repo != repo
    ensures repo in Apply(c, e).states <==> repo in c.states
    ensures repo in c.states ==> Apply(c, e).states[repo] == c.states[repo]
  {}

  lemma {:induction false} AgreesAlways(events: seq<Event>, repo: string)
    ensures Agrees(After(events), repo, History(events, repo))
  {
    if events != [] {
      var n := |events| - 1;
      var e := events[n];
      AgreesAlways(events[..n], repo);
      if e.repo == repo {
        AgreesStep(After(events[..n]), e, History(events[..n], repo));
      } else {
        OtherReposUntouched(After(events[..n]), e, repo);
        assert History(events, repo) == History(events[..n], repo);
      }
    }
  }

  /** `Query` reports a repository fresh exactly when nothing was started and nothing failed
      since the last success that left no reindex running; a reindex is in progress while more
      started than ended; and from the second failure since then on, it reports how many there
      were and the last message, unless that is blank or a reindex has started since. */
  lemma QueryMeaning(events: seq<Event>, repo: string)
    requires repo in After(events).states
    ensures var s, h := After(events).states[repo], History(events, repo);
      var status, failures, message := StatusOf(s, false), CountFailed(Unsettled(h)), LastError(Unsettled(h));
      (status.isFresh <==> !Dirty(Unsettled(h)))
      && (status.indexStale <==> Dirty(Unsettled(h)))
      && s.failures == failures
      && (status.inProgress <==> Running(h) > 0)
      && (if failures >= 2 && message != "" then status.failures == failures && status.lastError == message
          else status.failures == 0 && status.lastError == "")
  {
    ReachableInv(events);
    AgreesAlways(events, repo);
    assert RepoInv(After(events).states[repo], After(events).closings, After(events).next);
  }

  /** `WaitForFresh` reports fresh exactly when nothing runs and fewer than two failures
      happened since the last settling success. */
  lemma WaitMeaning(events: seq<Event>, repo: string)
    requires repo in After(events).states
    ensures var s, h := After(events).states[repo], History(events, repo);
      var status, failures, message := StatusOf(s, true), CountFailed(Unsettled(h)), LastError(Unsettled(h));
      (status.isFresh <==> Running(h) == 0 && failures < 2)
      && (status.indexStale <==> Dirty(Unsettled(h))) && (status.inProgress <==> Running(h) > 0)
      && (if failures >= 2 && message != "" then status.failures == failures && status.lastError == message
          else status.failures == 0 && status.lastError == "")
  {
    QueryMeaning(events, repo);
    ReachableInv(events);
    assert RepoInv(After(events).states[repo], After(events).closings, After(events).next);
  }

  // ----- waiting -----

  /** Between the two points in time the repository had a moment with nothing running. */
  ghost predicate IdleBetween(events: seq<Event>, repo: string, i: nat, j: nat)
    requires i <= j <= |events|
  {
    exists k :: i < k <= j && Running(History(events[..k], repo)) == 0
  }

  lemma ClosedStays(c: Control, e: Event, ch: nat)
    requires ch in c.closings
    ensures ch in Apply(c, e).closings
  {}

  /** The repository runs a reindex and its waiters hold this channel. */
  ghost predicate WaitsOn(c: Control, repo: string, ch: nat) {
    repo in c.states && c.states[repo].active > 0 && c.states[repo].waitCh == ch
  }

  lemma OpenWhileWaiting(c: Control, repo: string, ch: nat)
    requires Inv(c) && WaitsOn(c, repo, ch)
    ensures ch !in c.closings
  {
    assert RepoInv(c.states[repo], c.closings, c.next);
  }

  /** A step keeps the waiters waiting, or leaves the repository idle and releases them. */
  lemma StepChannel(c: Control, e: Event, repo: string, ch: nat)
    requires Inv(c) && WaitsOn(c, repo, ch)
    ensures WaitsOn(Apply(c, e), repo, ch)
      || (ch in Apply(c, e).closings && repo in Apply(c, e).states && Apply(c, e).states[repo].active == 0)
  {
    OpenWhileWaiting(c, repo, ch);
    if e.repo != repo {
      OtherReposUntouched(c, e, repo);
    }
  }

  lemma RunningIsActive(events: seq<Event>, repo: string)
    ensures repo in After(events).states ==> After(events).states[repo].active == Running(History(events, repo))
    ensures Inv(After(events))
  {
    ReachableInv(events);
    AgreesAlways(events, repo);
  }

  lemma AfterStep(events: seq<Event>, j: nat)
    requires 0 < j <= |events|
    ensures After(events[..j]) == Apply(After(events[..j - 1]), events[j - 1])
  {
    assert events[..j][..j - 1] == events[..j - 1];
  }

  /** A waiter that enters after `i` events, while a reindex runs, and keeps the wait channel
      it saw, finds it closed after `j` events if and only if the repository was idle at some
      moment in between: it is neither released early nor left waiting. */
  lemma {:induction false} WaitersAreReleased(events: seq<Event>, repo: string, ch: nat, i: nat, j: nat)
    requires i <= j <= |events| && WaitsOn(After(events[..i]), repo, ch)
    ensures ch in After(events[..j]).closings <==> IdleBetween(events, repo, i, j)
    ensures IdleBetween(events, repo, i, j) || WaitsOn(After(events[..j]), repo, ch)
    decreases j
  {
    hide Apply, After, History, Running, Inv;
    RunningIsActive(events[..j], repo);
    if j == i {
      OpenWhileWaiting(After(events[..i]), repo, ch);
    } else {
      AfterStep(events, j);
      RunningIsActive(events[..j - 1], repo);
      WaitersAreReleased(events, repo, ch, i, j - 1);
      if IdleBetween(events, repo, i, j - 1) {
        ClosedStays(After(events[..j - 1]), events[j - 1], ch);
        var k :| i < k <= j - 1 && Running(History(events[..k], repo)) == 0;
        assert i < k <= j;
      } else {
        StepChannel(After(events[..j - 1]), events[j - 1], repo, ch);
        if WaitsOn(After(events[..j]), repo, ch) {
          OpenWhileWaiting(After(events[..j]), repo, ch);
          StillBusy(events, repo, i, j);
        } else {
          assert Running(History(events[..j], repo)) == 0;
        }
      }
    }
  }

  /** An unknown repository counts as fresh, and a wait for it is answered at once. */
  lemma UnknownIsFresh(c: Control, repo: string, timeoutMS: int)
    requires repo !in c.states
    ensures BeginWait(c, repo, timeoutMS) == if repo == "" then NoRepo else Answered(Status(true, false, false, "", 0))
  {}

  /** A wait on a known repository is answered at once, given up or put to sleep by what runs at
      its start and by its timeout. One that is answered without an error, at once or after its
      sleep, had a moment with nothing running between its start and its answer; and while
      there is no such moment, it is neither answered at once nor woken by its channel. */
  lemma AnswerMeansIdle(events: seq<Event>, repo: string, timeoutMS: int, i: nat, j: nat)
    requires i <= j <= |events| && repo != "" && repo in After(events[..i]).states
    ensures var wait := BeginWait(After(events[..i]), repo, timeoutMS);
      (wait.Answered? <==> Running(History(events[..i], repo)) == 0)
      && (wait.Answered? ==> (wait.status.isFresh <==> CountFailed(Unsettled(History(events[..i], repo))) < 2))
      && (wait.GivesUp? <==> Running(History(events[..i], repo)) > 0 && timeoutMS <= 0)
      && (wait.Sleeps? <==> Running(History(events[..i], repo)) > 0 && timeoutMS > 0)
      && (wait.Sleeps? ==> (wait.ch in After(events[..j]).closings <==> IdleBetween(events, repo, i, j)))
      && (wait.Sleeps? ==> repo in After(events[..j]).states)
  {
    var c := After(events[..i]);
    RunningIsActive(events[..i], repo);
    WaitMeaning(events[..i], repo);
    StateInv(c, repo);
    StaysKnown(events, repo, i, j);
    if c.states[repo].active > 0 {
      WaitersAreReleased(events, repo, c.states[repo].waitCh, i, j);
    }
  }

  lemma {:induction false} StaysKnown(events: seq<Event>, repo: string, i: nat, j: nat)
    requires i <= j <= |events| && repo in After(events[..i]).states
    ensures repo in After(events[..j]).states
    decreases j
  {
    if i < j {
      StaysKnown(events, repo, i, j - 1);
      AfterStep(events, j);
    }
  }

  lemma StillBusy(events: seq<Event>, repo: string, i: nat, j: nat)
    requires i < j <= |events| && !IdleBetween(events, repo, i, j - 1) && Running(History(events[..j], repo)) > 0
    ensures !IdleBetween(events, repo, i, j)
  {
    hide Running, History;
  }
}
