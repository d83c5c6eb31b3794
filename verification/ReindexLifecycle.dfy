/** How tool handlers bracket a reindex (watcher_lifecycle.go): under a mutex of the
    repository, a start mark, the work, and one mark for its outcome. Any number of handlers
    run at once; an action is one lock operation or one mark of one of them. */
module ReindexLifecycle {
  import opened Common
  import opened Freshness
  import opened Text

  /** The parts of a payload that `toolSucceeded` and `reindexFailureMessage` look at: the success
      field if it is a boolean, the error field if there is one (as a blank text if it is no
      text), and the message. */
  datatype Payload = Payload(success: Option<bool>, error: Option<string>, message: string)

  function ToolSucceeded(p: Option<Payload>): bool {
    p.Some? && (if p.value.success.Some? then p.value.success.value else p.value.error == None)
  }

  function FailureMessage(p: Option<Payload>): string {
    if p.Some? && p.value.error.Some? && TrimSpace(p.value.error.value) != "" then TrimSpace(p.value.error.value)
    else if p.Some? && TrimSpace(p.value.message) != "" then TrimSpace(p.value.message)
    else "reindex failed"
  }

  /** The mark for the outcome of the work: an error, or a payload. */
  function Outcome(error: Option<string>, payload: Option<Payload>, now: int): Signal {
    if error.Some? then Failed(error.value, now)
    else if ToolSucceeded(payload) then Done
    else Failed(FailureMessage(payload), now)
  }

  /** `repoReindexMutex`: one mutex for every repository, made on first use. */
  class RepoLocks {
    var table: map<string, nat>
    var made: nat

    ghost predicate Valid()
      reads this
    {
      (forall r :: r in table ==> table[r] < made)
      && forall q, r :: q in table && r in table && q != r ==> table[q] != table[r]
    }

    constructor ()
      ensures Valid() && table == map[]
    {
      table, made := map[], 0;
    }

    method RepoReindexMutex(repo: string) returns (mu: nat)
      requires Valid()
      modifies this
      ensures Valid() && repo in table && mu == table[repo]
      ensures forall r :: r in old(table) ==> r in table && table[r] == old(table)[r]
      ensures forall r :: r in table ==> r in old(table) || r == repo
    {
      if repo in table {
        return table[repo];
      }
      mu := made;
      table := table[repo := mu];
      made := made + 1;
    }
  }

  /** The controller after a bracketed piece of work, if nothing else happens meanwhile. */
  ghost function Bracketed(c: Control, repo: string, startAt: int, outcome: Signal): Control {
    Apply(Apply(c, Event(repo, Started(startAt))), Event(repo, outcome))
  }

  /** What starting the watcher on a folder comes to: an error, nothing (the folder is watched
      already, here or by another process), or a new watch. */
  datatype Start = Refused | NothingToDo | Registers

  /** The controller once the watcher is started: a newly watched folder has a state. */
  ghost function AfterStart(c: Control, folder: string, start: Start): Control {
    if folder != "" && start.Registers? then Apply(c, Event(folder, Watched)) else c
  }

  /** `runWithReindexLifecycle`, for one handler: `start` is what starting the folder watcher
      comes to, `error` and `payload` what the work answers. The work is not run if the watcher
      cannot be started, and not bracketed without a repository or a lifecycle. */
  method RunWithReindexLifecycle(controller: StateController, locks: RepoLocks, hasController: bool, hasLifecycle: bool,
                                 rawRepo: string, rawFolder: string, start: Start, error: Option<string>,
                                 payload: Option<Payload>, startAt: int, endAt: int) returns (ran: bool)
    requires locks.Valid()
    modifies controller, locks
    ensures locks.Valid() && (ran <==> !(hasController && TrimSpace(rawFolder) != "" && start.Refused?))
    ensures var started := if hasController then AfterStart(old(controller.Contents()), TrimSpace(rawFolder), start)
                           else old(controller.Contents());
      controller.Contents() ==
        if ran && hasController && hasLifecycle && TrimSpace(rawRepo) != ""
        then Bracketed(started, TrimSpace(rawRepo), startAt, Outcome(error, payload, endAt)) else started
    ensures hasController && TrimSpace(rawFolder) != "" && start.Registers? ==> TrimSpace(rawFolder) in controller.states
    ensures !hasController || (!ran && start.Refused?) ==> controller.Contents() == old(controller.Contents())
    ensures var repo := TrimSpace(rawRepo);
      ran && hasController && hasLifecycle && repo != "" && Active(old(controller.Contents()), repo) == 0 ==>
        repo in controller.states
        && (StatusOf(controller.states[repo], false).isFresh
            <==> error == None && payload.Some?
                 && (payload.value.success == Some(true) || (payload.value.success == None && payload.value.error == None)))
  {
    hide Apply, TrimSpace, Ensured, StatusOf, Active;
    var repo, watchFolder := TrimSpace(rawRepo), TrimSpace(rawFolder);
    if hasController && watchFolder != "" {
      if start.Refused? {
        return false;
      }
      if start.Registers? {
        WatchedIsEnsured(controller.Contents(), watchFolder);
        var _ := controller.EnsureState(watchFolder);
      }
    }
    if repo == "" {
      return true;
    }
    var _ := locks.RepoReindexMutex(repo);
    if !hasController || !hasLifecycle {
      return true;
    }
    TrimSpaceTwice(rawRepo);
    if watchFolder in controller.states {
      KnownStays(controller.Contents(), repo, startAt, Outcome(error, payload, endAt), watchFolder);
    }
    EnsuredActive(old(controller.Contents()), watchFolder, repo);
    if Active(controller.Contents(), repo) == 0 {
      BracketIsFresh(controller.Contents(), repo, startAt, error, payload, endAt);
    }
    controller.MarkReindexStart(repo, startAt);
    if error.Some? {
      controller.MarkReindexFailed(repo, error.value, endAt);
      return true;
    }
    if ToolSucceeded(payload) {
      controller.MarkReindexDone(repo);
      return true;
    }
    controller.MarkReindexFailed(repo, FailureMessage(payload), endAt);
    return true;
  }

  lemma WatchedIsEnsured(c: Control, repo: string)
    ensures Apply(c, Event(repo, Watched)) == Ensured(c, repo)
  {}

  lemma KnownStays(c: Control, repo: string, startAt: int, outcome: Signal, folder: string)
    requires folder in c.states
    ensures folder in Bracketed(c, repo, startAt, outcome).states
  {}

  lemma EnsuredActive(c: Control, folder: string, repo: string)
    ensures Active(Ensured(c, folder), repo) == Active(c, repo)
  {}

  lemma TrimSpaceTwice(s: string)
    ensures TrimSpace(TrimSpace(s)) == TrimSpace(s)
  {
    TrimSpaceTrims(s);
    TrimSpaceTrims(TrimSpace(s));
  }

  /** What a query reports after a bracket around the work on an idle repository: it is fresh
      exactly after a success. A failure counts, and leaves its message. */
  lemma BracketIsFresh(c: Control, repo: string, startAt: int, error: Option<string>, payload: Option<Payload>, endAt: int)
    requires Active(c, repo) == 0
    ensures var d := Bracketed(c, repo, startAt, Outcome(error, payload, endAt));
      var went := error == None && payload.Some?
        && (payload.value.success == Some(true) || (payload.value.success == None && payload.value.error == None));
      repo in d.states && (StatusOf(d.states[repo], false).isFresh <==> went)
      && (went ==> StatusOf(d.states[repo], true) == Status(true, false, false, "", 0))
      && (!went ==> d.states[repo].failures == (if repo in c.states then c.states[repo].failures else 0) + 1)
      && (error.Some? ==> d.states[repo].lastError == TrimSpace(error.value))
      && (error == None && !went ==> d.states[repo].lastError == TrimSpace(Outcome(error, payload, endAt).message))
  {
    OutcomeEnds(error, payload, endAt);
    hide Outcome, TrimSpace;
  }

  /** A bracket puts the count of running reindexes back where it was, whatever the work
      answers; from an idle repository it ends with nothing in progress and no one waiting. */
  lemma BracketBalances(c: Control, repo: string, startAt: int, error: Option<string>, payload: Option<Payload>, endAt: int)
    requires Inv(c)
    ensures var d := Bracketed(c, repo, startAt, Outcome(error, payload, endAt));
      Inv(d) && (forall r :: Active(d, r) == Active(c, r))
      && (Active(c, repo) == 0 ==> repo in d.states && !d.states[repo].reindexing && d.states[repo].waitCh in d.closings)
  {
    var started := Apply(c, Event(repo, Started(startAt)));
    var outcome := Outcome(error, payload, endAt);
    OutcomeEnds(error, payload, endAt);
    ApplyInv(c, Event(repo, Started(startAt)));
    ApplyInv(started, Event(repo, outcome));
    var d := Apply(started, Event(repo, outcome));
    assert repo in d.states;
    StateInv(d, repo);
    hide Apply, Inv, Outcome;
    forall r ensures Active(d, r) == Active(c, r) {
      ActiveAfter(c, Event(repo, Started(startAt)), r);
      ActiveAfter(started, Event(repo, outcome), r);
    }
  }

  datatype Phase = Waiting | Locked | Running | Marked | Finished

  /** Handler `t` works on `repos[t]`; `holder` says who holds the mutex of a repository. */
  datatype State = State(control: Control, repos: seq<string>, phases: seq<Phase>, holder: map<string, nat>)

  datatype Action =
    | Acquire(t: nat)
    | MarkStart(t: nat, now: int)
    | MarkEnd(t: nat, error: Option<string>, payload: Option<Payload>, now: int)
    | Release(t: nat)
    | Watch(repo: string)

  predicate Enabled(s: State, a: Action) {
    if a.Watch? then true
    else
      a.t < |s.phases| && a.t < |s.repos|
      && if a.Acquire? then s.phases[a.t].Waiting? && s.repos[a.t] !in s.holder
         else if a.MarkStart? then s.phases[a.t].Locked?
         else if a.MarkEnd? then s.phases[a.t].Running?
         else s.phases[a.t].Marked?
  }

  function Next(s: State, a: Action): State
    requires Enabled(s, a)
  {
    match a
    case Acquire(t) => s.(phases := s.phases[t := Locked], holder := s.holder[s.repos[t] := t])
    case MarkStart(t, now) =>
      s.(phases := s.phases[t := Running], control := Apply(s.control, Event(s.repos[t], Started(now))))
    case MarkEnd(t, error, payload, now) =>
      s.(phases := s.phases[t := Marked],
         control := Apply(s.control, Event(s.repos[t], Outcome(error, payload, now))))
    case Release(t) => s.(phases := s.phases[t := Finished], holder := s.holder - {s.repos[t]})
    case Watch(repo) => s.(control := Apply(s.control, Event(repo, Watched)))
  }

  function Init(repos: seq<string>): State {
    State(EMPTY, repos, seq(|repos|, i => Waiting), map[])
  }

  predicate Holds(p: Phase) {
    p.Locked? || p.Running? || p.Marked?
  }

  function Active(c: Control, repo: string): nat {
    if repo in c.states then c.states[repo].active else 0
  }

  /** Handler `t` is in the middle of its work on the repository. */
  predicate Works(s: State, t: nat, repo: string) {
    t < |s.phases| && t < |s.repos| && s.repos[t] == repo && s.phases[t].Running?
  }

  /** The mutexes are held by the handlers between locking and releasing, and a repository
      counts one active reindex while its holder works and none otherwise. */
  ghost predicate LockInv(s: State) {
    |s.phases| == |s.repos|
    && (forall t :: 0 <= t < |s.phases| && Holds(s.phases[t]) ==> s.repos[t] in s.holder && s.holder[s.repos[t]] == t)
    && (forall r :: r in s.holder ==> s.holder[r] < |s.phases| && s.repos[s.holder[r]] == r && Holds(s.phases[s.holder[r]]))
    && (forall r :: Active(s.control, r) == if r in s.holder && Works(s, s.holder[r], r) then 1 else 0)
  }

  lemma ActiveAfter(c: Control, e: Event, r: string)
    ensures Active(Apply(c, e), r)
      == if r != e.repo || e.signal.Watched? then Active(c, r)
         else if e.signal.Started? then Active(c, r) + 1
         else Pred(Active(c, r))
  {
    if r != e.repo { OtherReposUntouched(c, e, r); }
  }

  /** Locking and releasing do not touch the controller, nor does a handler work meanwhile. */
  lemma AcquireStep(s: State, t: nat)
    requires LockInv(s) && Enabled(s, Acquire(t))
    ensures LockInv(Next(s, Acquire(t)))
  {
    hide Apply, Outcome, Active;
  }

  lemma ReleaseStep(s: State, t: nat)
    requires LockInv(s) && Enabled(s, Release(t))
    ensures LockInv(Next(s, Release(t)))
  {
    hide Apply, Outcome, Active;
  }

  lemma StartStep(s: State, t: nat, now: int)
    requires LockInv(s) && Enabled(s, MarkStart(t, now))
    ensures LockInv(Next(s, MarkStart(t, now)))
  {
    hide Apply, Outcome, Active;
    forall r { ActiveAfter(s.control, Event(s.repos[t], Started(now)), r); }
  }

  lemma EndStep(s: State, t: nat, error: Option<string>, payload: Option<Payload>, now: int)
    requires LockInv(s) && Enabled(s, MarkEnd(t, error, payload, now))
    ensures LockInv(Next(s, MarkEnd(t, error, payload, now)))
  {
    hide Apply, Outcome, Active;
    OutcomeEnds(error, payload, now);
    forall r { ActiveAfter(s.control, Event(s.repos[t], Outcome(error, payload, now)), r); }
  }

  lemma WatchStep(s: State, repo: string)
    requires LockInv(s)
    ensures LockInv(Next(s, Watch(repo)))
  {
    hide Apply, Outcome, Active;
    forall r { ActiveAfter(s.control, Event(repo, Watched), r); }
  }

  lemma LockStep(s: State, a: Action)
    requires LockInv(s) && Enabled(s, a)
    ensures LockInv(Next(s, a))
  {
    hide Apply, Outcome, LockInv;
    match a
    case Acquire(t) => AcquireStep(s, t);
    case MarkStart(t, now) => StartStep(s, t, now);
    case MarkEnd(t, error, payload, now) => EndStep(s, t, error, payload, now);
    case Release(t) => ReleaseStep(s, t);
    case Watch(repo) => WatchStep(s, repo);
  }

  /** The work ends in one mark: a success if there is no error but a payload whose success field
      is true, or that has neither this nor an error field. Otherwise a failure with the first
      text there is of the error, the payload's error, its message and a default. */
  lemma OutcomeEnds(error: Option<string>, payload: Option<Payload>, now: int)
    ensures var o := Outcome(error, payload, now); o.Done? || o.Failed?
    ensures Outcome(error, payload, now).Done?
       <==> error == None && payload.Some?
            && (payload.value.success == Some(true) || (payload.value.success == None && payload.value.error == None))
    ensures error.Some? ==> Outcome(error, payload, now) == Failed(error.value, now)
    ensures var o := Outcome(error, payload, now);
      error == None && o.Failed? ==>
        o.at == now
        && (payload == None ==> o.message == "reindex failed")
        && (payload.Some? ==>
              var p := payload.value;
              if p.error.Some? && TrimSpace(p.error.value) != "" then o.message == TrimSpace(p.error.value)
              else if TrimSpace(p.message) != "" then o.message == TrimSpace(p.message)
              else o.message == "reindex failed")
  {
    hide TrimSpace;
  }

  ghost predicate Run(states: seq<State>, actions: seq<Action>, repos: seq<string>) {
    |states| == |actions| + 1 && states[0] == Init(repos)
    && forall i :: 0 <= i < |actions| ==> Enabled(states[i], actions[i]) && states[i + 1] == Next(states[i], actions[i])
  }

  lemma {:induction false} LockAlways(states: seq<State>, actions: seq<Action>, repos: seq<string>, i: nat)
    requires Run(states, actions, repos) && i < |states|
    ensures LockInv(states[i])
  {
    if i > 0 {
      LockAlways(states, actions, repos, i - 1);
      LockStep(states[i - 1], actions[i - 1]);
    }
  }

  lemma {:induction false} ControlInv(states: seq<State>, actions: seq<Action>, repos: seq<string>, i: nat)
    requires Run(states, actions, repos) && i < |states|
    ensures Inv(states[i].control)
  {
    hide Apply, Inv;
    if i > 0 {
      ControlInv(states, actions, repos, i - 1);
      var s, a := states[i - 1], actions[i - 1];
      match a
      case MarkStart(t, now) => ApplyInv(s.control, Event(s.repos[t], Started(now)));
      case MarkEnd(t, error, payload, now) => ApplyInv(s.control, Event(s.repos[t], Outcome(error, payload, now)));
      case Watch(repo) => ApplyInv(s.control, Event(repo, Watched));
      case _ =>
    } else {
      ReachableInv([]);
    }
  }

  /** Whatever the interleaving: a repository is reindexed by at most one handler at a time,
      it counts as reindexing exactly while one works on it, and so when every handler is
      waiting or finished nothing is left in progress. */
  lemma ReindexingMeansWorking(states: seq<State>, actions: seq<Action>, repos: seq<string>, i: nat, repo: string)
    requires Run(states, actions, repos) && i < |states|
    ensures forall t, u :: Works(states[i], t, repo) && Works(states[i], u, repo) ==> t == u
    ensures (repo in states[i].control.states && states[i].control.states[repo].reindexing)
       <==> exists t :: Works(states[i], t, repo)
  {
    hide Apply, Outcome;
    var s := states[i];
    LockAlways(states, actions, repos, i);
    ControlInv(states, actions, repos, i);
    assert Active(s.control, repo) == if repo in s.holder && Works(s, s.holder[repo], repo) then 1 else 0;
    if repo in s.control.states {
      StateInv(s.control, repo);
    }
  }

  /** A handler whose turn it is can always go on, and the mutex it waits for is held by a
      handler that can: no interleaving gets stuck before everyone has finished. */
  lemma SomeoneCanGoOn(states: seq<State>, actions: seq<Action>, repos: seq<string>, i: nat, t: nat)
    requires Run(states, actions, repos) && i < |states|
    requires t < |states[i].phases| && !states[i].phases[t].Finished?
    ensures exists a: Action :: !a.Watch? && Enabled(states[i], a)
  {
    var s := states[i];
    LockAlways(states, actions, repos, i);
    var u := if s.phases[t].Waiting? && s.repos[t] in s.holder then s.holder[s.repos[t]] else t;
    match s.phases[u]
    case Waiting => assert Enabled(s, Acquire(u));
    case Locked => assert Enabled(s, MarkStart(u, 0));
    case Running => assert Enabled(s, MarkEnd(u, None, None, 0));
    case Marked => assert Enabled(s, Release(u));
  }
}
