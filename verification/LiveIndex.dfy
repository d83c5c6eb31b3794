/** The watcher and the fast path together: events of the polling source are collapsed by the
    folder loop, each batch is re-indexed by the fast path (watcher_batch_processor.go), and
    the index follows the folder.

    What an index entry says is decided by the last batch that read its path. The events of a
    batch may be out of date when it is read, each path is read at a moment of its own, and
    the batch may fail. */
module LiveIndex {
  import opened Common
  import opened IndexFiles
  import opened WatcherEvents
  import opened FolderLoop
  import opened FastPath

  datatype View = View(files: map<string, string>, mtimes: map<string, int>)

  /** The folder over time: what the file system answers, and what a scan shows, at a path. */
  datatype Folder = Folder(disk: nat -> Disk, scan: (nat, string) -> Option<FileSnapshot>)

  /** When path `p` is read for the batch that signal `i` delivers; `i == 0` stands for the
      run that built the index in the first place, since no batch is the first signal. */
  type ReadTimes = (nat, string) -> nat

  /** What the file system answers to the reads of one batch. */
  function ReadDisk(folder: Folder, readAt: ReadTimes, i: nat): Disk {
    p => folder.disk(readAt(i, p))(p)
  }

  function ReadLook(classify: Classifier, folder: Folder, readAt: ReadTimes, i: nat, p: string): Verdict {
    Look(classify, folder.disk(readAt(i, p)), p)
  }

  lemma ReadDiskLook(classify: Classifier, folder: Folder, readAt: ReadTimes, i: nat, p: string)
    ensures Look(classify, ReadDisk(folder, readAt, i), p) == ReadLook(classify, folder, readAt, i, p)
  {}

  ghost predicate Aligned(view: View) {
    view.mtimes.Keys == view.files.Keys
  }

  /** The entry of a path is the one that the look calls for. */
  predicate Shows(view: View, v: Verdict, p: string) {
    match v
    case Unknown => true
    case Gone => p !in view.files && p !in view.mtimes
    case Present(hash, mtime) => Get(view.files, p) == Some(hash) && Get(view.mtimes, p) == Some(mtime)
  }

  lemma ShowsAgrees(classify: Classifier, disk: Disk, view: View, p: string)
    ensures AgreesAt(classify, disk, view.files, view.mtimes, p) <==> Shows(view, Look(classify, disk, p), p)
  {}

  /** `saved[i]`: the batch of signal `i` reached the index. A batch that is processed without
      an error did; one that fails may have failed before or after its save. */
  ghost predicate Indexed(classify: Classifier, folder: Folder, readAt: ReadTimes, states: seq<State>, signals: seq<Signal>,
                          saved: seq<bool>, views: seq<View>) {
    |saved| == |signals| && |views| == |states| == |signals| + 1
    && forall i :: 0 <= i < |signals| ==>
         IndexedStep(classify, folder, readAt, i, states[i], signals[i], saved[i], views[i], views[i + 1])
  }

  ghost predicate IndexedStep(classify: Classifier, folder: Folder, readAt: ReadTimes, i: nat, s: State, g: Signal, saved: bool,
                              before: View, after: View) {
    (g.TimerFires? && g.end.Processed? ==> saved) && (saved ==> g.TimerFires?)
    && if saved
       then Patched(classify, ReadDisk(folder, readAt, i), s.pending.Keys, before.files, before.mtimes, after.files, after.mtimes)
       else after == before
  }

  /** The batch of signal `i` names the path. */
  ghost predicate Names(states: seq<State>, signals: seq<Signal>, i: nat, p: string)
    requires i < |signals| < |states|
  {
    signals[i].TimerFires? && p in states[i].pending
  }

  /** The batch of signal `i` settles the entry of the path: it names the path, it reached the
      index, and the file system gave an answer. */
  ghost predicate Settles(classify: Classifier, folder: Folder, readAt: ReadTimes, states: seq<State>, signals: seq<Signal>,
                          saved: seq<bool>, i: nat, p: string)
    requires i < |signals| < |states| && |saved| == |signals|
  {
    Names(states, signals, i, p) && saved[i] && !ReadLook(classify, folder, readAt, i, p).Unknown?
  }

  /** The last batch before signal `i` that settled the path, or 0. */
  ghost function LastRead(classify: Classifier, folder: Folder, readAt: ReadTimes, states: seq<State>, signals: seq<Signal>,
                          saved: seq<bool>, i: nat, p: string): (k: nat)
    requires i <= |signals| < |states| && |saved| == |signals|
    ensures k <= i
  {
    if i == 0 then 0
    else if Settles(classify, folder, readAt, states, signals, saved, i - 1, p) then i - 1
    else LastRead(classify, folder, readAt, states, signals, saved, i - 1, p)
  }

  /** The last batch before signal `i` that named the path, or 0. */
  ghost function LastNamed(states: seq<State>, signals: seq<Signal>, i: nat, p: string): (k: nat)
    requires i <= |signals| < |states|
    ensures k <= i
  {
    if i == 0 then 0
    else if Names(states, signals, i - 1, p) then i - 1
    else LastNamed(states, signals, i - 1, p)
  }

  predicate SameEntry(before: View, after: View, p: string) {
    Get(after.files, p) == Get(before.files, p) && Get(after.mtimes, p) == Get(before.mtimes, p)
  }

  /** Before the first signal the entry of the path is what was read for it. */
  ghost predicate StartsRead(classify: Classifier, folder: Folder, readAt: ReadTimes, view: View, p: string) {
    Aligned(view) && Shows(view, ReadLook(classify, folder, readAt, 0, p), p)
  }

  /** A path the batch settles gets the entry it was read to have; any other keeps its entry. */
  lemma StepAt(classify: Classifier, folder: Folder, readAt: ReadTimes, i: nat, s: State, g: Signal, saved: bool,
               before: View, after: View, p: string)
    requires Aligned(before) && IndexedStep(classify, folder, readAt, i, s, g, saved, before, after)
    ensures Aligned(after)
    ensures saved && p in s.pending ==> Shows(after, ReadLook(classify, folder, readAt, i, p), p)
    ensures !(saved && p in s.pending && !ReadLook(classify, folder, readAt, i, p).Unknown?) ==> SameEntry(before, after, p)
  {
    if saved {
      var disk := ReadDisk(folder, readAt, i);
      PatchAgrees(classify, disk, s.pending.Keys, before.files, before.mtimes, after.files, after.mtimes);
      ReadDiskLook(classify, folder, readAt, i, p);
      ShowsAgrees(classify, disk, after, p);
      if p in s.pending {
        assert Visited(before.files, before.mtimes, after.files, after.mtimes, Look(classify, disk, p), p);
        VisitedAgrees(classify, disk, before.files, before.mtimes, after.files, after.mtimes, p);
      }
      hide Look, ReadLook, ReadDisk;
    }
  }

  /** At every moment of every run, the entry of a path is what its last settling read gave. */
  lemma {:induction false} EntryIsLastRead(classify: Classifier, folder: Folder, readAt: ReadTimes, states: seq<State>,
                                           signals: seq<Signal>, saved: seq<bool>, views: seq<View>, i: nat, p: string)
    requires Indexed(classify, folder, readAt, states, signals, saved, views) && i < |states|
    requires StartsRead(classify, folder, readAt, views[0], p)
    ensures Aligned(views[i])
    ensures var k := LastRead(classify, folder, readAt, states, signals, saved, i, p);
      Shows(views[i], ReadLook(classify, folder, readAt, k, p), p)
  {
    if i > 0 {
      hide ReadLook, IndexedStep, Aligned;
      EntryIsLastRead(classify, folder, readAt, states, signals, saved, views, i - 1, p);
      StepAt(classify, folder, readAt, i - 1, states[i - 1], signals[i - 1], saved[i - 1], views[i - 1], views[i], p);
      OnlyBatchesSave(classify, folder, readAt, i - 1, states[i - 1], signals[i - 1], saved[i - 1], views[i - 1], views[i]);
    }
  }

  lemma OnlyBatchesSave(classify: Classifier, folder: Folder, readAt: ReadTimes, i: nat, s: State, g: Signal, saved: bool,
                        before: View, after: View)
    requires IndexedStep(classify, folder, readAt, i, s, g, saved, before, after)
    ensures saved ==> g.TimerFires?
  {}

  /** So the entry agrees with the file system now if and only if the file system still gives
      what it gave to that read, for every run, whatever was polled, collapsed or lost. */
  lemma EntryAgreesExactly(classify: Classifier, folder: Folder, readAt: ReadTimes, states: seq<State>, signals: seq<Signal>,
                           saved: seq<bool>, views: seq<View>, i: nat, p: string, now: nat)
    requires Indexed(classify, folder, readAt, states, signals, saved, views) && i < |states|
    requires StartsRead(classify, folder, readAt, views[0], p)
    requires !ReadLook(classify, folder, readAt, LastRead(classify, folder, readAt, states, signals, saved, i, p), p).Unknown?
    requires !Look(classify, folder.disk(now), p).Unknown?
    ensures AgreesAt(classify, folder.disk(now), views[i].files, views[i].mtimes, p)
       <==> Look(classify, folder.disk(now), p)
            == ReadLook(classify, folder, readAt, LastRead(classify, folder, readAt, states, signals, saved, i, p), p)
  {
    EntryIsLastRead(classify, folder, readAt, states, signals, saved, views, i, p);
    ShowsAgrees(classify, folder.disk(now), views[i], p);
    hide ReadLook, Look, LastRead, Indexed;
  }

  /** One signal that does not settle the path. */
  lemma UnsettledStep(classify: Classifier, folder: Folder, readAt: ReadTimes, states: seq<State>, signals: seq<Signal>,
                      saved: seq<bool>, views: seq<View>, j: nat, p: string)
    requires Indexed(classify, folder, readAt, states, signals, saved, views) && j < |signals|
    requires StartsRead(classify, folder, readAt, views[0], p)
    requires !Settles(classify, folder, readAt, states, signals, saved, j, p)
    ensures SameEntry(views[j], views[j + 1], p)
  {
    assert IndexedStep(classify, folder, readAt, j, states[j], signals[j], saved[j], views[j], views[j + 1]);
    hide ReadLook, IndexedStep, Aligned, Shows, SameEntry, LastRead;
    EntryIsLastRead(classify, folder, readAt, states, signals, saved, views, j, p);
    OnlyBatchesSave(classify, folder, readAt, j, states[j], signals[j], saved[j], views[j], views[j + 1]);
    StepAt(classify, folder, readAt, j, states[j], signals[j], saved[j], views[j], views[j + 1], p);
  }

  /** The loop does not keep a batch it has delivered, failed or not. */
  lemma NotTriedAgain(states: seq<State>, signals: seq<Signal>, k: nat)
    requires Run(states, signals) && k < |signals| && signals[k].TimerFires?
    ensures states[k + 1].pending == map[]
  {}

  /** No batch from `k` until before `i` settles the path. */
  ghost predicate NoneSettles(classify: Classifier, folder: Folder, readAt: ReadTimes, states: seq<State>,
                              signals: seq<Signal>, saved: seq<bool>, k: nat, i: nat, p: string)
    requires i <= |signals| < |states| && |saved| == |signals|
  {
    forall j :: k <= j < i ==> !Settles(classify, folder, readAt, states, signals, saved, j, p)
  }

  lemma NoneSettlesBefore(classify: Classifier, folder: Folder, readAt: ReadTimes, states: seq<State>, signals: seq<Signal>,
                          saved: seq<bool>, k: nat, i: nat, p: string)
    requires k < i <= |signals| < |states| && |saved| == |signals|
    requires NoneSettles(classify, folder, readAt, states, signals, saved, k, i, p)
    ensures NoneSettles(classify, folder, readAt, states, signals, saved, k, i - 1, p)
    ensures !Settles(classify, folder, readAt, states, signals, saved, i - 1, p)
  {
    hide Settles;
  }

  lemma NotSavedNotSettled(classify: Classifier, folder: Folder, readAt: ReadTimes, states: seq<State>, signals: seq<Signal>,
                           saved: seq<bool>, k: nat, p: string)
    requires k < |signals| < |states| && |saved| == |signals| && !saved[k]
    ensures NoneSettles(classify, folder, readAt, states, signals, saved, k, k + 1, p)
  {}

  /** An entry stays as it is until the next batch that settles the path. So the entries that a
      batch names stay stale when it fails before its save, when it cannot look at the path,
      and for all the time that no later batch names the path. */
  lemma {:induction false} EntryStaysUnsettled(classify: Classifier, folder: Folder, readAt: ReadTimes, states: seq<State>,
                                               signals: seq<Signal>, saved: seq<bool>, views: seq<View>, k: nat, i: nat,
                                               p: string)
    requires Indexed(classify, folder, readAt, states, signals, saved, views)
    requires k <= i < |states| && StartsRead(classify, folder, readAt, views[0], p)
    requires NoneSettles(classify, folder, readAt, states, signals, saved, k, i, p)
    ensures SameEntry(views[k], views[i], p)
    decreases i
  {
    hide IndexedStep, Aligned, Shows, ReadLook, NoneSettles, Settles;
    if i > k {
      NoneSettlesBefore(classify, folder, readAt, states, signals, saved, k, i, p);
      EntryStaysUnsettled(classify, folder, readAt, states, signals, saved, views, k, i - 1, p);
      UnsettledStep(classify, folder, readAt, states, signals, saved, views, i - 1, p);
    }
  }

  /** A batch that fails before its save: nothing of it reaches the index, it is not tried
      again, and the entries it names stay until a later batch settles them. */
  lemma FailedBatchLeavesEntries(classify: Classifier, folder: Folder, readAt: ReadTimes, states: seq<State>,
                                 signals: seq<Signal>, saved: seq<bool>, views: seq<View>, k: nat, i: nat, p: string)
    requires Run(states, signals) && Indexed(classify, folder, readAt, states, signals, saved, views)
    requires k < i < |states| && signals[k].TimerFires? && !saved[k] && StartsRead(classify, folder, readAt, views[0], p)
    requires NoneSettles(classify, folder, readAt, states, signals, saved, k + 1, i, p)
    ensures states[k + 1].pending == map[]
    ensures SameEntry(views[k], views[i], p)
  {
    NotTriedAgain(states, signals, k);
    hide IndexedStep, Aligned, Shows, ReadLook, Settles, Run;
    NotSavedNotSettled(classify, folder, readAt, states, signals, saved, k, p);
    EntryStaysUnsettled(classify, folder, readAt, states, signals, saved, views, k, i, p);
  }

  // ----- quiet moments -----

  function SnapshotOf(v: Snapshot, p: string): Option<FileSnapshot> {
    if p in v then Some(v[p]) else None
  }

  /** What the events say of a path only changes with what is pending about it. */
  lemma UnnamedSame(states: seq<State>, signals: seq<Signal>, world: seq<Snapshot>, i: nat, p: string)
    requires Run(states, signals) && Describes(world, signals) && i < |states| && p !in states[i].pending
    ensures SnapshotOf(world[i], p) == SnapshotOf(world[LastFlush(signals, i)], p)
  {
    PendingIsNetEffect(states, signals, world, i);
    NoEntryNoChange(world[LastFlush(signals, i)], world[i], states[i].pending);
    hide NetEffect, Run, Describes;
  }

  lemma BatchChangesNothing(signals: seq<Signal>, world: seq<Snapshot>, i: nat)
    requires Describes(world, signals) && i < |signals| && signals[i].TimerFires?
    ensures world[i + 1] == world[i]
  {
    assert DescribesStep(world[i], signals[i], world[i + 1]);
  }

  /** No event about the path was reported since the last batch that named it, but for what is
      pending. */
  lemma {:induction false} NothingSinceNamed(states: seq<State>, signals: seq<Signal>, world: seq<Snapshot>, i: nat, p: string)
    requires Run(states, signals) && Describes(world, signals) && i < |states|
    ensures SnapshotOf(world[LastNamed(states, signals, i, p)], p) == SnapshotOf(world[LastFlush(signals, i)], p)
  {
    if i > 0 {
      hide Run, DescribesStep, Describes;
      NothingSinceNamed(states, signals, world, i - 1, p);
      if signals[i - 1].TimerFires? {
        BatchChangesNothing(signals, world, i - 1);
        if p !in states[i - 1].pending { UnnamedSame(states, signals, world, i - 1, p); }
      }
    }
  }

  /** Files that show the same to a scan are the same to the fast path. */
  ghost predicate ScansTell(classify: Classifier, folder: Folder, p: string) {
    forall t, u :: folder.scan(t, p) == folder.scan(u, p) ==>
      Look(classify, folder.disk(t), p) == Look(classify, folder.disk(u), p)
  }

  /** Nothing about the path is pending, a scan shows no more than was reported, and the last
      batch that named the path settled it. */
  ghost predicate QuietAt(classify: Classifier, folder: Folder, readAt: ReadTimes, states: seq<State>, signals: seq<Signal>,
                          saved: seq<bool>, world: seq<Snapshot>, i: nat, p: string, now: nat)
    requires i < |states| == |world| == |signals| + 1 && |saved| == |signals|
  {
    p !in states[i].pending && folder.scan(now, p) == SnapshotOf(world[i], p)
    && LastRead(classify, folder, readAt, states, signals, saved, i, p) == LastNamed(states, signals, i, p)
  }

  /** At a quiet moment the entry of a path agrees with the file system, provided that the path
      did not change again between the scan its last batch came from and its read; or rather,
      a path that shows now what that scan showed did so when it was read. Nothing else is
      asked of the folder: it may change, and change back, in any way and at any time. */
  lemma {:induction false} QuietMeansIndexed(classify: Classifier, folder: Folder, readAt: ReadTimes, states: seq<State>,
                                             signals: seq<Signal>, saved: seq<bool>, world: seq<Snapshot>, views: seq<View>,
                                             i: nat, p: string, now: nat)
    requires Run(states, signals) && Describes(world, signals) && i < |states|
    requires Indexed(classify, folder, readAt, states, signals, saved, views)
    requires StartsRead(classify, folder, readAt, views[0], p) && ScansTell(classify, folder, p)
    requires QuietAt(classify, folder, readAt, states, signals, saved, world, i, p, now)
    requires var k := LastNamed(states, signals, i, p);
      folder.scan(now, p) == SnapshotOf(world[k], p) ==> folder.scan(readAt(k, p), p) == SnapshotOf(world[k], p)
    ensures AgreesAt(classify, folder.disk(now), views[i].files, views[i].mtimes, p)
  {
    var k := LastNamed(states, signals, i, p);
    NothingSinceNamed(states, signals, world, i, p);
    PendingIsNetEffect(states, signals, world, i);
    NoEntryNoChange(world[LastFlush(signals, i)], world[i], states[i].pending);
    assert SnapshotOf(world[k], p) == SnapshotOf(world[i], p);
    assert Look(classify, folder.disk(readAt(k, p)), p) == Look(classify, folder.disk(now), p);
    EntryIsLastRead(classify, folder, readAt, states, signals, saved, views, i, p);
    ShowsAgrees(classify, folder.disk(now), views[i], p);
  }

  /** A run in which the proviso fails, and with it the promise: the file is deleted, the
      deletion is polled, the file is back when the batch reads it, and it is deleted again
      before the next scan. Nothing is pending and the scan shows what was reported, but the
      index holds a file that is not there. */
  lemma ReappearedFileStays(classify: Classifier, p: string, hash: string, mtime: int, newHash: string, newMTime: int)
    returns (folder: Folder, readAt: ReadTimes, states: seq<State>, signals: seq<Signal>, saved: seq<bool>,
             world: seq<Snapshot>, views: seq<View>)
    requires classify(p).Some? && mtime != newMTime
    ensures Run(states, signals) && Describes(world, signals) && |states| == 3
    ensures Indexed(classify, folder, readAt, states, signals, saved, views)
    ensures StartsRead(classify, folder, readAt, views[0], p) && ScansTell(classify, folder, p)
    ensures QuietAt(classify, folder, readAt, states, signals, saved, world, 2, p, 3)
    ensures folder.disk(3)(p).Missing? && p in views[2].files
    ensures !AgreesAt(classify, folder.disk(3), views[2].files, views[2].mtimes, p)
  {
    var disk: nat -> Disk := t =>
      (q => if q == p && t == 0 then File(hash, mtime, 0, false) else if q == p && t == 2 then File(newHash, newMTime, 0, false) else Missing);
    var scan: (nat, string) -> Option<FileSnapshot> := (t, q) =>
      if q == p && t == 0 then Some(FileSnapshot(0, mtime))
      else if q == p && t == 2 then Some(FileSnapshot(0, newMTime)) else None;
    folder := Folder(disk, scan);
    readAt := (i, q) => if i == 0 then 0 else 2;
    var gone := Change(Deleted, p, "");
    signals, saved := [Incoming(gone, true), TimerFires(Processed)], [false, true];
    var waiting := START.(pending := map[p := gone], armed := true);
    states := [START, waiting, START.(delivered := [[gone]])];
    world := [map[p := FileSnapshot(0, mtime)], map[], map[]];
    views := [View(map[p := hash], map[p := mtime]), View(map[p := hash], map[p := mtime]),
              View(map[p := newHash], map[p := newMTime])];
    ReappearedRun(gone, waiting, states, signals, world);
    assert LastNamed(states, signals, 2, p) == 1;
    assert Settles(classify, folder, readAt, states, signals, saved, 1, p);
    assert IndexedStep(classify, folder, readAt, 0, states[0], signals[0], saved[0], views[0], views[1]);
    assert IndexedStep(classify, folder, readAt, 1, states[1], signals[1], saved[1], views[1], views[2]);
  }

  lemma ReappearedRun(gone: Change, waiting: State, states: seq<State>, signals: seq<Signal>, world: seq<Snapshot>)
    requires gone.kind.Deleted? && waiting == START.(pending := map[gone.path := gone], armed := true)
    requires states == [START, waiting, START.(delivered := [[gone]])]
    requires signals == [Incoming(gone, true), TimerFires(Processed)]
    requires |world| == 3 && gone.path in world[0] && world[1] == world[2] == world[0] - {gone.path}
    ensures Run(states, signals) && Describes(world, signals)
  {
    assert Next(states[0], signals[0], states[1]);
    assert IsBatch(waiting.pending, [gone]);
    assert Next(states[1], signals[1], states[2]);
    assert WellFormed(world[0], Observation(gone, None)) && world[1] == Observe(world[0], Observation(gone, None));
    assert DescribesStep(world[0], signals[0], world[1]) && DescribesStep(world[1], signals[1], world[2]);
  }
}
