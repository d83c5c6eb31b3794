/** Filesystem changes as the watcher sees them: snapshots polled and compared
    (polling_source.go), and pending changes of one path collapsed into one
    (embedded_worker.go). */
module WatcherEvents {
  import opened Common

  datatype ChangeType = Added | Modified | Deleted

  /** A normalized change: its type is one of the three and its hash is trimmed. */
  datatype Change = Change(kind: ChangeType, path: string, oldHash: string)

  datatype FileSnapshot = FileSnapshot(size: int, modUnixNanos: int)

  type Snapshot = map<string, FileSnapshot>

  type Pending = map<string, Change>

  // ----- collapsing -----

  /** `collapseChangeTypes`; `None` drops the entry. */
  function Collapse(current: ChangeType, next: ChangeType): Option<ChangeType> {
    match current
    case Added => if next.Deleted? then None else Some(Added)
    case Modified => if next.Deleted? then Some(Deleted) else Some(Modified)
    case Deleted => if next.Added? then Some(Modified) else Some(Deleted)
  }

  /** The file was there before the entry's changes. */
  predicate WasThere(k: ChangeType) {
    !k.Added?
  }

  /** The file is there after the entry's changes. */
  predicate IsThere(k: ChangeType) {
    !k.Deleted?
  }

  /** Collapsing keeps track of presence for every pair of types, expected or not: whether
      the file was there before is what the older entry says, whether it is there after is
      what the newer change says (a modification does not bring a file back), and an entry
      is dropped exactly when the file is absent at both ends. */
  lemma CollapseTracksPresence(current: ChangeType, next: ChangeType)
    ensures var after := if next.Modified? then IsThere(current) else next.Added?;
      match Collapse(current, next)
      case None => !WasThere(current) && !after
      case Some(k) => WasThere(k) == WasThere(current) && IsThere(k) == after && (WasThere(k) || after)
  {}

  /** `mergePendingChange`, on the entries as a value */
  function Merge(pending: Pending, next: Change): Pending {
    if next.path !in pending then pending[next.path := next]
    else
      var current := pending[next.path];
      match Collapse(current.kind, next.kind)
      case None => pending - {next.path}
      case Some(k) =>
        pending[next.path := Change(k, next.path, if current.oldHash == "" then next.oldHash else current.oldHash)]
  }

  // ----- what a batch should say -----

  /** A change together with what the file looks like after it, if it still exists. */
  datatype Observation = Observation(change: Change, after: Option<FileSnapshot>)

  predicate WellFormed(v: Snapshot, o: Observation) {
    match o.change.kind
    case Added => o.change.path !in v && o.after.Some?
    case Modified => o.change.path in v && o.after.Some? && o.after.value != v[o.change.path]
    case Deleted => o.change.path in v && o.after == None
  }

  function Observe(v: Snapshot, o: Observation): Snapshot {
    if o.after.Some? then v[o.change.path := o.after.value] else v - {o.change.path}
  }

  /** The entries are the net effect between the two snapshots. */
  ghost predicate NetEffect(v0: Snapshot, v: Snapshot, pending: Pending) {
    (forall p :: p in pending ==> pending[p].path == p)
    && (forall p :: (p in pending && pending[p].kind.Added?) <==> (p !in v0 && p in v))
    && (forall p :: (p in pending && pending[p].kind.Deleted?) <==> (p in v0 && p !in v))
    && (forall p :: p in pending && pending[p].kind.Modified? ==> p in v0 && p in v)
    && (forall p :: p in v0 && p in v && v0[p] != v[p] ==> p in pending && pending[p].kind.Modified?)
  }

  lemma MergeIsNetEffect(v0: Snapshot, v: Snapshot, pending: Pending, o: Observation)
    requires NetEffect(v0, v, pending) && WellFormed(v, o)
    ensures NetEffect(v0, Observe(v, o), Merge(pending, o.change))
  {
    var q, v', pending' := o.change.path, Observe(v, o), Merge(pending, o.change);
    forall p | p != q
      ensures (p in v' <==> p in v) && (p in v ==> v'[p] == v[p])
      ensures (p in pending' <==> p in pending) && (p in pending ==> pending'[p] == pending[p])
    {}
    assert q in pending ==> pending[q].path == q;
    assert q in v0 && q in v && q !in pending ==> v0[q] == v[q];
  }

  /** A file absent at both ends has no entry, and an empty batch means nothing changed. */
  lemma NoEntryNoChange(v0: Snapshot, v: Snapshot, pending: Pending)
    requires NetEffect(v0, v, pending)
    ensures forall p :: p !in v0 && p !in v ==> p !in pending
    ensures forall p :: p !in pending ==> (p in v0 <==> p in v) && (p in v ==> v0[p] == v[p])
  {}

  /** While an entry stands, the first old hash reported for it stands too. */
  lemma FirstHashStays(pending: Pending, next: Change)
    requires next.path in pending && pending[next.path].oldHash != ""
    ensures next.path in Merge(pending, next) ==> Merge(pending, next)[next.path].oldHash == pending[next.path].oldHash
  {}

  // ----- polling -----

  ghost predicate SortedByPath(changes: seq<Change>) {
    forall i, j :: 0 <= i < j < |changes| ==> StrLess(changes[i].path, changes[j].path)
  }

  ghost predicate ChangeBetween(before: Snapshot, after: Snapshot, c: Change) {
    c.oldHash == ""
    && match c.kind
       case Added => c.path !in before && c.path in after
       case Modified => c.path in before && c.path in after && before[c.path] != after[c.path]
       case Deleted => c.path in before && c.path !in after
  }

  /** One change for every path that differs, in path order. */
  ghost predicate IsDiff(before: Snapshot, after: Snapshot, changes: seq<Change>) {
    SortedByPath(changes) && forall c :: c in changes <==> ChangeBetween(before, after, c)
  }

  method InsertByPath(s: seq<Change>, x: Change) returns (t: seq<Change>)
    requires SortedByPath(s) && forall c :: c in s ==> c.path != x.path
    ensures SortedByPath(t) && forall c :: c in t <==> c in s || c == x
  {
    hide StrLess;
    var k := 0;
    while k < |s| && StrLess(s[k].path, x.path)
      invariant 0 <= k <= |s|
      invariant forall i :: 0 <= i < k ==> StrLess(s[i].path, x.path)
    {
      k := k + 1;
    }
    t := s[..k] + [x] + s[k..];
    assert s == s[..k] + s[k..];
    forall i | k <= i < |s| ensures StrLess(x.path, s[i].path) {
      assert s[k] in s;
      StrLessTotal(x.path, s[k].path);
      if k < i { StrLessTransitive(x.path, s[k].path, s[i].path); }
    }
  }

  /** `sort.Slice` by path of changes whose paths differ */
  method SortChanges(changes: seq<Change>) returns (sorted: seq<Change>)
    requires forall i, j :: 0 <= i < j < |changes| ==> changes[i].path != changes[j].path
    ensures SortedByPath(sorted) && forall c :: c in sorted <==> c in changes
  {
    sorted := [];
    for i := 0 to |changes|
      invariant SortedByPath(sorted) && forall c :: c in sorted <==> c in changes[..i]
    {
      assert changes[..i + 1] == changes[..i] + [changes[i]];
      sorted := InsertByPath(sorted, changes[i]);
    }
    assert changes[..|changes|] == changes;
  }

  /** `diffFolderSnapshots`; both maps are visited in any order. */
  method DiffFolderSnapshots(before: Snapshot, after: Snapshot) returns (sorted: seq<Change>)
    ensures IsDiff(before, after, sorted)
  {
    var changes: seq<Change> := [];
    var paths := after.Keys;
    while paths != {}
      invariant paths <= after.Keys
      invariant forall i, j :: 0 <= i < j < |changes| ==> changes[i].path != changes[j].path
      invariant forall c :: c in changes <==>
        ChangeBetween(before, after, c) && !c.kind.Deleted? && c.path !in paths
    {
      var path :| path in paths;
      paths := paths - {path};
      forall i | 0 <= i < |changes| ensures changes[i].path != path { assert changes[i] in changes; }
      if path !in before {
        changes := changes + [Change(Added, path, "")];
        continue;
      }
      if before[path].size != after[path].size || before[path].modUnixNanos != after[path].modUnixNanos {
        changes := changes + [Change(Modified, path, "")];
      }
    }
    paths := before.Keys;
    while paths != {}
      invariant paths <= before.Keys
      invariant forall i, j :: 0 <= i < j < |changes| ==> changes[i].path != changes[j].path
      invariant forall c :: c in changes <==>
        ChangeBetween(before, after, c) && (c.kind.Deleted? ==> c.path !in paths)
    {
      var path :| path in paths;
      paths := paths - {path};
      if path in after {
        continue;
      }
      forall i | 0 <= i < |changes| ensures changes[i].path != path { assert changes[i] in changes; }
      changes := changes + [Change(Deleted, path, "")];
    }
    sorted := SortChanges(changes);
  }

  ghost function ObserveAll(v: Snapshot, os: seq<Observation>): Snapshot {
    if os == [] then v else Observe(ObserveAll(v, os[..|os| - 1]), os[|os| - 1])
  }

  ghost predicate WellFormedAll(v: Snapshot, os: seq<Observation>) {
    forall i :: 0 <= i < |os| ==> WellFormed(ObserveAll(v, os[..i]), os[i])
  }

  /** The changes of a diff, each with the file as the later snapshot shows it. */
  ghost function Annotate(changes: seq<Change>, after: Snapshot): seq<Observation> {
    seq(|changes|, i requires 0 <= i < |changes| =>
      Observation(changes[i], if changes[i].path in after then Some(after[changes[i].path]) else None))
  }

  /** While a diff is delivered, the paths delivered look as after and the others as before. */
  lemma {:induction false} DiffPrefix(before: Snapshot, after: Snapshot, changes: seq<Change>, k: nat, p: string)
    requires IsDiff(before, after, changes) && k <= |changes|
    ensures var v := ObserveAll(before, Annotate(changes, after)[..k]);
      var delivered := exists i :: 0 <= i < k && changes[i].path == p;
      (p in v <==> if delivered then p in after else p in before)
      && (p in v ==> v[p] == if delivered then after[p] else before[p])
  {
    if k > 0 {
      var os := Annotate(changes, after);
      DiffPrefix(before, after, changes, k - 1, p);
      assert os[..k][..k - 1] == os[..k - 1];
      assert os[..k][k - 1] == os[k - 1];
      assert changes[k - 1] in changes;
    }
  }

  /** The stream of a poll is well formed from the earlier snapshot and leads exactly to the
      later one. */
  lemma DiffIsWellFormed(before: Snapshot, after: Snapshot, changes: seq<Change>)
    requires IsDiff(before, after, changes)
    ensures WellFormedAll(before, Annotate(changes, after))
    ensures ObserveAll(before, Annotate(changes, after)) == after
  {
    var os := Annotate(changes, after);
    forall k | 0 <= k < |os| ensures WellFormed(ObserveAll(before, os[..k]), os[k]) {
      DiffPrefix(before, after, changes, k, changes[k].path);
      assert changes[k] in changes;
      forall i | 0 <= i < k ensures changes[i].path != changes[k].path {
        StrLessTotal(changes[i].path, changes[k].path);
      }
    }
    assert os[..|changes|] == os;
    var v := ObserveAll(before, os);
    forall p ensures (p in v <==> p in after) && (p in v ==> v[p] == after[p]) {
      DiffPrefix(before, after, changes, |changes|, p);
      DiffNames(before, after, changes, p);
    }
  }

  lemma DiffNames(before: Snapshot, after: Snapshot, changes: seq<Change>, p: string)
    requires IsDiff(before, after, changes)
    ensures (exists i :: 0 <= i < |changes| && changes[i].path == p)
         || ((p in before <==> p in after) && (p in before ==> before[p] == after[p]))
  {
    var kind := if p !in before then Added else if p in after then Modified else Deleted;
    if ChangeBetween(before, after, Change(kind, p, "")) {
      assert Change(kind, p, "") in changes;
    }
  }

  /** The whole stream of a run of polls, from the first snapshot to the last. */
  ghost predicate Polled(snapshots: seq<Snapshot>, os: seq<Observation>)
    requires snapshots != []
  {
    if |snapshots| == 1 then os == []
    else
      var n := |snapshots| - 1;
      exists changes, k :: 0 <= k <= |os| && IsDiff(snapshots[n - 1], snapshots[n], changes)
        && Polled(snapshots[..n], os[..k]) && os[k..] == Annotate(changes, snapshots[n])
  }

  lemma {:induction false} ObserveConcat(v: Snapshot, a: seq<Observation>, b: seq<Observation>)
    ensures ObserveAll(v, a + b) == ObserveAll(ObserveAll(v, a), b)
  {
    if b == [] {
      assert a + b == a;
    } else {
      assert (a + b)[..|a + b| - 1] == a + b[..|b| - 1];
      ObserveConcat(v, a, b[..|b| - 1]);
    }
  }

  /** The last poll of a run of polls, and where its changes begin in the stream. */
  lemma LastPoll(snapshots: seq<Snapshot>, os: seq<Observation>) returns (changes: seq<Change>, k: nat)
    requires |snapshots| > 1 && Polled(snapshots, os)
    ensures var n := |snapshots| - 1;
      k <= |os| && IsDiff(snapshots[n - 1], snapshots[n], changes)
      && Polled(snapshots[..n], os[..k]) && os[k..] == Annotate(changes, snapshots[n])
  {
    hide IsDiff, Annotate;
    var n := |snapshots| - 1;
    changes, k :| 0 <= k <= |os| && IsDiff(snapshots[n - 1], snapshots[n], changes)
      && Polled(snapshots[..n], os[..k]) && os[k..] == Annotate(changes, snapshots[n]);
  }

  lemma NothingPolled(snapshots: seq<Snapshot>, os: seq<Observation>)
    requires |snapshots| == 1 && Polled(snapshots, os)
    ensures WellFormedAll(snapshots[0], os) && ObserveAll(snapshots[0], os) == snapshots[0]
  {}

  lemma PollStep(v: Snapshot, before: Snapshot, after: Snapshot, os: seq<Observation>, changes: seq<Change>)
    requires WellFormedAll(v, os) && ObserveAll(v, os) == before && IsDiff(before, after, changes)
    ensures WellFormedAll(v, os + Annotate(changes, after)) && ObserveAll(v, os + Annotate(changes, after)) == after
  {
    hide IsDiff, Annotate, WellFormedAll, ObserveAll;
    DiffIsWellFormed(before, after, changes);
    ObserveConcat(v, os, Annotate(changes, after));
    WellFormedConcat(v, os, Annotate(changes, after));
  }

  /** Everything the polling source ever sends is well formed, from the first snapshot on. */
  lemma {:induction false} PollingIsWellFormed(snapshots: seq<Snapshot>, os: seq<Observation>)
    requires snapshots != [] && Polled(snapshots, os)
    ensures WellFormedAll(snapshots[0], os)
    ensures ObserveAll(snapshots[0], os) == snapshots[|snapshots| - 1]
  {
    hide Polled, IsDiff, Annotate, WellFormedAll, ObserveAll;
    if |snapshots| == 1 {
      NothingPolled(snapshots, os);
    } else {
      var n := |snapshots| - 1;
      var changes, k := LastPoll(snapshots, os);
      PollingIsWellFormed(snapshots[..n], os[..k]);
      PollStep(snapshots[0], snapshots[n - 1], snapshots[n], os[..k], changes);
      assert os == os[..k] + os[k..];
    }
  }

  lemma WellFormedConcat(v: Snapshot, a: seq<Observation>, b: seq<Observation>)
    requires WellFormedAll(v, a) && WellFormedAll(ObserveAll(v, a), b)
    ensures WellFormedAll(v, a + b)
  {
    var os := a + b;
    forall i | 0 <= i < |os| ensures WellFormed(ObserveAll(v, os[..i]), os[i]) {
      if i < |a| {
        assert a[..i] == os[..i] && os[i] == a[i];
      } else {
        assert os[..i] == a + b[..i - |a|] && os[i] == b[i - |a|];
        ObserveConcat(v, a, b[..i - |a|]);
      }
    }
  }
}
