/** Re-indexing a folder from the list of paths that changed (handlers_indexing.go). The maps
    of the stored index are patched in place, one path at a time. There are two things to
    compare the result with: the fast path's own test of a file, and the walk over the whole
    folder, which refuses files that the fast path takes. */
module FastPath {
  import opened Common
  import opened IndexFiles

  /** What the file system answers at a path: stat finds nothing, fails, or finds something
      that is not a regular file, or a regular file that can be read or not. Of the content
      of a file, its hash, its size and whether it looks binary matter. */
  datatype DiskEntry = Missing | StatError | NotRegular | Unreadable(mtime: int)
                     | File(hash: string, mtime: int, size: int, binary: bool)

  type Disk = string -> DiskEntry

  /** What a look at the path says about the index entry it should have. */
  datatype Verdict = Gone | Unknown | Present(hash: string, mtime: int)

  function Look(classify: Classifier, disk: Disk, p: string): Verdict {
    match disk(p)
    case Missing => Gone
    case StatError => Unknown
    case NotRegular => Gone
    case Unreadable(_) => if classify(p) == None then Gone else Unknown
    case File(hash, mtime, _, _) => if classify(p) == None then Gone else Present(hash, mtime)
  }

  /** The sets of the loop, and its flag for a changed time. */
  datatype Marks = Marks(changed: set<string>, created: set<string>, deleted: set<string>, mtimeOnly: bool)

  datatype Outcome = NotHandled | Cancelled | NoChange | Saved | SaveFailed

  function TimeOf(mtimes: map<string, int>, p: string): int {
    if p in mtimes then mtimes[p] else 0
  }

  // ----- the specification, path by path -----

  /** The entry of a path after the run, given its entry before. */
  function NewHash(files: map<string, string>, v: Verdict, p: string): Option<string> {
    match v
    case Gone => None
    case Unknown => Get(files, p)
    case Present(hash, _) => Some(hash)
  }

  function NewTime(files: map<string, string>, mtimes: map<string, int>, v: Verdict, p: string): Option<int> {
    match v
    case Gone => if p in files then None else Get(mtimes, p)
    case Unknown => Get(mtimes, p)
    case Present(hash, mtime) =>
      if p in files && files[p] == hash && TimeOf(mtimes, p) == mtime then Get(mtimes, p) else Some(mtime)
  }

  predicate TimeMoved(files: map<string, string>, mtimes: map<string, int>, v: Verdict, p: string) {
    v.Present? && p in files && files[p] == v.hash && TimeOf(mtimes, p) != v.mtime
  }

  predicate Visited(files: map<string, string>, mtimes: map<string, int>, files': map<string, string>,
                    mtimes': map<string, int>, v: Verdict, p: string) {
    Get(files', p) == NewHash(files, v, p) && Get(mtimes', p) == NewTime(files, mtimes, v, p)
  }

  /** What the file system answers takes the path out of the index. */
  predicate Removes(entry: DiskEntry, known: bool) {
    entry.Missing? || entry.NotRegular? || (!known && !entry.StatError?)
  }

  /** The entry of a visited path follows what the file system answers, in a known language or
      not. */
  ghost predicate Follows(entry: DiskEntry, known: bool, files: map<string, string>, mtimes: map<string, int>,
                          files': map<string, string>, mtimes': map<string, int>, p: string) {
    if Removes(entry, known) then p !in files' && (p in files ==> p !in mtimes')
    else if entry.File? then Get(files', p) == Some(entry.hash) && TimeOf(mtimes', p) == entry.mtime
    else Get(files', p) == Get(files, p) && Get(mtimes', p) == Get(mtimes, p)
  }

  /** The marks of a path say how its entry changed. */
  predicate Marked(files: map<string, string>, v: Verdict, marks: Marks, p: string) {
    (p in marks.changed <==> v.Present? && p in files && files[p] != v.hash)
    && (p in marks.created <==> v.Present? && p !in files)
    && (p in marks.deleted <==> v.Gone? && p in files)
  }

  predicate Untouched(files: map<string, string>, mtimes: map<string, int>, files': map<string, string>,
                      mtimes': map<string, int>, marks: Marks, p: string) {
    Get(files', p) == Get(files, p) && Get(mtimes', p) == Get(mtimes, p)
    && p !in marks.changed && p !in marks.created && p !in marks.deleted
  }

  /** A path that was visited, or was not yet. */
  ghost predicate Progress(classify: Classifier, disk: Disk, seen: set<string>, files: map<string, string>,
                           mtimes: map<string, int>, files': map<string, string>, mtimes': map<string, int>, marks: Marks,
                           p: string) {
    if p in seen
    then Visited(files, mtimes, files', mtimes', Look(classify, disk, p), p) && Marked(files, Look(classify, disk, p), marks, p)
    else Untouched(files, mtimes, files', mtimes', marks, p)
  }

  ghost predicate AnyTimeMoved(classify: Classifier, disk: Disk, seen: set<string>, files: map<string, string>,
                               mtimes: map<string, int>) {
    exists p :: p in seen && TimeMoved(files, mtimes, Look(classify, disk, p), p)
  }

  // ----- the patched index -----

  class RepoIndex {
    var files: map<string, string>
    var fileMTimes: map<string, int>
    var languages: map<string, int>

    /** Every language with a file is counted, and no other. */
    ghost predicate Counted(classify: Classifier)
      reads this
    {
      languages == LanguageCounts(classify, files.Keys)
    }

    /** `markDeleted` */
    method MarkDeleted(classify: Classifier, relPath: string, marks: Marks) returns (r: Marks)
      modifies this
      ensures old(Counted(classify)) ==> Counted(classify)
      ensures files == old(files) - {relPath}
      ensures fileMTimes == if relPath in old(files) then old(fileMTimes) - {relPath} else old(fileMTimes)
      ensures r == if relPath in old(files)
                   then Marks(marks.changed - {relPath}, marks.created - {relPath}, marks.deleted + {relPath}, marks.mtimeOnly)
                   else marks
    {
      if relPath !in files {
        assert files - {relPath} == files;
        return marks;
      }
      r := Marks(marks.changed - {relPath}, marks.created - {relPath}, marks.deleted + {relPath}, marks.mtimeOnly);
      DecrementCounts(classify, files.Keys, relPath);
      files := files - {relPath};
      fileMTimes := fileMTimes - {relPath};
      languages := Decremented(classify, languages, relPath);
      assert files.Keys == old(files.Keys) - {relPath};
    }

    /** One turn of the loop of `indexFolderFromChangedPaths`. */
    method VisitPath(classify: Classifier, disk: Disk, relPath: string, marks: Marks) returns (r: Marks)
      modifies this
      ensures old(Counted(classify)) ==> Counted(classify)
      ensures var v := Look(classify, disk, relPath);
        Visited(old(files), old(fileMTimes), files, fileMTimes, v, relPath)
        && (forall p :: p != relPath ==>
              Get(files, p) == Get(old(files), p) && Get(fileMTimes, p) == Get(old(fileMTimes), p)
              && (p in r.changed <==> p in marks.changed) && (p in r.created <==> p in marks.created)
              && (p in r.deleted <==> p in marks.deleted))
        && (if v.Present? && relPath !in old(files)
            then relPath in r.created && relPath !in r.changed && relPath !in r.deleted
            else if v.Present? && old(files)[relPath] != v.hash
            then relPath in r.changed && relPath !in r.created && relPath !in r.deleted
            else if v.Gone? && relPath in old(files)
            then relPath in r.deleted && relPath !in r.created && relPath !in r.changed
            else r.changed == marks.changed && r.created == marks.created && r.deleted == marks.deleted)
        && (r.mtimeOnly <==> marks.mtimeOnly || TimeMoved(old(files), old(fileMTimes), v, relPath))
      ensures var entry, known := disk(relPath), classify(relPath).Some?;
        (entry.Missing? || entry.NotRegular? || (!known && !entry.StatError?) ==>
           relPath !in files && (relPath in old(files) ==> relPath !in fileMTimes && relPath in r.deleted))
        && (entry.StatError? || (known && entry.Unreadable?) ==> files == old(files) && fileMTimes == old(fileMTimes) && r == marks)
        && (known && entry.File? ==>
              Get(files, relPath) == Some(entry.hash) && (if relPath in fileMTimes then fileMTimes[relPath] else 0) == entry.mtime
              && (relPath !in old(files) ==> relPath in r.created)
              && (relPath in old(files) && old(files)[relPath] != entry.hash ==> relPath in r.changed))
    {
      hide LanguageCounts, Incremented;
      r := marks;
      var entry := disk(relPath);
      if entry.Missing? {
        r := MarkDeleted(classify, relPath, marks);
        return;
      }
      if entry.StatError? {
        return;
      }
      if entry.NotRegular? {
        r := MarkDeleted(classify, relPath, marks);
        return;
      }
      if classify(relPath) == None {
        r := MarkDeleted(classify, relPath, marks);
        return;
      }
      if entry.Unreadable? {
        return;
      }
      if relPath !in files {
        r := Marks(marks.changed - {relPath}, marks.created + {relPath}, marks.deleted - {relPath}, marks.mtimeOnly);
        IncrementCounts(classify, files.Keys, relPath);
        files := files[relPath := entry.hash];
        fileMTimes := fileMTimes[relPath := entry.mtime];
        languages := Incremented(classify, languages, relPath);
        assert files.Keys == old(files.Keys) + {relPath};
        return;
      }
      if files[relPath] == entry.hash {
        if TimeOf(fileMTimes, relPath) != entry.mtime {
          fileMTimes := fileMTimes[relPath := entry.mtime];
          r := r.(mtimeOnly := true);
        }
        return;
      }
      r := Marks(marks.changed + {relPath}, marks.created - {relPath}, marks.deleted - {relPath}, marks.mtimeOnly);
      files := files[relPath := entry.hash];
      fileMTimes := fileMTimes[relPath := entry.mtime];
      assert files.Keys == old(files.Keys);
    }

    /** `indexFolderFromChangedPaths`, given the parsed list of paths (which may repeat).
        `ended` says whether the context is found ended before a path, and `saveFails` whether
        saving the index would fail. A run that is not cancelled returns exactly the difference
        between the listings before and after, and tries to save exactly when something in the
        index changed; a cancelled run has patched the paths it got to. */
    method IndexFolderFromChangedPaths(classify: Classifier, disk: Disk, changedPaths: seq<string>, ended: nat -> bool,
                                       saveFails: bool)
      returns (outcome: Outcome, changed: seq<string>, created: seq<string>, deleted: seq<string>, ghost visited: nat)
      modifies this
      ensures old(Counted(classify)) ==> Counted(classify)
      ensures visited <= |changedPaths| && (forall k :: 0 <= k < visited ==> !ended(k))
      ensures outcome.Cancelled? <==> visited < |changedPaths|
      ensures outcome.Cancelled? ==> ended(visited)
      ensures Patched(classify, disk, Members(changedPaths[..visited]), old(files), old(fileMTimes), files, fileMTimes)
      ensures forall p :: p in changedPaths[..visited] ==>
                Follows(disk(p), classify(p).Some?, old(files), old(fileMTimes), files, fileMTimes, p)
      ensures !outcome.Cancelled? ==> forall p ::
                (p in deleted <==> p in old(files) && p in changedPaths && Removes(disk(p), classify(p).Some?))
                && (p in created <==> p !in old(files) && p in changedPaths && classify(p).Some? && disk(p).File?)
                && (p in changed <==> (p in old(files) && p in changedPaths && classify(p).Some? && disk(p).File?
                                       && disk(p).hash != old(files)[p]))
      ensures !outcome.Cancelled? ==>
                Lists(changed, ChangedKeys(old(files), files)) && Lists(created, files.Keys - old(files).Keys)
                && Lists(deleted, old(files).Keys - files.Keys)
      ensures outcome.NotHandled? <==> changedPaths == []
      ensures outcome.NoChange? <==> visited == |changedPaths| > 0 && files == old(files) && fileMTimes == old(fileMTimes)
      ensures outcome.SaveFailed? ==> saveFails
      ensures outcome.Saved? ==> !saveFails
    {
      hide Follows, Removes, Patched, ChangedKeys, Look, NewHash, NewTime, TimeMoved, LanguageCounts;
      var marks := Marks({}, {}, {}, false);
      ghost var seen: set<string> := {};
      ghost var files0, mtimes0 := files, fileMTimes;
      visited := 0;
      for i := 0 to |changedPaths|
        invariant seen == Members(changedPaths[..i]) && visited == i && (forall k :: 0 <= k < i ==> !ended(k))
        invariant old(Counted(classify)) ==> Counted(classify)
        invariant forall p :: Progress(classify, disk, seen, files0, mtimes0, files, fileMTimes, marks, p)
        invariant marks.mtimeOnly <==> AnyTimeMoved(classify, disk, seen, files0, mtimes0)
      {
        hide Progress, AnyTimeMoved;
        if ended(i) {
          MarksAreDifference(classify, disk, seen, files0, mtimes0, files, fileMTimes, marks);
          PatchedEntries(classify, disk, seen, files0, mtimes0, files, fileMTimes);
          return Cancelled, [], [], [], visited;
        }
        ghost var filesBefore, mtimesBefore, marksBefore := files, fileMTimes, marks;
        marks := VisitPath(classify, disk, changedPaths[i], marks);
        forall p ensures Progress(classify, disk, seen + {changedPaths[i]}, files0, mtimes0, files, fileMTimes, marks, p) {
          if p == changedPaths[i] {
            ProgressHere(classify, disk, seen, files0, mtimes0, filesBefore, mtimesBefore, marksBefore,
                         files, fileMTimes, marks, p);
          } else {
            ProgressElsewhere(classify, disk, seen, files0, mtimes0, filesBefore, mtimesBefore, marksBefore,
                              files, fileMTimes, marks, p, changedPaths[i]);
          }
        }
        TimeFlag(classify, disk, seen, files0, mtimes0, filesBefore, mtimesBefore, marksBefore, marks, changedPaths[i]);
        seen := seen + {changedPaths[i]};
        visited := i + 1;
      }
      assert changedPaths[..|changedPaths|] == changedPaths;
      changed := SortedMembers(marks.changed);
      created := SortedMembers(marks.created);
      deleted := SortedMembers(marks.deleted);
      MarksAreDifference(classify, disk, seen, files0, mtimes0, files, fileMTimes, marks);
      PatchedEntries(classify, disk, seen, files0, mtimes0, files, fileMTimes);
      EmptyListing(changed, marks.changed);
      EmptyListing(created, marks.created);
      EmptyListing(deleted, marks.deleted);
      NoDifference(files0, files);
      TimesMovedMeansChanged(classify, disk, seen, files0, mtimes0, files, fileMTimes, marks);
      if changedPaths == [] {
        outcome := NotHandled;
      } else if changed == [] && created == [] && deleted == [] && !marks.mtimeOnly {
        outcome := NoChange;
      } else {
        outcome := if saveFails then SaveFailed else Saved;
      }
    }
  }

  /** Every given path has its entry brought up to date, and no other path is touched. */
  ghost predicate Patched(classify: Classifier, disk: Disk, paths: set<string>, files: map<string, string>,
                          mtimes: map<string, int>, files': map<string, string>, mtimes': map<string, int>) {
    forall p :: if p in paths then Visited(files, mtimes, files', mtimes', Look(classify, disk, p), p)
                else Get(files', p) == Get(files, p) && Get(mtimes', p) == Get(mtimes, p)
  }

  /** What the file system answers at a visited path decides its entry, and with it the list the
      path is in. */
  lemma PatchedEntry(classify: Classifier, disk: Disk, paths: set<string>, files: map<string, string>,
                     mtimes: map<string, int>, files': map<string, string>, mtimes': map<string, int>, p: string)
    requires Patched(classify, disk, paths, files, mtimes, files', mtimes') && p in paths
    ensures var entry, known := disk(p), classify(p).Some?;
      (entry.Missing? || entry.NotRegular? || (!known && !entry.StatError?) ==>
         p !in files' && (p in files ==> p !in mtimes'))
      && (entry.StatError? || (known && entry.Unreadable?) ==>
            Get(files', p) == Get(files, p) && Get(mtimes', p) == Get(mtimes, p))
      && (known && entry.File? ==> Get(files', p) == Some(entry.hash) && TimeOf(mtimes', p) == entry.mtime)
    ensures Follows(disk(p), classify(p).Some?, files, mtimes, files', mtimes', p)
  {
    assert Visited(files, mtimes, files', mtimes', Look(classify, disk, p), p);
  }

  lemma PatchedEntries(classify: Classifier, disk: Disk, paths: set<string>, files: map<string, string>,
                       mtimes: map<string, int>, files': map<string, string>, mtimes': map<string, int>)
    requires Patched(classify, disk, paths, files, mtimes, files', mtimes')
    ensures forall p :: p in paths ==> Follows(disk(p), classify(p).Some?, files, mtimes, files', mtimes', p)
    ensures forall p ::
      (p in files.Keys - files'.Keys <==> p in files && p in paths && Removes(disk(p), classify(p).Some?))
      && (p in files'.Keys - files.Keys <==> p !in files && p in paths && classify(p).Some? && disk(p).File?)
      && (p in ChangedKeys(files, files') <==> (p in files && p in paths && classify(p).Some? && disk(p).File?
                                                && disk(p).hash != files[p]))
  {
    forall p ensures p in paths ==> Follows(disk(p), classify(p).Some?, files, mtimes, files', mtimes', p)
             ensures p !in paths ==> Get(files', p) == Get(files, p)
    {
      if p in paths { PatchedEntry(classify, disk, paths, files, mtimes, files', mtimes', p); }
    }
    hide Patched;
    forall p
      ensures (p in files.Keys - files'.Keys <==> p in files && p in paths && Removes(disk(p), classify(p).Some?))
        && (p in files'.Keys - files.Keys <==> p !in files && p in paths && classify(p).Some? && disk(p).File?)
        && (p in ChangedKeys(files, files') <==> (p in files && p in paths && classify(p).Some? && disk(p).File?
                                                  && disk(p).hash != files[p]))
    {
      if p !in paths { assert Get(files', p) == Get(files, p); }
    }
  }

  lemma ProgressElsewhere(classify: Classifier, disk: Disk, seen: set<string>, files0: map<string, string>,
                          mtimes0: map<string, int>, files: map<string, string>, mtimes: map<string, int>, marks: Marks,
                          files': map<string, string>, mtimes': map<string, int>, marks': Marks, p: string, visited: string)
    requires p != visited && Progress(classify, disk, seen, files0, mtimes0, files, mtimes, marks, p)
    requires Get(files', p) == Get(files, p) && Get(mtimes', p) == Get(mtimes, p)
    requires p in marks'.changed <==> p in marks.changed
    requires p in marks'.created <==> p in marks.created
    requires p in marks'.deleted <==> p in marks.deleted
    ensures Progress(classify, disk, seen + {visited}, files0, mtimes0, files', mtimes', marks', p)
  {
    hide Look, NewHash, NewTime;
  }

  /** Visiting a path a second time changes nothing. */
  lemma ProgressHere(classify: Classifier, disk: Disk, seen: set<string>, files0: map<string, string>,
                     mtimes0: map<string, int>, files: map<string, string>, mtimes: map<string, int>, marks: Marks,
                     files': map<string, string>, mtimes': map<string, int>, marks': Marks, p: string)
    requires Progress(classify, disk, seen, files0, mtimes0, files, mtimes, marks, p)
    requires Visited(files, mtimes, files', mtimes', Look(classify, disk, p), p)
    requires var v := Look(classify, disk, p);
      if v.Present? && p !in files then p in marks'.created && p !in marks'.changed && p !in marks'.deleted
      else if v.Present? && files[p] != v.hash then p in marks'.changed && p !in marks'.created && p !in marks'.deleted
      else if v.Gone? && p in files then p in marks'.deleted && p !in marks'.created && p !in marks'.changed
      else marks'.changed == marks.changed && marks'.created == marks.created && marks'.deleted == marks.deleted
    ensures Progress(classify, disk, seen + {p}, files0, mtimes0, files', mtimes', marks', p)
  {
    hide Look;
  }

  lemma TimeFlag(classify: Classifier, disk: Disk, seen: set<string>, files0: map<string, string>,
                 mtimes0: map<string, int>, files: map<string, string>, mtimes: map<string, int>, marks: Marks,
                 marks': Marks, p: string)
    requires Progress(classify, disk, seen, files0, mtimes0, files, mtimes, marks, p)
    requires marks.mtimeOnly <==> AnyTimeMoved(classify, disk, seen, files0, mtimes0)
    requires marks'.mtimeOnly <==> marks.mtimeOnly || TimeMoved(files, mtimes, Look(classify, disk, p), p)
    ensures marks'.mtimeOnly <==> AnyTimeMoved(classify, disk, seen + {p}, files0, mtimes0)
  {
    hide Look;
    assert p in seen ==> !TimeMoved(files, mtimes, Look(classify, disk, p), p);
    if AnyTimeMoved(classify, disk, seen, files0, mtimes0) {
      var q :| q in seen && TimeMoved(files0, mtimes0, Look(classify, disk, q), q);
      assert q in seen + {p};
    }
    if TimeMoved(files, mtimes, Look(classify, disk, p), p) {
      assert p in seen + {p} && TimeMoved(files0, mtimes0, Look(classify, disk, p), p);
    }
  }

  lemma MarksAreDifference(classify: Classifier, disk: Disk, paths: set<string>, files: map<string, string>,
                           mtimes: map<string, int>, files': map<string, string>, mtimes': map<string, int>, marks: Marks)
    requires forall p :: Progress(classify, disk, paths, files, mtimes, files', mtimes', marks, p)
    ensures marks.changed == ChangedKeys(files, files')
    ensures marks.created == files'.Keys - files.Keys && marks.deleted == files.Keys - files'.Keys
    ensures Patched(classify, disk, paths, files, mtimes, files', mtimes')
  {
    hide Look;
    forall p ensures (p in marks.changed <==> p in ChangedKeys(files, files'))
                     && (p in marks.created <==> p in files'.Keys - files.Keys)
                     && (p in marks.deleted <==> p in files.Keys - files'.Keys)
    {
      assert Progress(classify, disk, paths, files, mtimes, files', mtimes', marks, p);
    }
    forall p ensures if p in paths then Visited(files, mtimes, files', mtimes', Look(classify, disk, p), p)
                     else Get(files', p) == Get(files, p) && Get(mtimes', p) == Get(mtimes, p)
    {
      assert Progress(classify, disk, paths, files, mtimes, files', mtimes', marks, p);
    }
  }

  lemma TimesMovedMeansChanged(classify: Classifier, disk: Disk, paths: set<string>, files: map<string, string>,
                               mtimes: map<string, int>, files': map<string, string>, mtimes': map<string, int>, marks: Marks)
    requires Patched(classify, disk, paths, files, mtimes, files', mtimes')
    ensures files == files' ==> (AnyTimeMoved(classify, disk, paths, files, mtimes) <==> mtimes != mtimes')
  {
    hide Look;
    if files == files' && mtimes != mtimes' {
      if forall p :: Get(mtimes, p) == Get(mtimes', p) { GetAll(mtimes, mtimes'); }
      var p :| Get(mtimes, p) != Get(mtimes', p);
      assert p in paths && Visited(files, mtimes, files', mtimes', Look(classify, disk, p), p);
      assert TimeMoved(files, mtimes, Look(classify, disk, p), p);
    }
    if files == files' && AnyTimeMoved(classify, disk, paths, files, mtimes) {
      var p :| p in paths && TimeMoved(files, mtimes, Look(classify, disk, p), p);
      assert Visited(files, mtimes, files', mtimes', Look(classify, disk, p), p);
      assert Get(mtimes, p) != Get(mtimes', p);
    }
  }

  // ----- the patched index against the folder, by the fast path's own test -----

  /** The entry of a path is what the file system says, where it says anything. */
  ghost predicate AgreesAt(classify: Classifier, disk: Disk, files: map<string, string>, mtimes: map<string, int>, p: string) {
    match disk(p)
    case StatError => true
    case Missing => p !in files && p !in mtimes
    case NotRegular => p !in files && p !in mtimes
    case Unreadable(_) => classify(p) == None ==> p !in files && p !in mtimes
    case File(hash, mtime, _, _) =>
      if classify(p) == None then p !in files && p !in mtimes
      else Get(files, p) == Some(hash) && Get(mtimes, p) == Some(mtime)
  }

  /** The two cases in which a visit leaves a time astray: a path that is gone had a time but
      no hash, or an unchanged file of time zero had a hash but no time. */
  predicate TimeAstray(files: map<string, string>, mtimes: map<string, int>, v: Verdict, p: string) {
    if v.Gone? then p !in files && p in mtimes
    else v.Present? && v.mtime == 0 && p in files && files[p] == v.hash && p !in mtimes
  }

  /** Whatever the index held, a visit brings the entry of the path up to date, except for
      a time that was astray before. */
  lemma VisitAgrees(classify: Classifier, disk: Disk, files: map<string, string>, mtimes: map<string, int>,
                    files': map<string, string>, mtimes': map<string, int>, p: string)
    requires Visited(files, mtimes, files', mtimes', Look(classify, disk, p), p)
    ensures AgreesAt(classify, disk, files', mtimes', p) <==> !TimeAstray(files, mtimes, Look(classify, disk, p), p)
  {}

  lemma VisitedAgrees(classify: Classifier, disk: Disk, files: map<string, string>, mtimes: map<string, int>,
                      files': map<string, string>, mtimes': map<string, int>, p: string)
    requires (p in mtimes <==> p in files) && Visited(files, mtimes, files', mtimes', Look(classify, disk, p), p)
    ensures AgreesAt(classify, disk, files', mtimes', p) && (p in mtimes' <==> p in files')
  {}

  /** The fast path leaves an index that agrees with the folder everywhere, exactly when the
      index agreed outside the given paths before. */
  lemma PatchAgrees(classify: Classifier, disk: Disk, paths: set<string>, files: map<string, string>,
                    mtimes: map<string, int>, files': map<string, string>, mtimes': map<string, int>)
    requires mtimes.Keys == files.Keys && Patched(classify, disk, paths, files, mtimes, files', mtimes')
    ensures mtimes'.Keys == files'.Keys
    ensures (forall p :: AgreesAt(classify, disk, files', mtimes', p))
       <==> (forall p :: p !in paths ==> AgreesAt(classify, disk, files, mtimes, p))
  {
    forall p ensures (p in mtimes' <==> p in files')
                     && (AgreesAt(classify, disk, files', mtimes', p)
                         <==> p in paths || AgreesAt(classify, disk, files, mtimes, p))
    {
      if p in paths {
        VisitedAgrees(classify, disk, files, mtimes, files', mtimes', p);
      } else {
        assert Get(files', p) == Get(files, p) && Get(mtimes', p) == Get(mtimes, p);
        hide Look;
      }
    }
    hide AgreesAt;
  }

  // ----- the patched index against a walk over the folder -----

  const MAX_FILE_SIZE := 512000

  /** `skips` is the verdict of the walk on the path itself: skipped directories, symbolic
      links, ignore patterns, secrets. */
  datatype Rules = Rules(skips: string -> bool)

  /** A file that `discoverFolderFiles` takes; one that it cannot read is not in its result. */
  predicate WalkTakes(classify: Classifier, rules: Rules, entry: DiskEntry, p: string) {
    entry.File? && !rules.skips(p) && classify(p).Some? && entry.size <= MAX_FILE_SIZE && !entry.binary
  }

  /** The entry of a path is the one the walk gives it. */
  ghost predicate WalkAt(classify: Classifier, rules: Rules, disk: Disk, files: map<string, string>,
                         mtimes: map<string, int>, p: string) {
    var entry := disk(p);
    if WalkTakes(classify, rules, entry, p) then Get(files, p) == Some(entry.hash) && Get(mtimes, p) == Some(entry.mtime)
    else p !in files && p !in mtimes
  }

  /** What a walk over the whole folder builds. */
  ghost predicate IsWalk(classify: Classifier, rules: Rules, disk: Disk, files: map<string, string>,
                         mtimes: map<string, int>, languages: map<string, int>) {
    languages == LanguageCounts(classify, files.Keys) && forall p :: WalkAt(classify, rules, disk, files, mtimes, p)
  }

  /** A folder has one walk. */
  lemma WalkUnique(classify: Classifier, rules: Rules, disk: Disk, files: map<string, string>, mtimes: map<string, int>,
                   languages: map<string, int>, files': map<string, string>, mtimes': map<string, int>,
                   languages': map<string, int>)
    requires IsWalk(classify, rules, disk, files, mtimes, languages)
    requires IsWalk(classify, rules, disk, files', mtimes', languages')
    ensures files == files' && mtimes == mtimes' && languages == languages'
  {
    hide LanguageCounts;
    forall p ensures Get(files, p) == Get(files', p) && Get(mtimes, p) == Get(mtimes', p) {
      assert WalkAt(classify, rules, disk, files, mtimes, p) && WalkAt(classify, rules, disk, files', mtimes', p);
    }
    GetAll(files, files');
    GetAll(mtimes, mtimes');
  }

  /** At a given path the fast path does as the walk does: it finds no file that the walk
      refuses, and where it learns nothing, nothing is indexed. */
  predicate AlikeAt(classify: Classifier, rules: Rules, disk: Disk, files: map<string, string>, p: string) {
    (disk(p).File? && classify(p).Some? ==> WalkTakes(classify, rules, disk(p), p))
    && (disk(p).StatError? || (disk(p).Unreadable? && classify(p).Some?) ==> p !in files)
  }

  lemma VisitIsWalk(classify: Classifier, rules: Rules, disk: Disk, files: map<string, string>, mtimes: map<string, int>,
                    files': map<string, string>, mtimes': map<string, int>, p: string)
    requires (p in mtimes <==> p in files) && Visited(files, mtimes, files', mtimes', Look(classify, disk, p), p)
    ensures WalkAt(classify, rules, disk, files', mtimes', p) <==> AlikeAt(classify, rules, disk, files, p)
  {}

  /** The fast path gives the very index of a walk over the folder if and only if the index
      before was the walk's outside the given paths, every given path at which it finds a file
      is one the walk takes, and none that it cannot look at was indexed. */
  lemma PatchIsWalk(classify: Classifier, rules: Rules, disk: Disk, paths: set<string>, files: map<string, string>,
                    mtimes: map<string, int>, files': map<string, string>, mtimes': map<string, int>,
                    languages': map<string, int>, walkFiles: map<string, string>, walkMTimes: map<string, int>,
                    walkLanguages: map<string, int>)
    requires IsWalk(classify, rules, disk, walkFiles, walkMTimes, walkLanguages)
    requires mtimes.Keys == files.Keys && Patched(classify, disk, paths, files, mtimes, files', mtimes')
    requires languages' == LanguageCounts(classify, files'.Keys)
    ensures files' == walkFiles && mtimes' == walkMTimes && languages' == walkLanguages
       <==> (forall p :: p !in paths ==> WalkAt(classify, rules, disk, files, mtimes, p))
            && (forall p :: p in paths ==> AlikeAt(classify, rules, disk, files, p))
  {
    hide LanguageCounts, AlikeAt;
    forall p ensures WalkAt(classify, rules, disk, files', mtimes', p)
                <==> if p in paths then AlikeAt(classify, rules, disk, files, p)
                     else WalkAt(classify, rules, disk, files, mtimes, p)
    {
      if p in paths {
        assert Visited(files, mtimes, files', mtimes', Look(classify, disk, p), p);
        VisitIsWalk(classify, rules, disk, files, mtimes, files', mtimes', p);
      } else {
        assert Get(files', p) == Get(files, p) && Get(mtimes', p) == Get(mtimes, p);
      }
    }
    hide WalkAt;
    if forall p :: WalkAt(classify, rules, disk, files', mtimes', p) {
      WalkUnique(classify, rules, disk, files', mtimes', languages', walkFiles, walkMTimes, walkLanguages);
    }
  }

  /** A folder with one source file of a given size is walked to it exactly up to 500 KiB. */
  lemma OneFileWalk(classify: Classifier, rules: Rules, p: string, size: int)
    requires classify(p).Some? && !rules.skips(p)
    ensures var disk: Disk := q => if q == p then File("00", 1, size, false) else Missing;
      IsWalk(classify, rules, disk, map[p := "00"], map[p := 1], LanguageCounts(classify, {p})) <==> size <= 512000
  {
    hide LanguageCounts;
    var disk: Disk := q => if q == p then File("00", 1, size, false) else Missing;
    var files, mtimes := map[p := "00"], map[p := 1];
    assert files.Keys == {p};
    if size > 512000 { assert !WalkAt(classify, rules, disk, files, mtimes, p); }
  }

  datatype Refusal = BySkipping | BySize | ByContent

  /** Three folders with one source file that the walk refuses: by its path (think of a file
      under `node_modules`), by its size of 600 KiB, or because it looks binary. The walk's index
      is empty; named in the list of changed paths, the file is indexed. */
  lemma RefusedFileIsIndexed(classify: Classifier, p: string, why: Refusal)
    returns (rules: Rules, disk: Disk, files: map<string, string>, mtimes: map<string, int>)
    requires classify(p).Some?
    ensures rules.skips(p) == why.BySkipping?
    ensures disk(p) == File("00", 1, if why.BySize? then 614400 else 10, why.ByContent?)
    ensures IsWalk(classify, rules, disk, map[], map[], map[])
    ensures Patched(classify, disk, {p}, map[], map[], files, mtimes)
    ensures p in files && !IsWalk(classify, rules, disk, files, mtimes, LanguageCounts(classify, files.Keys))
  {
    rules := Rules(q => why.BySkipping? && q == p);
    disk := q => if q == p then File("00", 1, if why.BySize? then 614400 else 10, why.ByContent?) else Missing;
    files, mtimes := map[p := "00"], map[p := 1];
    assert LanguagesOf(classify, {}) == {};
    assert !WalkAt(classify, rules, disk, files, mtimes, p);
  }
}
