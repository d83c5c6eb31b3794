/** Indexing a remote repository again (handlers_indexing.go): comparing blob ids to decide
    which files to fetch, hashing what was fetched, and merging it with the stored index.
    The simple specification is a full rescan of the current tree.

    What the handler cannot compute from its data is a parameter: the filters, the language
    table and the hashes are the functions of a `World`, and the remote is a `RemoteTree`. */
module RemoteIndex {
  import opened Common
  import opened Text
  import opened IndexFiles

  /** `skipped` is the verdict of the directory, ignore-pattern and secret filters. It belongs
      to one run: the ignore patterns are read from the repository and the arguments of each. */
  datatype World = World(skipped: string -> bool, classify: string -> Option<string>, binary: string -> bool,
                         hash: string -> string, pathHash: string -> string, treeHash: map<string, string> -> string)

  datatype RemoteFile = RemoteFile(blobSHA: string, content: string)

  datatype RemoteTree = RemoteTree(files: map<string, RemoteFile>, treeSHA: string)

  /** The fields of a stored index that the handler computes. */
  datatype Index = Index(files: map<string, string>, fileBlobSHAs: map<string, string>, fileMTimes: map<string, int>,
                         languages: map<string, int>, gitHead: string)

  /** What discovery and merging return. */
  datatype Scan = Scan(files: map<string, string>, fileBlobSHAs: map<string, string>, fileMTimes: map<string, int>,
                       languages: map<string, int>)

  const MAX_FILE_SIZE := 512000

  /** `normalizeRemoteBlobSHA` */
  function NormalizeBlob(raw: string): string {
    ToLower(TrimSpace(raw))
  }

  predicate Eligible(w: World, p: string) {
    !w.skipped(p) && w.classify(p).Some?
  }

  /** Content that a scan keeps, at an eligible path. */
  predicate SmallText(w: World, content: string) {
    |content| <= MAX_FILE_SIZE && !w.binary(content)
  }

  /** A file that a scan keeps. */
  predicate Kept(w: World, p: string, content: string) {
    Eligible(w, p) && SmallText(w, content)
  }

  function Lookup(m: map<string, string>, p: string): string {
    if p in m then m[p] else ""
  }

  // ----- the listing of the tree -----

  datatype FileMetadata = FileMetadata(blobSHA: string, sizeBytes: int)

  function MetadataOf(tree: RemoteTree): map<string, FileMetadata> {
    map p | p in tree.files :: FileMetadata(tree.files[p].blobSHA, |tree.files[p].content|)
  }

  function EffectiveBlob(w: World, p: string, raw: string): string {
    if NormalizeBlob(raw) == "" then w.pathHash(p) else NormalizeBlob(raw)
  }

  ghost function MetadataBlobs(w: World, files: map<string, FileMetadata>): map<string, string> {
    map p | p in files && Eligible(w, p) && files[p].sizeBytes <= MAX_FILE_SIZE :: EffectiveBlob(w, p, files[p].blobSHA)
  }

  /** `discoverRemoteSourceMetadata` */
  method DiscoverRemoteSourceMetadata(w: World, files: map<string, FileMetadata>)
    returns (sourceFiles: seq<string>, fileBlobSHAs: map<string, string>)
    ensures fileBlobSHAs == MetadataBlobs(w, files)
    ensures Lists(sourceFiles, fileBlobSHAs.Keys)
  {
    fileBlobSHAs := map[];
    var paths := SortedMembers(files.Keys);
    for i := 0 to |paths|
      invariant forall p :: p in fileBlobSHAs <==>
                (p in paths[..i] && Eligible(w, p) && files[p].sizeBytes <= MAX_FILE_SIZE)
      invariant forall p :: p in fileBlobSHAs ==> fileBlobSHAs[p] == EffectiveBlob(w, p, files[p].blobSHA)
    {
      var relPath := paths[i];
      if w.skipped(relPath) || w.classify(relPath) == None || files[relPath].sizeBytes > MAX_FILE_SIZE {
        continue;
      }
      var blobSHA := NormalizeBlob(files[relPath].blobSHA);
      if blobSHA == "" {
        blobSHA := w.pathHash(relPath);
      }
      fileBlobSHAs := fileBlobSHAs[relPath := blobSHA];
    }
    sourceFiles := SortedMembers(fileBlobSHAs.Keys);
  }

  // ----- hashing the fetched files -----

  ghost function KeptFiles(w: World, tree: map<string, string>): set<string> {
    set p | p in tree && Kept(w, p, tree[p])
  }

  function BlobOrHash(w: World, p: string, content: string, prefetched: map<string, string>): string {
    var blobSHA := NormalizeBlob(Lookup(prefetched, p));
    if blobSHA != "" then blobSHA else w.hash(content)
  }

  ghost function ScanOf(w: World, tree: map<string, string>, prefetched: map<string, string>, kept: set<string>): Scan
    requires kept <= tree.Keys
  {
    Scan(map p | p in kept :: w.hash(tree[p]),
         map p | p in kept :: BlobOrHash(w, p, tree[p], prefetched),
         map p | p in kept :: 0,
         LanguageCounts(w.classify, kept))
  }

  ghost function Discovered(w: World, tree: map<string, string>, prefetched: map<string, string>): Scan {
    ScanOf(w, tree, prefetched, KeptFiles(w, tree))
  }

  lemma ScanAdd(w: World, tree: map<string, string>, prefetched: map<string, string>, kept: set<string>, p: string)
    requires kept <= tree.Keys && p in tree && p !in kept
    ensures var scan := ScanOf(w, tree, prefetched, kept);
      ScanOf(w, tree, prefetched, kept + {p})
      == Scan(scan.files[p := w.hash(tree[p])], scan.fileBlobSHAs[p := BlobOrHash(w, p, tree[p], prefetched)],
              scan.fileMTimes[p := 0], Incremented(w.classify, scan.languages, p))
  {
    hide LanguageCounts, Incremented, BlobOrHash;
    IncrementCounts(w.classify, kept, p);
    var before, after := ScanOf(w, tree, prefetched, kept), ScanOf(w, tree, prefetched, kept + {p});
    MapAdd(before.files, after.files, p, w.hash(tree[p]));
    MapAdd(before.fileBlobSHAs, after.fileBlobSHAs, p, BlobOrHash(w, p, tree[p], prefetched));
    MapAdd(before.fileMTimes, after.fileMTimes, p, 0);
  }

  /** `discoverRemoteSourceFiles`: the loop over the fetched files. */
  method DiscoverRemoteSourceFiles(w: World, tree: map<string, string>, prefetched: map<string, string>)
    returns (scan: Scan)
    ensures scan == Discovered(w, tree, prefetched)
  {
    hide ScanOf, StrictlySorted, Incremented, ToLower, TrimSpace;
    var files, blobs, mtimes, languages := map[], map[], map[], map[];
    var paths := SortedMembers(tree.Keys);
    ghost var kept: set<string> := {};
    EmptyScan(w, tree, prefetched);
    for i := 0 to |paths|
      invariant forall p :: p in kept <==> p in paths[..i] && Kept(w, p, tree[p])
      invariant kept <= tree.Keys && Scan(files, blobs, mtimes, languages) == ScanOf(w, tree, prefetched, kept)
    {
      var relPath := paths[i];
      var content := tree[relPath];
      assert relPath !in kept by { NotSeenBefore(paths, tree.Keys, i); }
      if w.skipped(relPath) || w.classify(relPath) == None || |content| > MAX_FILE_SIZE || w.binary(content) {
        continue;
      }
      var hashText := w.hash(content);
      files := files[relPath := hashText];
      var blobSHA := NormalizeBlob(Lookup(prefetched, relPath));
      blobs := blobs[relPath := if blobSHA != "" then blobSHA else hashText];
      mtimes := mtimes[relPath := 0];
      languages := Incremented(w.classify, languages, relPath);
      ScanAdd(w, tree, prefetched, kept, relPath);
      kept := kept + {relPath};
    }
    assert kept == KeptFiles(w, tree);
    scan := Scan(files, blobs, mtimes, languages);
  }

  lemma EmptyScan(w: World, tree: map<string, string>, prefetched: map<string, string>)
    ensures ScanOf(w, tree, prefetched, {}) == Scan(map[], map[], map[], map[])
  {
    assert LanguagesOf(w.classify, {}) == {};
  }

  lemma NotSeenBefore(s: seq<string>, members: set<string>, i: nat)
    requires Lists(s, members) && i < |s|
    ensures s[i] !in s[..i]
  {
    if s[i] in s[..i] {
      var j :| 0 <= j < i && s[j] == s[i];
      StrLessTotal(s[j], s[i]);
      assert false;
    }
  }

  // ----- what to fetch -----

  ghost function FetchSet(sourceFiles: set<string>, existingHashes: map<string, string>, existingBlobs: map<string, string>,
                          metadataBlobs: map<string, string>): set<string> {
    (set p | p in metadataBlobs && !(p in existingBlobs && existingBlobs[p] == metadataBlobs[p]))
    + (set p | p in sourceFiles && TrimSpace(Lookup(existingHashes, p)) == "")
  }

  /** `buildRemoteIncrementalFetchPaths` */
  method BuildRemoteIncrementalFetchPaths(sourceFiles: seq<string>, existingHashes: map<string, string>,
                                          existingBlobs: map<string, string>, metadataBlobs: map<string, string>)
    returns (fetchPaths: seq<string>)
    ensures Lists(fetchPaths, FetchSet(Members(sourceFiles), existingHashes, existingBlobs, metadataBlobs))
    ensures forall p :: p in fetchPaths <==>
              (p in metadataBlobs && Get(existingBlobs, p) != Some(metadataBlobs[p]))
              || (p in sourceFiles && (p !in existingHashes || TrimSpace(existingHashes[p]) == ""))
  {
    var changed, created, _ := DiffFileHashes(existingBlobs, metadataBlobs);
    var fetchSet := (set p | p in changed) + (set p | p in created);
    ghost var differing := fetchSet;
    for i := 0 to |sourceFiles|
      invariant forall p :: p in fetchSet <==>
                (p in differing || (p in sourceFiles[..i] && TrimSpace(Lookup(existingHashes, p)) == ""))
    {
      var relPath := sourceFiles[i];
      if relPath !in existingHashes || TrimSpace(existingHashes[relPath]) == "" {
        assert TrimSpace("") == "";
        fetchSet := fetchSet + {relPath};
      }
    }
    assert fetchSet == FetchSet(Members(sourceFiles), existingHashes, existingBlobs, metadataBlobs);
    fetchPaths := SortedMembers(fetchSet);
    assert TrimSpace("") == "";
  }

  datatype FetchPlan = FetchPlan(useMetadataPrefetch: bool, useIncrementalBlobDiff: bool, fetchPaths: seq<string>)

  /** `planRemoteTreeFetch` */
  method PlanRemoteTreeFetch(useMetadataPrefetch: bool, existing: Index, sourceFiles: seq<string>,
                             metadataBlobs: map<string, string>) returns (plan: FetchPlan)
    requires Lists(sourceFiles, metadataBlobs.Keys)
    ensures plan.useMetadataPrefetch == useMetadataPrefetch
    ensures plan.useIncrementalBlobDiff <==> useMetadataPrefetch && existing.fileBlobSHAs != map[]
    ensures useMetadataPrefetch ==> Lists(plan.fetchPaths, PlannedFetch(existing, metadataBlobs))
  {
    plan := FetchPlan(useMetadataPrefetch, false, []);
    if !useMetadataPrefetch {
      return;
    }
    if |existing.fileBlobSHAs| > 0 {
      var fetchPaths := BuildRemoteIncrementalFetchPaths(sourceFiles, existing.files, existing.fileBlobSHAs, metadataBlobs);
      assert Members(sourceFiles) == metadataBlobs.Keys;
      return FetchPlan(true, true, fetchPaths);
    }
    plan := plan.(fetchPaths := sourceFiles);
  }

  ghost function PlannedFetch(existing: Index, metadataBlobs: map<string, string>): set<string> {
    if existing.fileBlobSHAs != map[]
    then FetchSet(metadataBlobs.Keys, existing.files, existing.fileBlobSHAs, metadataBlobs)
    else metadataBlobs.Keys
  }

  // ----- merging the fetched files with the stored index -----

  lemma NormalizedStays(raw: string)
    ensures NormalizeBlob(NormalizeBlob(raw)) == NormalizeBlob(raw)
  {
    TrimSpaceTrims(raw);
    LowerOfTrimmed(TrimSpace(raw));
    TrimSpaceTrims(ToLower(TrimSpace(raw)));
  }

  predicate Blank(s: string) {
    TrimSpace(s) == ""
  }

  /** The stored hash of a listed file that was not fetched. */
  function CarriedHash(existing: Index, sourceFiles: set<string>, fetchedPaths: set<string>, p: string): Option<string> {
    if p in sourceFiles && p !in fetchedPaths && p in existing.files && !Blank(existing.files[p])
    then Some(existing.files[p]) else None
  }

  function CarriedMTime(existing: Index, sourceFiles: set<string>, fetchedPaths: set<string>, p: string): Option<int> {
    if p in sourceFiles && p !in fetchedPaths && p in existing.fileMTimes then Some(existing.fileMTimes[p]) else None
  }

  function ListedBlob(sourceFiles: set<string>, metadataBlobs: map<string, string>, p: string): string {
    if p in sourceFiles then NormalizeBlob(Lookup(metadataBlobs, p)) else ""
  }

  ghost predicate CarriedAt(existing: Index, listed: set<string>, metadataBlobs: map<string, string>, fetchedPaths: set<string>,
                            hashes: map<string, string>, blobs: map<string, string>, mtimes: map<string, int>, p: string) {
    Get(hashes, p) == CarriedHash(existing, listed, fetchedPaths, p)
    && Get(mtimes, p) == CarriedMTime(existing, listed, fetchedPaths, p)
    && Get(blobs, p) == NonEmpty(ListedBlob(listed, metadataBlobs, p))
  }

  /** The first loop of `mergeRemoteIncrementalIndexState`, for one path. */
  method CarryPath(existing: Index, metadataBlobs: map<string, string>, fetchedSet: set<string>, relPath: string,
                   hashes0: map<string, string>, blobs0: map<string, string>, mtimes0: map<string, int>,
                   ghost listed: set<string>)
    returns (hashes: map<string, string>, blobs: map<string, string>, mtimes: map<string, int>)
    requires forall p :: CarriedAt(existing, listed, metadataBlobs, fetchedSet, hashes0, blobs0, mtimes0, p)
    ensures forall p :: CarriedAt(existing, listed + {relPath}, metadataBlobs, fetchedSet, hashes, blobs, mtimes, p)
  {
    hide NormalizeBlob, Blank;
    hashes, blobs, mtimes := hashes0, blobs0, mtimes0;
    assert CarriedAt(existing, listed, metadataBlobs, fetchedSet, hashes0, blobs0, mtimes0, relPath);
    var blobSHA := NormalizeBlob(Lookup(metadataBlobs, relPath));
    if blobSHA != "" {
      blobs := blobs[relPath := blobSHA];
    }
    if relPath !in fetchedSet {
      if relPath in existing.files && !Blank(existing.files[relPath]) {
        hashes := hashes[relPath := existing.files[relPath]];
      }
      if relPath in existing.fileMTimes {
        mtimes := mtimes[relPath := existing.fileMTimes[relPath]];
      }
    }
    forall p ensures CarriedAt(existing, listed + {relPath}, metadataBlobs, fetchedSet, hashes, blobs, mtimes, p) {
      assert CarriedAt(existing, listed, metadataBlobs, fetchedSet, hashes0, blobs0, mtimes0, p);
    }
  }

  method CarryOver(existing: Index, sourceFiles: seq<string>, metadataBlobs: map<string, string>, fetchedSet: set<string>)
    returns (hashes: map<string, string>, blobs: map<string, string>, mtimes: map<string, int>)
    ensures forall p :: CarriedAt(existing, Members(sourceFiles), metadataBlobs, fetchedSet, hashes, blobs, mtimes, p)
    ensures forall p :: p in hashes <==>
              p in sourceFiles && p !in fetchedSet && p in existing.files && TrimSpace(existing.files[p]) != ""
    ensures forall p :: p in mtimes <==> p in sourceFiles && p !in fetchedSet && p in existing.fileMTimes
    ensures forall p :: p in blobs <==> p in sourceFiles && p in metadataBlobs && ToLower(TrimSpace(metadataBlobs[p])) != ""
  {
    hashes, blobs, mtimes := map[], map[], map[];
    ghost var listed: set<string> := {};
    for i := 0 to |sourceFiles|
      invariant listed == Members(sourceFiles[..i])
      invariant forall p :: CarriedAt(existing, listed, metadataBlobs, fetchedSet, hashes, blobs, mtimes, p)
    {
      hide CarriedAt;
      hashes, blobs, mtimes :=
        CarryPath(existing, metadataBlobs, fetchedSet, sourceFiles[i], hashes, blobs, mtimes, listed);
      listed := listed + {sourceFiles[i]};
    }
    assert sourceFiles[..|sourceFiles|] == sourceFiles;
    CarriedExact(existing, sourceFiles, metadataBlobs, fetchedSet, hashes, blobs, mtimes);
    hide CarriedAt;
  }

  lemma CarriedExact(existing: Index, sourceFiles: seq<string>, metadataBlobs: map<string, string>, fetchedSet: set<string>,
                     hashes: map<string, string>, blobs: map<string, string>, mtimes: map<string, int>)
    requires forall p :: CarriedAt(existing, Members(sourceFiles), metadataBlobs, fetchedSet, hashes, blobs, mtimes, p)
    ensures forall p :: p in hashes <==>
              p in sourceFiles && p !in fetchedSet && p in existing.files && TrimSpace(existing.files[p]) != ""
    ensures forall p :: p in mtimes <==> p in sourceFiles && p !in fetchedSet && p in existing.fileMTimes
    ensures forall p :: p in blobs <==> p in sourceFiles && p in metadataBlobs && ToLower(TrimSpace(metadataBlobs[p])) != ""
  {
    NormalizeEmpty();
    forall p
      ensures p in hashes <==> p in sourceFiles && p !in fetchedSet && p in existing.files && TrimSpace(existing.files[p]) != ""
      ensures p in mtimes <==> p in sourceFiles && p !in fetchedSet && p in existing.fileMTimes
      ensures p in blobs <==> p in sourceFiles && p in metadataBlobs && ToLower(TrimSpace(metadataBlobs[p])) != ""
    {
      assert CarriedAt(existing, Members(sourceFiles), metadataBlobs, fetchedSet, hashes, blobs, mtimes, p);
      hide ToLower, TrimSpace;
    }
  }

  function NonEmpty(s: string): Option<string> {
    if s == "" then None else Some(s)
  }

  lemma NormalizeEmpty()
    ensures NormalizeBlob("") == ""
  {}

  function OverHash(carried: map<string, string>, fetched: map<string, string>, p: string): Option<string> {
    if p in fetched && !Blank(fetched[p]) then Some(fetched[p]) else Get(carried, p)
  }

  function OverBlob(carried: map<string, string>, fetched: map<string, string>, p: string): Option<string> {
    if NormalizeBlob(Lookup(fetched, p)) != "" then Some(NormalizeBlob(Lookup(fetched, p))) else Get(carried, p)
  }

  function FilledBlob(hashes: map<string, string>, blobs: map<string, string>, p: string): Option<string> {
    if p in hashes && NormalizeBlob(Lookup(blobs, p)) == "" then Some(hashes[p]) else Get(blobs, p)
  }

  /** The three loops that lay what was fetched over what was carried over. */
  method OverlayHashes(carried: map<string, string>, fetched: map<string, string>) returns (merged: map<string, string>)
    ensures forall p :: Get(merged, p) == OverHash(carried, fetched, p)
  {
    hide Blank;
    merged := carried;
    var todo := fetched.Keys;
    while todo != {}
      invariant todo <= fetched.Keys
      invariant forall p :: p in todo ==> Get(merged, p) == Get(carried, p)
      invariant forall p :: p !in todo ==> Get(merged, p) == OverHash(carried, fetched, p)
      decreases |todo|
    {
      var relPath :| relPath in todo;
      todo := todo - {relPath};
      if Blank(fetched[relPath]) {
        continue;
      }
      merged := merged[relPath := fetched[relPath]];
    }
  }

  method OverlayBlobs(carried: map<string, string>, fetched: map<string, string>) returns (merged: map<string, string>)
    ensures forall p :: Get(merged, p) == OverBlob(carried, fetched, p)
  {
    hide NormalizeBlob;
    NormalizeEmpty();
    merged := carried;
    var todo := fetched.Keys;
    while todo != {}
      invariant todo <= fetched.Keys
      invariant forall p :: p in todo ==> Get(merged, p) == Get(carried, p)
      invariant forall p :: p !in todo ==> Get(merged, p) == OverBlob(carried, fetched, p)
      decreases |todo|
    {
      var relPath :| relPath in todo;
      todo := todo - {relPath};
      var normalized := NormalizeBlob(fetched[relPath]);
      if normalized != "" {
        merged := merged[relPath := normalized];
      }
    }
  }

  method OverlayMTimes(carried: map<string, int>, fetched: map<string, int>) returns (merged: map<string, int>)
    ensures forall p :: Get(merged, p) == if p in fetched then Some(fetched[p]) else Get(carried, p)
  {
    merged := carried;
    var todo := fetched.Keys;
    while todo != {}
      invariant todo <= fetched.Keys
      invariant forall p :: Get(merged, p) == if p in fetched && p !in todo then Some(fetched[p]) else Get(carried, p)
      decreases |todo|
    {
      var relPath :| relPath in todo;
      todo := todo - {relPath};
      merged := merged[relPath := fetched[relPath]];
    }
  }

  /** A blob id without a hash is dropped, and the time with it. */
  method DropUnhashed(hashes: map<string, string>, blobs0: map<string, string>, mtimes0: map<string, int>)
    returns (blobs: map<string, string>, mtimes: map<string, int>)
    ensures forall p :: Get(blobs, p) == if p in hashes then Get(blobs0, p) else None
    ensures forall p :: Get(mtimes, p) == if p in blobs0 && p !in hashes then None else Get(mtimes0, p)
  {
    blobs, mtimes := blobs0, mtimes0;
    var todo := blobs0.Keys;
    while todo != {}
      invariant todo <= blobs0.Keys
      invariant forall p :: Get(blobs, p) == if p in blobs0 && p !in todo && p !in hashes then None else Get(blobs0, p)
      invariant forall p :: Get(mtimes, p) == if p in blobs0 && p !in todo && p !in hashes then None else Get(mtimes0, p)
      decreases |todo|
    {
      var relPath :| relPath in todo;
      todo := todo - {relPath};
      if relPath !in hashes {
        blobs := blobs - {relPath};
        mtimes := mtimes - {relPath};
      }
    }
  }

  /** A hashed file without a blob id takes its hash for one, and time zero without a time. */
  method FillDefaults(hashes: map<string, string>, blobs0: map<string, string>, mtimes0: map<string, int>)
    returns (blobs: map<string, string>, mtimes: map<string, int>)
    ensures forall p :: Get(blobs, p) == FilledBlob(hashes, blobs0, p)
    ensures forall p :: Get(mtimes, p) == if p in hashes && p !in mtimes0 then Some(0) else Get(mtimes0, p)
  {
    hide NormalizeBlob;
    blobs, mtimes := blobs0, mtimes0;
    var todo := hashes.Keys;
    while todo != {}
      invariant todo <= hashes.Keys
      invariant forall p :: p in todo ==> Get(blobs, p) == Get(blobs0, p)
      invariant forall p :: p !in todo ==> Get(blobs, p) == FilledBlob(hashes, blobs0, p)
      invariant forall p :: Get(mtimes, p) == if p in hashes && p !in todo && p !in mtimes0 then Some(0) else Get(mtimes0, p)
      decreases |todo|
    {
      var relPath :| relPath in todo;
      todo := todo - {relPath};
      assert Get(blobs, relPath) == Get(blobs0, relPath) && Get(mtimes, relPath) == Get(mtimes0, relPath);
      if NormalizeBlob(Lookup(blobs, relPath)) == "" {
        blobs := blobs[relPath := hashes[relPath]];
      }
      if relPath !in mtimes {
        mtimes := mtimes[relPath := 0];
      }
    }
  }

  // ----- the merged state -----

  function MergedHash(existing: Index, listed: set<string>, fetched: Scan, fetchedPaths: set<string>, p: string): Option<string> {
    if p in fetched.files && !Blank(fetched.files[p]) then Some(fetched.files[p])
    else CarriedHash(existing, listed, fetchedPaths, p)
  }

  function MergedBlob(listed: set<string>, metadataBlobs: map<string, string>, fetched: Scan, p: string): string {
    var own := NormalizeBlob(Lookup(fetched.fileBlobSHAs, p));
    if own != "" then own else ListedBlob(listed, metadataBlobs, p)
  }

  function MergedMTime(existing: Index, listed: set<string>, fetched: Scan, fetchedPaths: set<string>, p: string): Option<int> {
    if p in fetched.fileMTimes then Some(fetched.fileMTimes[p]) else CarriedMTime(existing, listed, fetchedPaths, p)
  }

  /** What the merge leaves for one path: it keeps the paths that have a hash, each with a
      blob id and a time. */
  ghost predicate MergedAt(scan: Scan, existing: Index, listed: set<string>, metadataBlobs: map<string, string>,
                           fetched: Scan, fetchedPaths: set<string>, p: string) {
    var hash, blob := MergedHash(existing, listed, fetched, fetchedPaths, p), MergedBlob(listed, metadataBlobs, fetched, p);
    var mtime := MergedMTime(existing, listed, fetched, fetchedPaths, p);
    Get(scan.files, p) == hash
    && Get(scan.fileBlobSHAs, p) == (if hash == None then None else if blob != "" then Some(blob) else hash)
    && Get(scan.fileMTimes, p) == (if hash == None then (if blob != "" then None else mtime)
                                   else if mtime == None then Some(0) else mtime)
  }

  ghost predicate IsMerged(scan: Scan, w: World, existing: Index, listed: set<string>, metadataBlobs: map<string, string>,
                           fetched: Scan, fetchedPaths: set<string>) {
    scan.languages == LanguageCounts(w.classify, scan.files.Keys)
    && forall p :: MergedAt(scan, existing, listed, metadataBlobs, fetched, fetchedPaths, p)
  }

  /** `mergeRemoteIncrementalIndexState` */
  method MergeRemoteIncrementalIndexState(w: World, existing: Index, sourceFiles: seq<string>,
                                          metadataBlobs: map<string, string>, fetched: Scan, fetchPaths: seq<string>)
    returns (merged: seq<string>, scan: Scan)
    ensures IsMerged(scan, w, existing, Members(sourceFiles), metadataBlobs, fetched, Members(fetchPaths))
    ensures Lists(merged, scan.files.Keys)
  {
    hide NormalizeBlob, Blank, Lists, LanguageCounts;
    var fetchedSet := Members(fetchPaths);
    ghost var listed := Members(sourceFiles);
    var hashes0, blobs0, mtimes0 := CarryOver(existing, sourceFiles, metadataBlobs, fetchedSet);
    var hashes := OverlayHashes(hashes0, fetched.files);
    var blobs1 := OverlayBlobs(blobs0, fetched.fileBlobSHAs);
    var mtimes1 := OverlayMTimes(mtimes0, fetched.fileMTimes);
    var blobs2, mtimes2 := DropUnhashed(hashes, blobs1, mtimes1);
    var blobs, mtimes := FillDefaults(hashes, blobs2, mtimes2);
    var languages := LanguageCountsFromIndexedFiles(w.classify, hashes);
    merged := SortedMembers(hashes.Keys);
    scan := Scan(hashes, blobs, mtimes, languages);
    forall p ensures MergedAt(scan, existing, listed, metadataBlobs, fetched, fetchedSet, p) {
      assert CarriedAt(existing, listed, metadataBlobs, fetchedSet, hashes0, blobs0, mtimes0, p);
      LayersMerge(existing, listed, metadataBlobs, fetched, fetchedSet, hashes0, blobs0, mtimes0, scan, blobs1, mtimes1,
                  blobs2, mtimes2, p);
    }
  }

  /** The layers, path by path. */
  lemma LayersMerge(existing: Index, listed: set<string>, metadataBlobs: map<string, string>, fetched: Scan,
                    fetchedPaths: set<string>, hashes0: map<string, string>, blobs0: map<string, string>,
                    mtimes0: map<string, int>, scan: Scan, blobs1: map<string, string>, mtimes1: map<string, int>,
                    blobs2: map<string, string>, mtimes2: map<string, int>, p: string)
    requires CarriedAt(existing, listed, metadataBlobs, fetchedPaths, hashes0, blobs0, mtimes0, p)
    requires Get(scan.files, p) == OverHash(hashes0, fetched.files, p)
    requires Get(blobs1, p) == OverBlob(blobs0, fetched.fileBlobSHAs, p)
    requires Get(mtimes1, p) == if p in fetched.fileMTimes then Some(fetched.fileMTimes[p]) else Get(mtimes0, p)
    requires Get(blobs2, p) == if p in scan.files then Get(blobs1, p) else None
    requires Get(mtimes2, p) == if p in blobs1 && p !in scan.files then None else Get(mtimes1, p)
    requires Get(scan.fileBlobSHAs, p) == FilledBlob(scan.files, blobs2, p)
    requires Get(scan.fileMTimes, p) == if p in scan.files && p !in mtimes2 then Some(0) else Get(mtimes2, p)
    ensures MergedAt(scan, existing, listed, metadataBlobs, fetched, fetchedPaths, p)
  {
    hide NormalizeBlob, Blank, CarriedHash, CarriedMTime;
    MergedBlobNormal(listed, metadataBlobs, fetched, p);
    NormalizeEmpty();
  }

  lemma MergedBlobNormal(listed: set<string>, metadataBlobs: map<string, string>, fetched: Scan, p: string)
    ensures var b := MergedBlob(listed, metadataBlobs, fetched, p); NormalizeBlob(b) == b
  {
    NormalizedStays(Lookup(fetched.fileBlobSHAs, p));
    NormalizedStays(Lookup(metadataBlobs, p));
  }

  ghost function Merged(w: World, existing: Index, listed: set<string>, metadataBlobs: map<string, string>,
                        fetched: Scan, fetchedPaths: set<string>): Scan {
    var files := map p | p in fetched.files.Keys + existing.files.Keys
                       && MergedHash(existing, listed, fetched, fetchedPaths, p).Some?
                     :: MergedHash(existing, listed, fetched, fetchedPaths, p).value;
    Scan(files,
         map p | p in files :: var b := MergedBlob(listed, metadataBlobs, fetched, p); if b != "" then b else files[p],
         map p | p in fetched.fileMTimes.Keys + existing.fileMTimes.Keys + files.Keys
               && (p in files || (MergedBlob(listed, metadataBlobs, fetched, p) == ""
                                  && MergedMTime(existing, listed, fetched, fetchedPaths, p).Some?))
             :: var t := MergedMTime(existing, listed, fetched, fetchedPaths, p); if t.Some? then t.value else 0,
         LanguageCounts(w.classify, files.Keys))
  }

  lemma MergedUnique(scan: Scan, w: World, existing: Index, listed: set<string>, metadataBlobs: map<string, string>,
                     fetched: Scan, fetchedPaths: set<string>)
    requires IsMerged(scan, w, existing, listed, metadataBlobs, fetched, fetchedPaths)
    ensures scan == Merged(w, existing, listed, metadataBlobs, fetched, fetchedPaths)
  {
    var spec := Merged(w, existing, listed, metadataBlobs, fetched, fetchedPaths);
    forall p ensures Get(scan.files, p) == Get(spec.files, p) && Get(scan.fileBlobSHAs, p) == Get(spec.fileBlobSHAs, p)
                     && Get(scan.fileMTimes, p) == Get(spec.fileMTimes, p)
    {
      MergedAtUnique(scan, w, existing, listed, metadataBlobs, fetched, fetchedPaths, p);
    }
    GetAll(scan.files, spec.files);
    GetAll(scan.fileBlobSHAs, spec.fileBlobSHAs);
    GetAll(scan.fileMTimes, spec.fileMTimes);
  }

  lemma MergedAtUnique(scan: Scan, w: World, existing: Index, listed: set<string>, metadataBlobs: map<string, string>,
                       fetched: Scan, fetchedPaths: set<string>, p: string)
    requires MergedAt(scan, existing, listed, metadataBlobs, fetched, fetchedPaths, p)
    ensures var spec := Merged(w, existing, listed, metadataBlobs, fetched, fetchedPaths);
      Get(scan.files, p) == Get(spec.files, p) && Get(scan.fileBlobSHAs, p) == Get(spec.fileBlobSHAs, p)
      && Get(scan.fileMTimes, p) == Get(spec.fileMTimes, p)
  {
    hide NormalizeBlob, Blank, LanguageCounts, MergedBlob;
  }

  // ----- one run of the handler -----

  datatype Faults = Faults(load: bool, metadata: bool, acquire: bool, save: bool)

  datatype Outcome = Created | Updated | Unchanged | NoSourceFiles | Failed

  /** What the acquirer answers: the whole tree, or the requested files of it. */
  function Contents(tree: RemoteTree): map<string, string> {
    map p | p in tree.files :: tree.files[p].content
  }

  function Subset(contents: map<string, string>, paths: set<string>): map<string, string> {
    map p | p in contents && p in paths :: contents[p]
  }

  function CurrentTree(w: World, treeSHA: string, metadataBlobs: map<string, string>): string {
    if NormalizeBlob(treeSHA) == "" then RemoteTreeSHA(w, metadataBlobs) else NormalizeBlob(treeSHA)
  }

  /** `remoteTreeSHA` */
  function RemoteTreeSHA(w: World, blobs: map<string, string>): string {
    if |blobs| == 0 then "" else w.treeHash(blobs)
  }

  ghost function Blobs(w: World, tree: RemoteTree): map<string, string> {
    MetadataBlobs(w, MetadataOf(tree))
  }

  /** What an incremental run fetches and discovers. */
  ghost function FetchedScan(w: World, existing: Index, tree: RemoteTree): Scan {
    var blobs := Blobs(w, tree);
    Discovered(w, Subset(Contents(tree), PlannedFetch(existing, blobs)), blobs)
  }

  /** The files, hashes and counts an incremental run arrives at. */
  ghost function IncrementalScan(w: World, existing: Index, tree: RemoteTree): Scan {
    var blobs := Blobs(w, tree);
    var fetched := FetchedScan(w, existing, tree);
    if existing.fileBlobSHAs != map[] then Merged(w, existing, blobs.Keys, blobs, fetched, PlannedFetch(existing, blobs))
    else fetched
  }

  function IndexOf(scan: Scan, gitHead: string): Index {
    Index(scan.files, scan.fileBlobSHAs, scan.fileMTimes, scan.languages, gitHead)
  }

  predicate SameListing(existing: Index, scan: Scan) {
    if existing.fileBlobSHAs != map[] then existing.fileBlobSHAs == scan.fileBlobSHAs else existing.files == scan.files
  }

  /** The run of `handleIndexRepo` on an index that is loaded. */
  ghost function Refresh(w: World, existing: Index, tree: RemoteTree, faults: Faults): (Index, Outcome) {
    var blobs := Blobs(w, tree);
    var current := CurrentTree(w, tree.treeSHA, blobs);
    var scan := IncrementalScan(w, existing, tree);
    if faults.metadata then (existing, Failed)
    else if blobs == map[] then (existing, NoSourceFiles)
    else if current != "" && TrimSpace(existing.gitHead) == current then (existing, Unchanged)
    else if existing.fileBlobSHAs != map[] && existing.fileBlobSHAs == blobs then (existing, Unchanged)
    else if PlannedFetch(existing, blobs) != {} && faults.acquire then (existing, Failed)
    else if scan.files == map[] then (existing, NoSourceFiles)
    else if SameListing(existing, scan) then (existing, Unchanged)
    else if faults.save then (existing, Failed)
    else (IndexOf(scan, if current == "" then RemoteTreeSHA(w, scan.fileBlobSHAs) else current), Updated)
  }

  /** The run without a loaded index: fetch and hash the whole tree. */
  ghost function Create(w: World, stored: Option<Index>, tree: RemoteTree, faults: Faults): (Option<Index>, Outcome) {
    var scan := Discovered(w, Contents(tree), map[]);
    if faults.acquire then (stored, Failed)
    else if scan.files == map[] then (stored, NoSourceFiles)
    else if faults.save then (stored, Failed)
    else (Some(IndexOf(scan, RemoteTreeSHA(w, scan.fileBlobSHAs))), Created)
  }

  ghost function Step(w: World, stored: Option<Index>, tree: RemoteTree, incremental: bool, faults: Faults)
    : (Option<Index>, Outcome)
  {
    if incremental && faults.load then (stored, Failed)
    else if incremental && stored.Some? then
      var r := Refresh(w, stored.value, tree, faults); (Some(r.0), r.1)
    else Create(w, stored, tree, faults)
  }

  /** The handler with its index store. The lists it returns name the files whose blob ids
      (for an index without blob ids: whose hashes) differ. */
  class RemoteIndexer {
    var stored: Option<Index>

    method IndexRepo(w: World, tree: RemoteTree, incremental: bool, faults: Faults)
      returns (outcome: Outcome, changed: seq<string>, created: seq<string>, deleted: seq<string>)
      modifies this
      ensures (stored, outcome) == Step(w, old(stored), tree, incremental, faults)
      ensures outcome.Created? ==> stored.Some? && forall p ::
                p in stored.value.files <==> p in tree.files && !w.skipped(p) && w.classify(p).Some?
                                             && |tree.files[p].content| <= 512000 && !w.binary(tree.files[p].content)
      ensures outcome.Updated? ==>
                var was, now := old(stored).value, stored.value;
                var before := if was.fileBlobSHAs != map[] then was.fileBlobSHAs else was.files;
                var after := if was.fileBlobSHAs != map[] then now.fileBlobSHAs else now.files;
                Lists(changed, ChangedKeys(before, after)) && Lists(created, after.Keys - before.Keys)
                && Lists(deleted, before.Keys - after.Keys)
    {
      hide Discovered, Merged, Lists, MetadataBlobs, MetadataOf, Contents, FetchSet, NormalizeBlob, TrimSpace;
      changed, created, deleted := [], [], [];
      if incremental && faults.load {
        return Failed, [], [], [];
      }
      if incremental && stored.Some? {
        outcome, changed, created, deleted := Update(w, stored.value, tree, faults);
        return;
      }
      if faults.acquire {
        return Failed, [], [], [];
      }
      var scan := DiscoverRemoteSourceFiles(w, Contents(tree), map[]);
      if scan.files == map[] {
        return NoSourceFiles, [], [], [];
      }
      if faults.save {
        return Failed, [], [], [];
      }
      stored := Some(IndexOf(scan, RemoteTreeSHA(w, scan.fileBlobSHAs)));
      outcome := Created;
      forall p { ScanExact(w, tree, map[], p); }
    }

    method Update(w: World, existing: Index, tree: RemoteTree, faults: Faults)
      returns (outcome: Outcome, changed: seq<string>, created: seq<string>, deleted: seq<string>)
      requires stored == Some(existing)
      modifies this
      ensures var r := Refresh(w, existing, tree, faults); stored == Some(r.0) && outcome == r.1
      ensures outcome.Updated? ==>
                var now := stored.value;
                var before := if existing.fileBlobSHAs != map[] then existing.fileBlobSHAs else existing.files;
                var after := if existing.fileBlobSHAs != map[] then now.fileBlobSHAs else now.files;
                Lists(changed, ChangedKeys(before, after)) && Lists(created, after.Keys - before.Keys)
                && Lists(deleted, before.Keys - after.Keys)
    {
      hide Discovered, Merged, Lists, MetadataBlobs, MetadataOf, Contents, FetchSet, NormalizeBlob, TrimSpace, ChangedKeys;
      changed, created, deleted := [], [], [];
      if faults.metadata {
        return Failed, [], [], [];
      }
      var sourceFiles, blobs := DiscoverRemoteSourceMetadata(w, MetadataOf(tree));
      EmptyListing(sourceFiles, blobs.Keys);
      var current := CurrentTree(w, tree.treeSHA, blobs);
      if |sourceFiles| == 0 {
        return NoSourceFiles, [], [], [];
      }
      if current != "" && TrimSpace(existing.gitHead) == current {
        return Unchanged, [], [], [];
      }
      if |existing.fileBlobSHAs| > 0 {
        changed, created, deleted := DiffFileHashes(existing.fileBlobSHAs, blobs);
        if changed == [] && created == [] && deleted == [] {
          DiffEmpty(existing.fileBlobSHAs, blobs, changed, created, deleted);
          return Unchanged, [], [], [];
        }
        DiffEmpty(existing.fileBlobSHAs, blobs, changed, created, deleted);
      }
      var scan, acquired := FetchAndMerge(w, existing, tree, sourceFiles, blobs, faults);
      if !acquired {
        return Failed, [], [], [];
      }
      if scan.files == map[] {
        return NoSourceFiles, [], [], [];
      }
      if current == "" {
        current := RemoteTreeSHA(w, scan.fileBlobSHAs);
      }
      if |existing.fileBlobSHAs| > 0 {
        changed, created, deleted := DiffFileHashes(existing.fileBlobSHAs, scan.fileBlobSHAs);
        DiffEmpty(existing.fileBlobSHAs, scan.fileBlobSHAs, changed, created, deleted);
      } else {
        changed, created, deleted := DiffFileHashes(existing.files, scan.files);
        DiffEmpty(existing.files, scan.files, changed, created, deleted);
      }
      if changed == [] && created == [] && deleted == [] {
        return Unchanged, [], [], [];
      }
      if faults.save {
        return Failed, [], [], [];
      }
      stored := Some(IndexOf(scan, current));
      outcome := Updated;
    }
  }

  lemma DiffEmpty(existing: map<string, string>, current: map<string, string>, changed: seq<string>, created: seq<string>,
                  deleted: seq<string>)
    requires Lists(changed, ChangedKeys(existing, current)) && Lists(created, current.Keys - existing.Keys)
    requires Lists(deleted, existing.Keys - current.Keys)
    ensures changed == [] && created == [] && deleted == [] <==> existing == current
  {
    EmptyListing(changed, ChangedKeys(existing, current));
    EmptyListing(created, current.Keys - existing.Keys);
    EmptyListing(deleted, existing.Keys - current.Keys);
    NoDifference(existing, current);
  }

  /** `acquireRemoteTreeForIndex`, discovery and merge; no call is made for an empty plan. */
  method FetchAndMerge(w: World, existing: Index, tree: RemoteTree, sourceFiles: seq<string>, blobs: map<string, string>,
                       faults: Faults) returns (scan: Scan, acquired: bool)
    requires blobs == Blobs(w, tree) && Lists(sourceFiles, blobs.Keys)
    ensures acquired <==> !(PlannedFetch(existing, blobs) != {} && faults.acquire)
    ensures acquired ==> scan == IncrementalScan(w, existing, tree)
  {
    hide Discovered, Lists, MetadataBlobs, FetchSet, Merged;
    scan, acquired := Scan(map[], map[], map[], map[]), true;
    var plan := PlanRemoteTreeFetch(true, existing, sourceFiles, blobs);
    ghost var paths := PlannedFetch(existing, blobs);
    ListedMembers(plan.fetchPaths, paths);
    ListedMembers(sourceFiles, blobs.Keys);
    EmptyListing(plan.fetchPaths, paths);
    if plan.fetchPaths != [] && faults.acquire {
      acquired := false;
      return;
    }
    var fetched := DiscoverRemoteSourceFiles(w, Subset(Contents(tree), Members(plan.fetchPaths)), blobs);
    if !plan.useIncrementalBlobDiff {
      scan := fetched;
      return;
    }
    var _, merged := MergeRemoteIncrementalIndexState(w, existing, sourceFiles, blobs, fetched, plan.fetchPaths);
    MergedUnique(merged, w, existing, blobs.Keys, blobs, fetched, paths);
    scan := merged;
  }

  // ----- the stored index always agrees with some tree -----

  /** What content a blob id (or a content hash) stands for, and what listing a tree id. */
  datatype Names = Names(content: string -> string, tree: string -> map<string, string>)

  /** Ids are in normal form: not blank, trimmed and lower case. */
  predicate Normal(id: string) {
    id != "" && NormalizeBlob(id) == id && TrimSpace(id) == id
  }

  /** Hashes do not collide, and come in normal form. */
  ghost predicate Injective(w: World, names: Names) {
    (forall c :: Normal(w.hash(c)) && names.content(w.hash(c)) == c)
    && (forall p :: Normal(w.pathHash(p)))
    && (forall b :: b != map[] ==> Normal(w.treeHash(b)) && names.tree(w.treeHash(b)) == b)
  }

  /** The blob ids of all files of the tree, whether a filter lists them or not. */
  ghost function AllBlobs(w: World, tree: RemoteTree): map<string, string> {
    map p | p in tree.files :: EffectiveBlob(w, p, tree.files[p].blobSHA)
  }

  /** The part of the files with these blob ids that the filters of a run list. */
  ghost function Listed(w: World, names: Names, all: map<string, string>): map<string, string> {
    map p | p in all && Eligible(w, p) && |names.content(all[p])| <= MAX_FILE_SIZE :: all[p]
  }

  /** Equal ids mean equal content: every file's blob id names its content, and the id of
      the tree, if it comes with one, names the blob ids of all its files. */
  ghost predicate Honest(w: World, names: Names, tree: RemoteTree) {
    (forall p :: p in tree.files ==> names.content(AllBlobs(w, tree)[p]) == tree.files[p].content)
    && (NormalizeBlob(tree.treeSHA) != "" ==> names.tree(NormalizeBlob(tree.treeSHA)) == AllBlobs(w, tree))
  }

  /** The simple specification: hash every file of the current tree. */
  ghost function Rescan(w: World, tree: RemoteTree): Scan {
    Discovered(w, Contents(tree), Blobs(w, tree))
  }

  /** Every stored hash is the hash of the content its stored blob id names, content that a scan
      keeps; all maps share their keys. An index from before blob ids has none at all. */
  ghost predicate Consistent(w: World, names: Names, idx: Index) {
    idx.files != map[]
    && idx.fileMTimes == (map p | p in idx.files :: 0)
    && idx.languages == LanguageCounts(w.classify, idx.files.Keys)
    && (idx.fileBlobSHAs == map[] || (idx.fileBlobSHAs.Keys == idx.files.Keys
        && forall p :: p in idx.files ==> HashOfBlob(w, names, idx, p)))
  }

  ghost predicate HashOfBlob(w: World, names: Names, idx: Index, p: string)
    requires p in idx.files && p in idx.fileBlobSHAs
  {
    var content := names.content(idx.fileBlobSHAs[p]);
    idx.files[p] == w.hash(content) && SmallText(w, content)
  }

  /** The files and hashes that a scan of these blob ids keeps. */
  ghost function NamedFiles(w: World, names: Names, blobs: map<string, string>): map<string, string> {
    map p | p in blobs && SmallText(w, names.content(blobs[p])) :: w.hash(names.content(blobs[p]))
  }

  ghost function NamedBlobs(w: World, names: Names, blobs: map<string, string>): map<string, string> {
    map p | p in blobs && SmallText(w, names.content(blobs[p])) :: blobs[p]
  }

  /** The tree that the stored tree id names is the tree that was indexed, under the filters
      of the run that stored it. */
  ghost predicate HeadAgrees(w: World, names: Names, idx: Index) {
    var blobs := Listed(w, names, names.tree(TrimSpace(idx.gitHead)));
    TrimSpace(idx.gitHead) != "" ==>
      idx.files == NamedFiles(w, names, blobs)
      && (idx.fileBlobSHAs == map[] || idx.fileBlobSHAs == NamedBlobs(w, names, blobs))
  }

  /** `w` has the filters of the run that stored the index. */
  ghost predicate Sound(w: World, names: Names, idx: Index) {
    Consistent(w, names, idx) && HeadAgrees(w, names, idx)
  }

  /** The index holds what a rescan finds; one from before blob ids may still have none. */
  ghost predicate Reflects(idx: Index, scan: Scan) {
    idx.files == scan.files && idx.fileMTimes == scan.fileMTimes && idx.languages == scan.languages
    && (idx.fileBlobSHAs == scan.fileBlobSHAs || idx.fileBlobSHAs == map[])
  }

  lemma BlobsNormal(w: World, names: Names, tree: RemoteTree)
    requires Injective(w, names)
    ensures forall p :: p in Blobs(w, tree) ==> Normal(Blobs(w, tree)[p])
  {
    hide NormalizeBlob, TrimSpace;
    forall p | p in Blobs(w, tree) ensures Normal(Blobs(w, tree)[p]) {
      var raw := tree.files[p].blobSHA;
      NormalForm(raw);
    }
  }

  lemma NormalForm(raw: string)
    ensures NormalizeBlob(raw) == "" || Normal(NormalizeBlob(raw))
  {
    NormalizedStays(raw);
    TrimSpaceTrims(raw);
    LowerOfTrimmed(TrimSpace(raw));
    TrimSpaceTrims(ToLower(TrimSpace(raw)));
  }

  lemma DiscoveredAt(w: World, contents: map<string, string>, prefetched: map<string, string>, p: string)
    ensures var scan := Discovered(w, contents, prefetched);
      if p in contents && Kept(w, p, contents[p])
      then Get(scan.files, p) == Some(w.hash(contents[p])) && Get(scan.fileMTimes, p) == Some(0)
           && Get(scan.fileBlobSHAs, p) == Some(BlobOrHash(w, p, contents[p], prefetched))
      else Get(scan.files, p) == None && Get(scan.fileMTimes, p) == None && Get(scan.fileBlobSHAs, p) == None
  {
    hide BlobOrHash, LanguageCounts;
  }

  /** The listing holds every file a scan keeps, by a normal blob id that names its content. */
  lemma ListedAt(w: World, names: Names, tree: RemoteTree, p: string)
    requires Injective(w, names) && Honest(w, names, tree)
    ensures var blobs := Blobs(w, tree);
      p in blobs ==> p in tree.files && Normal(blobs[p]) && names.content(blobs[p]) == tree.files[p].content
    ensures p in tree.files && Kept(w, p, tree.files[p].content) ==> p in Blobs(w, tree)
  {
    BlobsNormal(w, names, tree);
  }

  /** The listing of a tree, path by path: the source files that no filter skips and that are not
      too large, by their blob ids, or by a hash of the path in place of a blank one. */
  lemma ListingExact(w: World, tree: RemoteTree, p: string)
    ensures p in Blobs(w, tree)
       <==> p in tree.files && !w.skipped(p) && w.classify(p).Some? && |tree.files[p].content| <= 512000
    ensures p in Blobs(w, tree) ==>
              var id := ToLower(TrimSpace(tree.files[p].blobSHA)); Blobs(w, tree)[p] == if id == "" then w.pathHash(p) else id
  {
    hide ToLower, TrimSpace;
  }

  /** What a scan of a whole tree keeps, path by path: exactly the source files that no filter
      skips, of at most 500 KiB and not binary. */
  lemma ScanExact(w: World, tree: RemoteTree, prefetched: map<string, string>, p: string)
    ensures var scan := Discovered(w, Contents(tree), prefetched);
      (p in scan.files
       <==> p in tree.files && !w.skipped(p) && w.classify(p).Some?
            && |tree.files[p].content| <= 512000 && !w.binary(tree.files[p].content))
      && (p in scan.files ==> scan.files[p] == w.hash(tree.files[p].content))
      && (p in scan.fileBlobSHAs <==> p in scan.files) && (p in scan.fileMTimes <==> p in scan.files)
      && (p in scan.fileMTimes ==> scan.fileMTimes[p] == 0)
  {
    hide BlobOrHash, LanguageCounts;
  }

  /** A rescan by the listing's names. */
  lemma RescanByNames(w: World, names: Names, tree: RemoteTree)
    requires Injective(w, names) && Honest(w, names, tree)
    ensures Rescan(w, tree).files == NamedFiles(w, names, Blobs(w, tree))
    ensures Rescan(w, tree).fileBlobSHAs == NamedBlobs(w, names, Blobs(w, tree))
  {
    var blobs, scan := Blobs(w, tree), Rescan(w, tree);
    forall p ensures Get(scan.files, p) == Get(NamedFiles(w, names, blobs), p)
                     && Get(scan.fileBlobSHAs, p) == Get(NamedBlobs(w, names, blobs), p)
    {
      ListedAt(w, names, tree, p);
      DiscoveredAt(w, Contents(tree), blobs, p);
      hide NormalizeBlob, Blobs, Kept, Discovered, Injective, Honest;
    }
    hide NamedFiles, NamedBlobs, Rescan;
    GetAll(scan.files, NamedFiles(w, names, blobs));
    GetAll(scan.fileBlobSHAs, NamedBlobs(w, names, blobs));
  }

  /** A stored hash that is carried over is the hash of the current content. */
  lemma CarriedAgrees(w: World, names: Names, existing: Index, tree: RemoteTree, p: string)
    requires Injective(w, names) && Honest(w, names, tree)
    requires Consistent(w, names, existing) && existing.fileBlobSHAs != map[]
    requires p in Blobs(w, tree) && p !in PlannedFetch(existing, Blobs(w, tree))
    ensures p in tree.files && Kept(w, p, tree.files[p].content)
    ensures Get(existing.files, p) == Some(w.hash(tree.files[p].content)) && !Blank(w.hash(tree.files[p].content))
    ensures Get(existing.fileMTimes, p) == Some(0)
  {
    ListedAt(w, names, tree, p);
    hide NormalizeBlob, TrimSpace, Blobs, Kept;
    assert HashOfBlob(w, names, existing, p);
  }

  /** The merge agrees with the rescan at a path. */
  ghost predicate RescanAt(w: World, existing: Index, tree: RemoteTree, p: string) {
    var blobs := Blobs(w, tree);
    MergedAt(Rescan(w, tree), existing, blobs.Keys, blobs, FetchedScan(w, existing, tree), PlannedFetch(existing, blobs), p)
  }

  lemma HashesNormal(w: World, names: Names, content: string)
    requires Injective(w, names)
    ensures !Blank(w.hash(content)) && NormalizeBlob(w.hash(content)) == w.hash(content)
  {}

  /** At a path that is fetched, or not listed at all. */
  lemma MergeAtFetched(w: World, names: Names, existing: Index, tree: RemoteTree, p: string)
    requires Injective(w, names) && Honest(w, names, tree)
    requires p in PlannedFetch(existing, Blobs(w, tree)) || p !in Blobs(w, tree)
    ensures RescanAt(w, existing, tree, p)
  {
    var blobs := Blobs(w, tree);
    var paths := PlannedFetch(existing, blobs);
    assert p in paths ==> p in blobs;
    ListedAt(w, names, tree, p);
    DiscoveredAt(w, Contents(tree), blobs, p);
    DiscoveredAt(w, Subset(Contents(tree), paths), blobs, p);
    if p in tree.files { HashesNormal(w, names, tree.files[p].content); }
    NormalizeEmpty();
    hide NormalizeBlob, Discovered, Blobs, Kept, PlannedFetch, Blank, Injective, Honest;
  }

  /** At a listed path that is not fetched. */
  lemma MergeAtCarried(w: World, names: Names, existing: Index, tree: RemoteTree, p: string)
    requires Injective(w, names) && Honest(w, names, tree)
    requires Consistent(w, names, existing) && existing.fileBlobSHAs != map[]
    requires p !in PlannedFetch(existing, Blobs(w, tree)) && p in Blobs(w, tree)
    ensures RescanAt(w, existing, tree, p)
  {
    var blobs := Blobs(w, tree);
    var paths := PlannedFetch(existing, blobs);
    ListedAt(w, names, tree, p);
    DiscoveredAt(w, Contents(tree), blobs, p);
    DiscoveredAt(w, Subset(Contents(tree), paths), blobs, p);
    CarriedAgrees(w, names, existing, tree, p);
    NormalizeEmpty();
    hide NormalizeBlob, Discovered, Blobs, Kept, PlannedFetch, Blank, Injective, Honest, Consistent;
  }

  /** The merge of what was fetched with what was stored is the rescan. */
  lemma MergeIsRescan(w: World, names: Names, existing: Index, tree: RemoteTree)
    requires Injective(w, names) && Honest(w, names, tree)
    requires Consistent(w, names, existing) && existing.fileBlobSHAs != map[]
    ensures IncrementalScan(w, existing, tree) == Rescan(w, tree)
  {
    var blobs := Blobs(w, tree);
    var paths := PlannedFetch(existing, blobs);
    RescanCounts(w, tree);
    hide Rescan, Merged, LanguageCounts, Blobs, Injective, Honest, Consistent, PlannedFetch, MergedAt, Discovered;
    forall p ensures MergedAt(Rescan(w, tree), existing, blobs.Keys, blobs, FetchedScan(w, existing, tree), paths, p) {
      if p in paths || p !in blobs {
        MergeAtFetched(w, names, existing, tree, p);
      } else {
        MergeAtCarried(w, names, existing, tree, p);
      }
    }
    MergedUnique(Rescan(w, tree), w, existing, blobs.Keys, blobs, FetchedScan(w, existing, tree), paths);
  }

  lemma RescanCounts(w: World, tree: RemoteTree)
    ensures Rescan(w, tree).languages == LanguageCounts(w.classify, Rescan(w, tree).files.Keys)
    ensures Rescan(w, tree).fileMTimes == (map p | p in Rescan(w, tree).files :: 0)
    ensures Rescan(w, tree).fileBlobSHAs.Keys == Rescan(w, tree).files.Keys
  {
    assert Rescan(w, tree).files.Keys == KeptFiles(w, Contents(tree));
    hide LanguageCounts, BlobOrHash, KeptFiles;
  }

  /** Discovery does not depend on the files it does not keep. */
  lemma SameKept(w: World, part: map<string, string>, whole: map<string, string>, prefetched: map<string, string>)
    requires KeptFiles(w, part) == KeptFiles(w, whole)
    requires forall p :: p in KeptFiles(w, part) ==> part[p] == whole[p]
    ensures Discovered(w, part, prefetched) == Discovered(w, whole, prefetched)
  {
    hide LanguageCounts, BlobOrHash, KeptFiles;
    var a, b := Discovered(w, part, prefetched), Discovered(w, whole, prefetched);
    assert a.files == b.files;
    assert a.fileBlobSHAs == b.fileBlobSHAs;
  }

  /** Without stored blob ids every listed file is fetched. */
  lemma FetchAllIsRescan(w: World, existing: Index, tree: RemoteTree)
    requires existing.fileBlobSHAs == map[]
    ensures IncrementalScan(w, existing, tree) == Rescan(w, tree)
  {
    hide Discovered, EffectiveBlob;
    var blobs := Blobs(w, tree);
    SameKept(w, Subset(Contents(tree), blobs.Keys), Contents(tree), blobs);
  }

  /** Whatever is stored, an incremental run scans its way to the rescan. */
  lemma IncrementalIsRescan(w: World, names: Names, existing: Index, tree: RemoteTree)
    requires Injective(w, names) && Honest(w, names, tree) && Consistent(w, names, existing)
    ensures IncrementalScan(w, existing, tree) == Rescan(w, tree)
  {
    hide IncrementalScan, Rescan, Consistent, Injective, Honest;
    if existing.fileBlobSHAs == map[] {
      FetchAllIsRescan(w, existing, tree);
    } else {
      MergeIsRescan(w, names, existing, tree);
    }
  }

  /** An index equal to a rescan under an id that names the tree is sound. */
  lemma RescanIsSound(w: World, names: Names, tree: RemoteTree, head: string)
    requires Injective(w, names) && Honest(w, names, tree) && Rescan(w, tree).files != map[]
    requires Normal(head) && Listed(w, names, names.tree(head)) == Blobs(w, tree)
    ensures Sound(w, names, IndexOf(Rescan(w, tree), head))
  {
    RescanByNames(w, names, tree);
    RescanCounts(w, tree);
    hide Rescan, Blobs, Listed, LanguageCounts, NormalizeBlob, TrimSpace;
  }

  /** The first run takes the content hashes for blob ids, and lists exactly its files. */
  lemma CreatedBlobs(w: World, names: Names, tree: RemoteTree)
    requires Injective(w, names)
    ensures var scan := Discovered(w, Contents(tree), map[]);
      scan.files == scan.fileBlobSHAs && Listed(w, names, scan.fileBlobSHAs) == scan.fileBlobSHAs
      && NamedFiles(w, names, scan.fileBlobSHAs) == scan.files
      && NamedBlobs(w, names, scan.fileBlobSHAs) == scan.fileBlobSHAs
      && scan.fileMTimes == (map p | p in scan.files :: 0) && scan.languages == LanguageCounts(w.classify, scan.files.Keys)
      && forall p :: p in scan.files ==> w.hash(names.content(scan.files[p])) == scan.files[p]
                                         && SmallText(w, names.content(scan.files[p]))
  {
    var scan := Discovered(w, Contents(tree), map[]);
    NormalizeEmpty();
    hide LanguageCounts, NormalizeBlob, TrimSpace;
    assert scan.files.Keys == KeptFiles(w, Contents(tree));
    assert scan.files == scan.fileBlobSHAs;
  }

  /** So is what the first run stores, whose blob ids are content hashes. */
  lemma CreatedIsSound(w: World, names: Names, tree: RemoteTree)
    requires Injective(w, names)
    requires var scan := Discovered(w, Contents(tree), map[]); scan.files != map[]
    ensures var scan := Discovered(w, Contents(tree), map[]);
      scan.files == scan.fileBlobSHAs && Sound(w, names, IndexOf(scan, RemoteTreeSHA(w, scan.fileBlobSHAs)))
  {
    CreatedBlobs(w, names, tree);
    hide LanguageCounts, NormalizeBlob, TrimSpace, Discovered, Listed, NamedFiles, NamedBlobs;
  }

  /** The stored files are the ones the stored blob ids name. */
  lemma FilesByBlobs(w: World, names: Names, idx: Index, blobs: map<string, string>)
    requires Consistent(w, names, idx) && idx.fileBlobSHAs != map[]
    requires idx.fileBlobSHAs == blobs || idx.fileBlobSHAs == NamedBlobs(w, names, blobs)
    ensures idx.files == NamedFiles(w, names, blobs) && idx.fileBlobSHAs == NamedBlobs(w, names, blobs)
  {
    hide SmallText;
    assert forall p :: p in idx.files ==> HashOfBlob(w, names, idx, p);
  }

  lemma ReflectsByFiles(w: World, names: Names, idx: Index, tree: RemoteTree)
    requires Injective(w, names) && Honest(w, names, tree) && Consistent(w, names, idx)
    requires idx.files == NamedFiles(w, names, Blobs(w, tree))
    requires idx.fileBlobSHAs == NamedBlobs(w, names, Blobs(w, tree)) || idx.fileBlobSHAs == map[]
    ensures Reflects(idx, Rescan(w, tree))
  {
    RescanByNames(w, names, tree);
    RescanCounts(w, tree);
    hide Rescan, NamedFiles, NamedBlobs, Blobs, LanguageCounts, Injective, Honest;
  }

  lemma CurrentTreeNormal(w: World, names: Names, tree: RemoteTree)
    requires Injective(w, names) && Blobs(w, tree) != map[]
    ensures Normal(CurrentTree(w, tree.treeSHA, Blobs(w, tree)))
  {
    NormalForm(tree.treeSHA);
    assert |Blobs(w, tree)| != 0;
    hide NormalizeBlob, Blobs;
  }

  lemma EmptyListingEmptyScan(w: World, names: Names, tree: RemoteTree)
    requires Injective(w, names) && Honest(w, names, tree) && Blobs(w, tree) == map[]
    ensures Rescan(w, tree).files == map[]
  {
    RescanByNames(w, names, tree);
    hide Rescan, Blobs;
  }

  /** The id of the tree stands for the listing, under the filters of the run. */
  lemma HeadLists(w: World, names: Names, tree: RemoteTree)
    requires Injective(w, names) && Honest(w, names, tree) && Blobs(w, tree) != map[]
    ensures Listed(w, names, names.tree(CurrentTree(w, tree.treeSHA, Blobs(w, tree)))) == Blobs(w, tree)
  {
    hide NormalizeBlob, TrimSpace;
    var blobs := Blobs(w, tree);
    assert |blobs| != 0;
    forall p ensures Get(Listed(w, names, AllBlobs(w, tree)), p) == Get(blobs, p)
                     && Get(Listed(w, names, blobs), p) == Get(blobs, p)
    {
      assert p in tree.files ==> names.content(AllBlobs(w, tree)[p]) == tree.files[p].content;
      hide EffectiveBlob;
    }
    GetAll(Listed(w, names, AllBlobs(w, tree)), blobs);
    GetAll(Listed(w, names, blobs), blobs);
  }

  /** The two comparisons of blob ids or hashes that report no change only do so on an index
      that holds what a rescan finds, whatever filters it was stored under. */
  lemma ShortcutsAreSafe(w: World, names: Names, existing: Index, tree: RemoteTree)
    requires Injective(w, names) && Honest(w, names, tree) && Consistent(w, names, existing) && Blobs(w, tree) != map[]
    requires (existing.fileBlobSHAs != map[] && existing.fileBlobSHAs == Blobs(w, tree))
             || SameListing(existing, Rescan(w, tree))
    ensures Reflects(existing, Rescan(w, tree))
  {
    RescanByNames(w, names, tree);
    hide Blobs, Rescan, NamedFiles, NamedBlobs, Injective, Honest, Consistent;
    if existing.fileBlobSHAs != map[] {
      FilesByBlobs(w, names, existing, Blobs(w, tree));
    }
    ReflectsByFiles(w, names, existing, tree);
  }

  // ----- the unchanged tree id, under filters that may have changed -----

  function WithFilter(w: World, skipped: string -> bool): World {
    w.(skipped := skipped)
  }

  /** The paths that the id of the tree stands for: all files of a tree that comes with an id,
      the listed ones of a tree whose listing is hashed for one. */
  ghost function Covered(w: World, tree: RemoteTree): set<string> {
    if NormalizeBlob(tree.treeSHA) != "" then tree.files.Keys else Blobs(w, tree).Keys
  }

  /** The filters of this run and the other ones agree on the files of the tree whose content
      a scan would keep. */
  ghost predicate FiltersAgree(w: World, was: string -> bool, tree: RemoteTree) {
    forall p :: p in Covered(w, tree) && p in tree.files && w.classify(p).Some? && SmallText(w, tree.files[p].content)
      ==> (was(p) <==> w.skipped(p))
  }

  lemma NamedAt(w: World, names: Names, all: map<string, string>, p: string)
    ensures var blobs := Listed(w, names, all);
      if p in all && Eligible(w, p) && SmallText(w, names.content(all[p]))
      then Get(NamedFiles(w, names, blobs), p) == Some(w.hash(names.content(all[p])))
           && Get(NamedBlobs(w, names, blobs), p) == Some(all[p])
      else Get(NamedFiles(w, names, blobs), p) == None && Get(NamedBlobs(w, names, blobs), p) == None
  {}

  /** The blob ids that the current tree id names are those of the covered paths. */
  lemma HeadCovers(w: World, names: Names, tree: RemoteTree, p: string)
    requires Injective(w, names) && Honest(w, names, tree) && Blobs(w, tree) != map[]
    ensures var all := names.tree(CurrentTree(w, tree.treeSHA, Blobs(w, tree)));
      (p in all <==> p in Covered(w, tree)) && (p in all ==> p in tree.files && names.content(all[p]) == tree.files[p].content)
  {
    hide NormalizeBlob, TrimSpace;
    assert |Blobs(w, tree)| != 0;
    assert p in tree.files ==> names.content(AllBlobs(w, tree)[p]) == tree.files[p].content;
  }

  /** What an index stored under other filters holds of the current tree, at one path. */
  lemma SameHeadAt(w: World, names: Names, was: string -> bool, existing: Index, tree: RemoteTree, p: string)
    requires Injective(w, names) && Honest(w, names, tree) && Blobs(w, tree) != map[]
    requires Sound(WithFilter(w, was), names, existing)
    requires TrimSpace(existing.gitHead) == CurrentTree(w, tree.treeSHA, Blobs(w, tree))
    ensures var kept := p in Covered(w, tree) && p in tree.files && w.classify(p).Some? && SmallText(w, tree.files[p].content);
      Get(existing.files, p) == (if kept && !was(p) then Some(w.hash(tree.files[p].content)) else None)
      && Get(Rescan(w, tree).files, p) == (if kept && !w.skipped(p) then Some(w.hash(tree.files[p].content)) else None)
      && (existing.fileBlobSHAs != map[] && kept && !was(p) && !w.skipped(p)
          ==> Get(existing.fileBlobSHAs, p) == Get(Rescan(w, tree).fileBlobSHAs, p))
  {
    var all := names.tree(CurrentTree(w, tree.treeSHA, Blobs(w, tree)));
    CurrentTreeNormal(w, names, tree);
    HeadLists(w, names, tree);
    RescanByNames(w, names, tree);
    HeadCovers(w, names, tree, p);
    NamedAt(w, names, all, p);
    NamedAt(WithFilter(w, was), names, all, p);
    hide Listed, NamedFiles, NamedBlobs, Blobs, Rescan, CurrentTree, NormalizeBlob, TrimSpace, SmallText, Covered, Consistent,
         Injective, Honest;
  }

  lemma AgreeingFilters(w: World, names: Names, was: string -> bool, existing: Index, tree: RemoteTree)
    requires Injective(w, names) && Honest(w, names, tree) && Blobs(w, tree) != map[]
    requires Sound(WithFilter(w, was), names, existing)
    requires TrimSpace(existing.gitHead) == CurrentTree(w, tree.treeSHA, Blobs(w, tree))
    ensures existing.files == Rescan(w, tree).files <==> FiltersAgree(w, was, tree)
  {
    hide Rescan, Sound, Covered, SmallText, CurrentTree, TrimSpace, Injective, Honest;
    forall p ensures Get(existing.files, p) == Get(Rescan(w, tree).files, p)
                <==> (p in Covered(w, tree) && p in tree.files && w.classify(p).Some? && SmallText(w, tree.files[p].content)
                      ==> (was(p) <==> w.skipped(p)))
    {
      SameHeadAt(w, names, was, existing, tree, p);
    }
    if FiltersAgree(w, was, tree) {
      GetAll(existing.files, Rescan(w, tree).files);
    }
  }

  lemma SoundParts(w: World, names: Names, was: string -> bool, existing: Index)
    requires Sound(WithFilter(w, was), names, existing)
    ensures Consistent(w, names, existing) && existing.files != map[]
    ensures existing.fileBlobSHAs == map[] || existing.fileBlobSHAs.Keys == existing.files.Keys
  {
    hide LanguageCounts;
    forall p | p in existing.files && p in existing.fileBlobSHAs && HashOfBlob(WithFilter(w, was), names, existing, p)
      ensures HashOfBlob(w, names, existing, p)
    {}
  }

  /** A tree id that is the stored one, in a run that therefore reports no change: the index
      holds what a rescan finds if and only if the filters agree with those it was stored
      under, on the files of the tree. */
  lemma TreeShortcutExact(w: World, names: Names, was: string -> bool, existing: Index, tree: RemoteTree)
    requires Injective(w, names) && Honest(w, names, tree) && Blobs(w, tree) != map[]
    requires Sound(WithFilter(w, was), names, existing)
    requires TrimSpace(existing.gitHead) == CurrentTree(w, tree.treeSHA, Blobs(w, tree))
    ensures Reflects(existing, Rescan(w, tree)) <==> FiltersAgree(w, was, tree)
  {
    hide Rescan, Sound, Blobs, Covered, SmallText, CurrentTree, TrimSpace, Injective, Honest, FiltersAgree, Consistent, LanguageCounts;
    AgreeingFilters(w, names, was, existing, tree);
    SoundParts(w, names, was, existing);
    RescanCounts(w, tree);
    ConsistentCounts(w, names, existing);
    if existing.files == Rescan(w, tree).files && existing.fileBlobSHAs != map[] {
      forall p ensures Get(existing.fileBlobSHAs, p) == Get(Rescan(w, tree).fileBlobSHAs, p) {
        SameHeadAt(w, names, was, existing, tree, p);
      }
      GetAll(existing.fileBlobSHAs, Rescan(w, tree).fileBlobSHAs);
    }
  }

  lemma ConsistentCounts(w: World, names: Names, idx: Index)
    requires Consistent(w, names, idx)
    ensures idx.fileMTimes == (map p | p in idx.files :: 0) && idx.languages == LanguageCounts(w.classify, idx.files.Keys)
  {}

  /** The tree id is the stored one, and the run looks no further. */
  ghost predicate TreeShortcut(w: World, existing: Index, tree: RemoteTree) {
    Blobs(w, tree) != map[] && TrimSpace(existing.gitHead) == CurrentTree(w, tree.treeSHA, Blobs(w, tree))
  }

  /** So the shortcut fails as soon as a pattern for a file of the tree has changed: an index
      made of the tree under the old filters is reported unchanged, and is not what a rescan
      finds under the new ones. */
  lemma FilterChangeGoesUnseen(w: World, names: Names, was: string -> bool, tree: RemoteTree, p: string)
    requires Injective(w, names) && Honest(w, names, tree) && NormalizeBlob(tree.treeSHA) != "" && Blobs(w, tree) != map[]
    requires p in tree.files && w.classify(p).Some? && SmallText(w, tree.files[p].content) && was(p) != w.skipped(p)
    requires Rescan(WithFilter(w, was), tree).files != map[]
    ensures var existing := IndexOf(Rescan(WithFilter(w, was), tree), NormalizeBlob(tree.treeSHA));
      Refresh(w, existing, tree, Faults(false, false, false, false)) == (existing, Unchanged)
      && !Reflects(existing, Rescan(w, tree))
  {
    var old' := WithFilter(w, was);
    var head := NormalizeBlob(tree.treeSHA);
    NormalForm(tree.treeSHA);
    OldRescanSound(w, names, was, tree);
    TreeShortcutExact(w, names, was, IndexOf(Rescan(old', tree), head), tree);
    assert !FiltersAgree(w, was, tree);
    hide Rescan, Blobs, IncrementalScan, NormalizeBlob, TrimSpace, SmallText, Reflects;
  }

  /** A tree of two files, by the hashes of their contents. */
  ghost function TwoFileIds(w: World, p: string, a: string, q: string, b: string): map<string, string> {
    map[p := w.hash(a), q := w.hash(b)]
  }

  ghost function TwoFileTree(w: World, p: string, a: string, q: string, b: string): RemoteTree {
    RemoteTree(map[p := RemoteFile(w.hash(a), a), q := RemoteFile(w.hash(b), b)], w.treeHash(TwoFileIds(w, p, a, q, b)))
  }

  /** Two small source files, neither of them filtered at first. */
  predicate Pair(w: World, p: string, a: string, q: string, b: string) {
    p != q && w.classify(p).Some? && w.classify(q).Some? && SmallText(w, a) && SmallText(w, b) && !w.skipped(q)
  }

  lemma TwoFileHonest(w: World, names: Names, p: string, a: string, q: string, b: string)
    requires Injective(w, names) && Pair(w, p, a, q, b)
    ensures Honest(w, names, TwoFileTree(w, p, a, q, b)) && NormalizeBlob(TwoFileTree(w, p, a, q, b).treeSHA) != ""
  {
    var tree, ids := TwoFileTree(w, p, a, q, b), TwoFileIds(w, p, a, q, b);
    assert q in ids;
    assert Normal(w.hash(a)) && Normal(w.hash(b)) && Normal(w.treeHash(ids));
    hide NormalizeBlob, TrimSpace;
    assert AllBlobs(w, tree) == ids;
  }

  lemma TwoFileScan(w: World, p: string, a: string, q: string, b: string)
    requires Pair(w, p, a, q, b)
    ensures q in Blobs(w, TwoFileTree(w, p, a, q, b))
    ensures Rescan(w, TwoFileTree(w, p, a, q, b)).files
         == if w.skipped(p) then map[q := w.hash(b)] else map[p := w.hash(a), q := w.hash(b)]
  {
    var tree := TwoFileTree(w, p, a, q, b);
    var files := if w.skipped(p) then map[q := w.hash(b)] else map[p := w.hash(a), q := w.hash(b)];
    forall r ensures Get(Rescan(w, tree).files, r) == Get(files, r) {
      DiscoveredAt(w, Contents(tree), Blobs(w, tree), r);
      hide Discovered, Blobs, SmallText;
    }
    hide Rescan, Discovered, EffectiveBlob, SmallText;
    GetAll(Rescan(w, tree).files, files);
  }

  /** For instance: of two indexed files, one is then named by the ignore file that the run
      reads, or by the patterns of the call, and the tree is the same. */
  lemma IgnoredFileStaysIndexed(w: World, names: Names, p: string, a: string, q: string, b: string)
    requires Injective(w, names) && Pair(w, p, a, q, b) && w.skipped(p)
    ensures var tree, was := TwoFileTree(w, p, a, q, b), (r: string) => false;
      var existing := IndexOf(Rescan(WithFilter(w, was), tree), NormalizeBlob(tree.treeSHA));
      Honest(w, names, tree) && Sound(WithFilter(w, was), names, existing)
      && Refresh(w, existing, tree, Faults(false, false, false, false)) == (existing, Unchanged)
      && p in existing.files && p !in Rescan(w, tree).files
  {
    var tree, was := TwoFileTree(w, p, a, q, b), (r: string) => false;
    TwoFileHonest(w, names, p, a, q, b);
    TwoFileChange(w, p, a, q, b, was);
    hide TwoFileTree, TwoFileIds, Rescan, Refresh, Injective, Honest, NormalizeBlob, Sound, SmallText, Reflects, Blobs;
    OldRescanSound(w, names, was, tree);
    FilterChangeGoesUnseen(w, names, was, tree, p);
  }

  /** The two scans differ in the file that is filtered now and was not before. */
  lemma TwoFileChange(w: World, p: string, a: string, q: string, b: string, was: string -> bool)
    requires Pair(w, p, a, q, b) && w.skipped(p) && !was(p) && !was(q)
    ensures var tree := TwoFileTree(w, p, a, q, b);
      p in tree.files && tree.files[p].content == a && q in Blobs(w, tree)
      && p in Rescan(WithFilter(w, was), tree).files && Rescan(WithFilter(w, was), tree).files != map[]
      && p !in Rescan(w, tree).files
  {
    var tree := TwoFileTree(w, p, a, q, b);
    assert Pair(WithFilter(w, was), p, a, q, b);
    assert TwoFileTree(WithFilter(w, was), p, a, q, b) == tree && p in tree.files && tree.files[p].content == a;
    hide TwoFileTree, Rescan, Blobs, SmallText;
    TwoFileScan(w, p, a, q, b);
    TwoFileScan(WithFilter(w, was), p, a, q, b);
  }

  /** What a rescan under the old filters stores under the tree's own id is sound for them. */
  lemma OldRescanSound(w: World, names: Names, was: string -> bool, tree: RemoteTree)
    requires Injective(w, names) && Honest(w, names, tree) && NormalizeBlob(tree.treeSHA) != ""
    requires Rescan(WithFilter(w, was), tree).files != map[]
    ensures Blobs(WithFilter(w, was), tree) != map[]
    ensures Sound(WithFilter(w, was), names, IndexOf(Rescan(WithFilter(w, was), tree), NormalizeBlob(tree.treeSHA)))
  {
    var old' := WithFilter(w, was);
    FilterFree(w, names, was, tree);
    NormalForm(tree.treeSHA);
    if Blobs(old', tree) == map[] { EmptyListingEmptyScan(old', names, tree); }
    HeadLists(old', names, tree);
    hide Rescan, Blobs, NormalizeBlob, TrimSpace, Injective, Honest, Sound;
    RescanIsSound(old', names, tree, CurrentTree(old', tree.treeSHA, Blobs(old', tree)));
  }

  /** Whether ids are honest does not depend on the filters. */
  lemma FilterFree(w: World, names: Names, was: string -> bool, tree: RemoteTree)
    requires Injective(w, names) && Honest(w, names, tree)
    ensures Injective(WithFilter(w, was), names) && Honest(WithFilter(w, was), names, tree)
  {
    hide NormalizeBlob, TrimSpace;
    assert AllBlobs(WithFilter(w, was), tree) == AllBlobs(w, tree);
  }

  // ----- one run -----

  /** A report of no change is right, for the files and all that goes with them, if and only if
      it does not rest on the tree id alone or the filters agree. */
  ghost predicate NoChangeExact(w: World, was: string -> bool, existing: Index, tree: RemoteTree) {
    (Reflects(existing, Rescan(w, tree)) <==> (TreeShortcut(w, existing, tree) ==> FiltersAgree(w, was, tree)))
    && (existing.files == Rescan(w, tree).files <==> (TreeShortcut(w, existing, tree) ==> FiltersAgree(w, was, tree)))
  }

  /** What one incremental run leaves, by its outcome; `was` are the filters that the index was
      stored under. */
  ghost predicate RefreshExact(w: World, names: Names, was: string -> bool, existing: Index, tree: RemoteTree, faults: Faults,
                               idx: Index, outcome: Outcome) {
    match outcome {
      case Updated => Sound(w, names, idx) && Reflects(idx, Rescan(w, tree)) && Rescan(w, tree).files != map[]
        && idx.fileBlobSHAs == Rescan(w, tree).fileBlobSHAs && !TreeShortcut(w, existing, tree)
      case Unchanged => idx == existing && NoChangeExact(w, was, existing, tree)
      case NoSourceFiles => idx == existing && Rescan(w, tree).files == map[] && !TreeShortcut(w, existing, tree)
      case Failed => idx == existing && (faults.metadata || faults.acquire || faults.save)
      case Created => false
    }
  }

  /** The branches of a run, and what they rest on. */
  lemma RefreshBranches(w: World, existing: Index, tree: RemoteTree, faults: Faults)
    requires Blobs(w, tree) != map[] ==> CurrentTree(w, tree.treeSHA, Blobs(w, tree)) != ""
    ensures var (idx, outcome) := Refresh(w, existing, tree, faults);
      var blobs, scan := Blobs(w, tree), IncrementalScan(w, existing, tree);
      match outcome
      case Updated => blobs != map[] && scan.files != map[] && !TreeShortcut(w, existing, tree)
        && idx == IndexOf(scan, CurrentTree(w, tree.treeSHA, blobs))
      case Unchanged => blobs != map[] && idx == existing
        && (TreeShortcut(w, existing, tree) || (existing.fileBlobSHAs != map[] && existing.fileBlobSHAs == blobs)
            || SameListing(existing, scan))
      case NoSourceFiles => idx == existing && (blobs == map[] || (scan.files == map[] && !TreeShortcut(w, existing, tree)))
      case Failed => idx == existing && (faults.metadata || faults.acquire || faults.save)
      case Created => false
  {
    hide Blobs, IncrementalScan, TrimSpace, CurrentTree, PlannedFetch, SameListing;
  }

  /** One incremental run on an index stored under any filters. An update stores what a rescan
      finds; every other outcome leaves the index untouched. When no change is reported, the
      index holds what a rescan finds, unless the tree id alone said so and the filters that
      the index was stored under disagree with those of this run. */
  lemma RefreshKeepsUp(w: World, names: Names, was: string -> bool, existing: Index, tree: RemoteTree, faults: Faults)
    requires Injective(w, names) && Honest(w, names, tree) && Sound(WithFilter(w, was), names, existing)
    ensures var (idx, outcome) := Refresh(w, existing, tree, faults);
      RefreshExact(w, names, was, existing, tree, faults, idx, outcome)
  {
    hide *;
    SoundParts(w, names, was, existing);
    IncrementalIsRescan(w, names, existing, tree);
    if Blobs(w, tree) != map[] { NotBlank(w, names, tree); }
    RefreshBranches(w, existing, tree, faults);
    var (idx, outcome) := Refresh(w, existing, tree, faults);
    match outcome {
      case Updated => UpdateExact(w, names, was, existing, tree, faults, idx);
      case Unchanged => NoChangeIsExact(w, names, was, existing, tree); UnchangedExact(w, names, was, existing, tree, faults);
      case NoSourceFiles => NothingExact(w, names, was, existing, tree, faults);
      case Failed => FailedExact(w, names, was, existing, tree, faults);
    }
  }

  lemma NotBlank(w: World, names: Names, tree: RemoteTree)
    requires Injective(w, names) && Blobs(w, tree) != map[]
    ensures CurrentTree(w, tree.treeSHA, Blobs(w, tree)) != ""
  {
    hide Blobs, CurrentTree;
    CurrentTreeNormal(w, names, tree);
  }

  lemma UpdateExact(w: World, names: Names, was: string -> bool, existing: Index, tree: RemoteTree, faults: Faults, idx: Index)
    requires Injective(w, names) && Honest(w, names, tree) && Blobs(w, tree) != map[] && Rescan(w, tree).files != map[]
    requires !TreeShortcut(w, existing, tree)
    requires idx == IndexOf(Rescan(w, tree), CurrentTree(w, tree.treeSHA, Blobs(w, tree)))
    ensures RefreshExact(w, names, was, existing, tree, faults, idx, Updated)
  {
    hide Rescan, Injective, Honest, Blobs, CurrentTree, Sound, Reflects, TreeShortcut;
    UpdateIsSound(w, names, tree);
  }

  lemma UnchangedExact(w: World, names: Names, was: string -> bool, existing: Index, tree: RemoteTree, faults: Faults)
    requires NoChangeExact(w, was, existing, tree)
    ensures RefreshExact(w, names, was, existing, tree, faults, existing, Unchanged)
  {}

  lemma NothingExact(w: World, names: Names, was: string -> bool, existing: Index, tree: RemoteTree, faults: Faults)
    requires Injective(w, names) && Honest(w, names, tree)
    requires Blobs(w, tree) == map[] || (Rescan(w, tree).files == map[] && !TreeShortcut(w, existing, tree))
    ensures RefreshExact(w, names, was, existing, tree, faults, existing, NoSourceFiles)
  {
    hide Rescan, Injective, Honest, Blobs, Sound, Reflects, NoChangeExact, CurrentTree, TrimSpace;
    if Blobs(w, tree) == map[] { EmptyListingEmptyScan(w, names, tree); }
  }

  lemma FailedExact(w: World, names: Names, was: string -> bool, existing: Index, tree: RemoteTree, faults: Faults)
    requires faults.metadata || faults.acquire || faults.save
    ensures RefreshExact(w, names, was, existing, tree, faults, existing, Failed)
  {}

  lemma NoChangeIsExact(w: World, names: Names, was: string -> bool, existing: Index, tree: RemoteTree)
    requires Injective(w, names) && Honest(w, names, tree) && Sound(WithFilter(w, was), names, existing)
    requires Blobs(w, tree) != map[]
    requires TreeShortcut(w, existing, tree) || (existing.fileBlobSHAs != map[] && existing.fileBlobSHAs == Blobs(w, tree))
             || SameListing(existing, Rescan(w, tree))
    ensures NoChangeExact(w, was, existing, tree)
  {
    SoundParts(w, names, was, existing);
    hide Rescan, Sound, Injective, Honest, Blobs, TrimSpace, NormalizeBlob, FiltersAgree, Consistent, Reflects, CurrentTree,
         SameListing;
    if TreeShortcut(w, existing, tree) {
      TreeShortcutExact(w, names, was, existing, tree);
      AgreeingFilters(w, names, was, existing, tree);
    } else {
      ShortcutsAreSafe(w, names, existing, tree);
      ReflectsFiles(existing, Rescan(w, tree));
    }
  }

  lemma UpdateIsSound(w: World, names: Names, tree: RemoteTree)
    requires Injective(w, names) && Honest(w, names, tree) && Blobs(w, tree) != map[] && Rescan(w, tree).files != map[]
    ensures var head := CurrentTree(w, tree.treeSHA, Blobs(w, tree));
      head != "" && Sound(w, names, IndexOf(Rescan(w, tree), head)) && Reflects(IndexOf(Rescan(w, tree), head), Rescan(w, tree))
  {
    HeadLists(w, names, tree);
    CurrentTreeNormal(w, names, tree);
    hide Rescan, Injective, Honest, Blobs, CurrentTree;
    RescanIsSound(w, names, tree, CurrentTree(w, tree.treeSHA, Blobs(w, tree)));
    RescanReflects(w, tree, CurrentTree(w, tree.treeSHA, Blobs(w, tree)));
  }

  lemma ReflectsFiles(idx: Index, scan: Scan)
    requires Reflects(idx, scan)
    ensures idx.files == scan.files
  {}

  lemma RescanReflects(w: World, tree: RemoteTree, head: string)
    ensures Reflects(IndexOf(Rescan(w, tree), head), Rescan(w, tree))
  {}

  // ----- any sequence of runs -----

  /** One call of the handler: the tree it finds, its arguments, the filters that follow from
      the arguments and the repository's ignore file, and what fails. */
  datatype Request = Request(tree: RemoteTree, incremental: bool, skipped: string -> bool, faults: Faults)

  /** The stored index, and the filters of the run that stored it. */
  datatype Store = Store(stored: Option<Index>, under: string -> bool)

  ghost function OutcomeOf(w: World, s: Store, r: Request): Outcome {
    Step(WithFilter(w, r.skipped), s.stored, r.tree, r.incremental, r.faults).1
  }

  ghost function NextStore(w: World, s: Store, r: Request): Store {
    var (after, outcome) := Step(WithFilter(w, r.skipped), s.stored, r.tree, r.incremental, r.faults);
    Store(after, if outcome.Updated? || outcome.Created? then r.skipped else s.under)
  }

  ghost predicate Runs(w: World, stores: seq<Store>, requests: seq<Request>) {
    |stores| == |requests| + 1
    && forall k :: 0 <= k < |requests| ==> stores[k + 1] == NextStore(w, stores[k], requests[k])
  }

  ghost predicate AllHonest(w: World, names: Names, requests: seq<Request>) {
    forall k :: 0 <= k < |requests| ==> Honest(w, names, requests[k].tree)
  }

  ghost predicate StoreSound(w: World, names: Names, s: Store) {
    s.stored.Some? ==> Sound(WithFilter(w, s.under), names, s.stored.value)
  }

  /** The index holds what a rescan of the tree finds; after a run that fetched the whole
      tree, the content hashes stand in for the blob ids. */
  ghost predicate UpToDate(w: World, stored: Option<Index>, tree: RemoteTree) {
    stored.Some? && (Reflects(stored.value, Rescan(w, tree))
                     || Reflects(stored.value, Discovered(w, Contents(tree), map[])))
  }

  /** The run trusts an unchanged tree id. */
  ghost predicate Trusting(w: World, s: Store, r: Request) {
    r.incremental && s.stored.Some? && TreeShortcut(WithFilter(w, r.skipped), s.stored.value, r.tree)
  }

  /** What one run leaves, by its outcome; `w` has the filters of the run and `was` are those
      the index was stored under. */
  ghost predicate StepExact(w: World, names: Names, was: string -> bool, stored: Option<Index>, r: Request,
                            after: Option<Index>, outcome: Outcome) {
    var trusting := r.incremental && stored.Some? && TreeShortcut(w, stored.value, r.tree);
    match outcome {
      case Updated => r.incremental && stored.Some? && !trusting && after.Some? && Sound(w, names, after.value)
        && Reflects(after.value, Rescan(w, r.tree)) && after.value.fileBlobSHAs == Rescan(w, r.tree).fileBlobSHAs
      case Created => !(r.incremental && stored.Some?) && after.Some? && Sound(w, names, after.value)
        && Reflects(after.value, Discovered(w, Contents(r.tree), map[]))
      case Unchanged => after == stored && r.incremental && stored.Some? && NoChangeExact(w, was, stored.value, r.tree)
      case NoSourceFiles => after == stored && Rescan(w, r.tree).files == map[] && !trusting
      case Failed => after == stored && r.faults != Faults(false, false, false, false)
    }
  }

  lemma StepIsExact(w: World, names: Names, was: string -> bool, stored: Option<Index>, r: Request)
    requires Injective(w, names) && Honest(w, names, r.tree)
    requires stored.Some? ==> Sound(WithFilter(w, was), names, stored.value)
    ensures var (after, outcome) := Step(w, stored, r.tree, r.incremental, r.faults);
      StepExact(w, names, was, stored, r, after, outcome)
  {
    if r.incremental && stored.Some? {
      hide Injective, Honest, Refresh, Sound, Rescan, TreeShortcut, NoChangeExact, Reflects, Create;
      RefreshKeepsUp(w, names, was, stored.value, r.tree, r.faults);
    } else {
      hide Injective, Honest, Discovered, Refresh, Sound, Rescan, Reflects;
      CreateIsExact(w, names, was, stored, r);
    }
  }

  lemma CreateIsExact(w: World, names: Names, was: string -> bool, stored: Option<Index>, r: Request)
    requires Injective(w, names) && Honest(w, names, r.tree) && !(r.incremental && stored.Some?)
    ensures var (after, outcome) := Create(w, stored, r.tree, r.faults);
      StepExact(w, names, was, stored, r, after, outcome)
  {
    SameFiles(w, r.tree);
    hide Injective, Honest, Discovered, Sound, Rescan, Reflects, TreeShortcut, NoChangeExact;
    if Discovered(w, Contents(r.tree), map[]).files != map[] {
      CreatedIsSound(w, names, r.tree);
      CreatedReflects(w, r.tree, RemoteTreeSHA(w, Discovered(w, Contents(r.tree), map[]).fileBlobSHAs));
    }
  }

  lemma CreatedReflects(w: World, tree: RemoteTree, head: string)
    ensures Reflects(IndexOf(Discovered(w, Contents(tree), map[]), head), Discovered(w, Contents(tree), map[]))
  {}

  lemma FilterTwice(w: World, f: string -> bool, g: string -> bool)
    ensures WithFilter(WithFilter(w, f), g) == WithFilter(w, g)
  {}

  lemma StoreStepExact(w: World, names: Names, s: Store, r: Request)
    requires Injective(w, names) && Honest(w, names, r.tree) && StoreSound(w, names, s)
    ensures var (after, outcome) := Step(WithFilter(w, r.skipped), s.stored, r.tree, r.incremental, r.faults);
      StepExact(WithFilter(w, r.skipped), names, s.under, s.stored, r, after, outcome)
  {
    hide WithFilter, Injective, Honest, Sound, Step, StepExact;
    FilterFree(w, names, r.skipped, r.tree);
    FilterTwice(w, r.skipped, s.under);
    StepIsExact(WithFilter(w, r.skipped), names, s.under, s.stored, r);
  }

  /** The store after a run; the filters are those of the request. */
  lemma StoreStep(w: World, names: Names, s: Store, r: Request)
    requires Injective(w, names) && Honest(w, names, r.tree) && StoreSound(w, names, s)
    ensures StoreSound(w, names, NextStore(w, s, r))
  {
    hide WithFilter, Injective, Honest, Sound, Step, NoChangeExact, Rescan, TreeShortcut, Reflects, Discovered;
    StoreStepExact(w, names, s, r);
  }

  /** The index after a run that stores one: exactly the source files of the tree that the filters
      of the run do not skip, of at most 500 KiB and not binary, by the hashes of their contents,
      and the id of the tree. */
  lemma StoredFilesExact(w: World, names: Names, s: Store, r: Request, p: string)
    requires Injective(w, names) && Honest(w, names, r.tree) && StoreSound(w, names, s)
    requires OutcomeOf(w, s, r).Created? || OutcomeOf(w, s, r).Updated?
    ensures NextStore(w, s, r).stored.Some?
    ensures var files, tree := NextStore(w, s, r).stored.value.files, r.tree;
      (p in files <==> p in tree.files && !r.skipped(p) && w.classify(p).Some?
                       && |tree.files[p].content| <= 512000 && !w.binary(tree.files[p].content))
      && (p in files ==> files[p] == w.hash(tree.files[p].content))
  {
    var w' := WithFilter(w, r.skipped);
    StoreStepExact(w, names, s, r);
    ScanExact(w', r.tree, map[], p);
    SameFiles(w', r.tree);
    hide Injective, Honest, Discovered, Rescan, Step, Sound, NoChangeExact, TreeShortcut;
  }

  /** The tree id that such a run stores: the tree's own, or the hash of the listing. */
  lemma StoredHeadExact(w: World, names: Names, s: Store, r: Request)
    requires Injective(w, names)
    ensures var idx, id := NextStore(w, s, r).stored, ToLower(TrimSpace(r.tree.treeSHA));
      (OutcomeOf(w, s, r).Created? ==> idx.Some? && idx.value.gitHead == w.treeHash(idx.value.fileBlobSHAs))
      && (OutcomeOf(w, s, r).Updated? ==>
            idx.Some? && idx.value.gitHead == if id != "" then id else w.treeHash(Blobs(WithFilter(w, r.skipped), r.tree)))
  {
    var w' := WithFilter(w, r.skipped);
    if r.incremental && s.stored.Some? {
      RefreshHead(w', names, s.stored.value, r.tree, r.faults);
      hide Injective, Create, Refresh, Blobs, ToLower, TrimSpace;
    } else {
      CreateHead(w', s.stored, r.tree, r.faults);
      hide Injective, Create, Refresh, Blobs, ToLower, TrimSpace;
    }
  }

  lemma CreateHead(w: World, stored: Option<Index>, tree: RemoteTree, faults: Faults)
    ensures var (after, outcome) := Create(w, stored, tree, faults);
      outcome != Updated && (outcome.Created? ==> after.Some? && after.value.gitHead == w.treeHash(after.value.fileBlobSHAs))
  {
    var scan := Discovered(w, Contents(tree), map[]);
    if p :| p in scan.files {
      ScanExact(w, tree, map[], p);
      assert p in scan.fileBlobSHAs && |scan.fileBlobSHAs| != 0;
    }
    hide Discovered;
  }

  lemma RefreshHead(w: World, names: Names, existing: Index, tree: RemoteTree, faults: Faults)
    requires Injective(w, names)
    ensures var (idx, outcome) := Refresh(w, existing, tree, faults);
      outcome != Created
      && (outcome.Updated? ==>
            idx.gitHead == if ToLower(TrimSpace(tree.treeSHA)) != "" then ToLower(TrimSpace(tree.treeSHA))
                           else w.treeHash(Blobs(w, tree)))
  {
    if Blobs(w, tree) != map[] {
      NotBlank(w, names, tree);
      assert |Blobs(w, tree)| != 0;
    }
    RefreshBranches(w, existing, tree, faults);
    hide Refresh, Blobs, ToLower, TrimSpace, IncrementalScan, TreeShortcut, Injective, SameListing;
  }

  /** A call that fails leaves the index as it was, and so does a run without one that stores
      nothing. */
  lemma FaultsStoreNothing(w: World, s: Store, r: Request)
    ensures var outcome, again := OutcomeOf(w, s, r), r.incremental && s.stored.Some?;
      (outcome.Created? || outcome.Updated? ==> !r.faults.save && !(r.incremental && r.faults.load))
      && (outcome.Created? ==> !r.faults.acquire) && (again && r.faults.metadata ==> outcome.Failed?)
      && (outcome.Updated? && r.faults.acquire ==>
            PlannedFetch(s.stored.value, Blobs(WithFilter(w, r.skipped), r.tree)) == {})
      && (r.incremental && r.faults.load ==> outcome.Failed?) && (!again && r.faults.acquire ==> outcome.Failed?)
      && (!outcome.Created? && !outcome.Updated? ==> NextStore(w, s, r) == s)
  {
    hide Discovered, IncrementalScan, Blobs, TrimSpace, CurrentTree, PlannedFetch;
  }

  lemma UpToDateFiles(w: World, stored: Option<Index>, tree: RemoteTree)
    requires UpToDate(w, stored, tree)
    ensures stored.Some? && stored.value.files == Rescan(w, tree).files
  {
    SameFiles(w, tree);
    hide Rescan, Discovered;
  }

  lemma ExactMeansUpToDate(w: World, names: Names, was: string -> bool, stored: Option<Index>, r: Request,
                           after: Option<Index>, outcome: Outcome)
    requires StepExact(w, names, was, stored, r, after, outcome) && r.faults == Faults(false, false, false, false)
    requires stored.Some? ==> stored.value.files != map[]
    requires after.Some? ==> after.value.files != map[]
    ensures var trusting := r.incremental && stored.Some? && TreeShortcut(w, stored.value, r.tree);
      (UpToDate(w, after, r.tree) <==> Rescan(w, r.tree).files != map[] && (trusting ==> FiltersAgree(w, was, r.tree)))
      && (Rescan(w, r.tree).files == map[] ==> after == stored && !outcome.Updated? && !outcome.Created?)
      && (outcome.NoSourceFiles? <==> Rescan(w, r.tree).files == map[] && !trusting)
  {
    if UpToDate(w, after, r.tree) { UpToDateFiles(w, after, r.tree); }
    hide Sound, Rescan, Discovered, FiltersAgree, TreeShortcut, Reflects;
  }

  /** What a run without faults leaves. */
  lemma RunExact(w: World, names: Names, s: Store, r: Request)
    requires Injective(w, names) && Honest(w, names, r.tree) && StoreSound(w, names, s)
    requires r.faults == Faults(false, false, false, false)
    ensures var w', after := WithFilter(w, r.skipped), NextStore(w, s, r);
      (UpToDate(w', after.stored, r.tree)
       <==> Rescan(w', r.tree).files != map[] && (Trusting(w, s, r) ==> FiltersAgree(w', s.under, r.tree)))
      && (Rescan(w', r.tree).files == map[] ==> after == s)
      && (OutcomeOf(w, s, r).NoSourceFiles? <==> Rescan(w', r.tree).files == map[] && !Trusting(w, s, r))
  {
    hide WithFilter, Injective, Honest, Sound, Step, Rescan, StepExact, FiltersAgree, TreeShortcut, UpToDate;
    var w' := WithFilter(w, r.skipped);
    var (after, outcome) := Step(w', s.stored, r.tree, r.incremental, r.faults);
    StoreStepExact(w, names, s, r);
    StoreStep(w, names, s, r);
    if s.stored.Some? { SoundParts(w, names, s.under, s.stored.value); }
    if after.Some? { SoundParts(w, names, NextStore(w, s, r).under, after.value); }
    ExactMeansUpToDate(w', names, s.under, s.stored, r, after, outcome);
  }

  /** Blob ids do not change which files are found. */
  lemma SameFiles(w: World, tree: RemoteTree)
    ensures Discovered(w, Contents(tree), map[]).files == Rescan(w, tree).files
  {
    hide LanguageCounts, BlobOrHash, KeptFiles;
  }

  lemma RunAt(w: World, names: Names, stores: seq<Store>, requests: seq<Request>, k: nat)
    requires Runs(w, stores, requests) && AllHonest(w, names, requests) && k < |requests|
    ensures |stores| == |requests| + 1 && Honest(w, names, requests[k].tree)
    ensures stores[k + 1] == NextStore(w, stores[k], requests[k])
  {
    hide Honest, NextStore;
  }

  /** Over any sequence of requests, with any filters and any failures, the stored index stays
      sound for the filters it was stored under. */
  lemma {:induction false} StaysSound(w: World, names: Names, stores: seq<Store>, requests: seq<Request>, k: nat)
    requires Injective(w, names) && Runs(w, stores, requests) && k <= |requests|
    requires AllHonest(w, names, requests)
    requires StoreSound(w, names, stores[0])
    ensures StoreSound(w, names, stores[k])
  {
    hide Injective, Honest, NextStore, StoreSound, AllHonest;
    if k > 0 {
      StaysSound(w, names, stores, requests, k - 1);
      RunAt(w, names, stores, requests, k - 1);
      StoreStep(w, names, stores[k - 1], requests[k - 1]);
    }
  }

  /** Over any sequence of trees and calls, each with filters of its own, from no index or a
      sound one: after a run without faults the index holds what a rescan of the tree finds if
      and only if the rescan finds anything, and the run did not trust an unchanged tree id
      although a filter for a file of the tree has changed since the index was stored. A tree
      without source files leaves the index as it was: an index is never emptied. */
  lemma IndexFollowsTrees(w: World, names: Names, stores: seq<Store>, requests: seq<Request>, k: nat)
    requires Injective(w, names) && Runs(w, stores, requests) && k < |requests|
    requires AllHonest(w, names, requests)
    requires StoreSound(w, names, stores[0])
    requires requests[k].faults == Faults(false, false, false, false)
    ensures var s, r := stores[k], requests[k]; var w' := WithFilter(w, r.skipped);
      (UpToDate(w', stores[k + 1].stored, r.tree)
       <==> Rescan(w', r.tree).files != map[] && (Trusting(w, s, r) ==> FiltersAgree(w', s.under, r.tree)))
      && (Rescan(w', r.tree).files == map[] ==> stores[k + 1] == s)
      && (OutcomeOf(w, s, r).NoSourceFiles? <==> Rescan(w', r.tree).files == map[] && !Trusting(w, s, r))
  {
    hide Injective, Honest, NextStore, StoreSound, AllHonest, UpToDate, Rescan, Trusting, FiltersAgree, OutcomeOf;
    StaysSound(w, names, stores, requests, k);
    RunAt(w, names, stores, requests, k);
    RunExact(w, names, stores[k], requests[k]);
  }
}
