/** Keeping the records of the vector store equal to the chunks of the indexed files
    (handlers_indexing.go, vector_resilience.go). The store holds the record ids of one
    namespace; the index remembers, for every path, the ids of its chunks. */
module VectorSync {
  import opened Common
  import opened Text
  import opened Chunking
  import opened IndexFiles

  // ----- the store, and calls that may fail -----

  datatype Request = Upsert(ids: seq<ChunkId>) | Delete(ids: seq<ChunkId>)

  /** The store's answer to one call. A call that fails may have been carried out in part,
      and its error may be worth another attempt. */
  datatype Answer = Done | Failed(retryable: bool, applied: set<ChunkId>)

  ghost function Ids(s: seq<ChunkId>): set<ChunkId> {
    set c | c in s
  }

  ghost function Applied(ids: set<ChunkId>, request: Request, part: set<ChunkId>): set<ChunkId> {
    match request
    case Upsert(s) => ids + Ids(s) * part
    case Delete(s) => ids - Ids(s) * part
  }

  class VectorBackend {
    var ids: set<ChunkId>
    var calls: nat
    const answers: nat -> Answer

    constructor (answers: nat -> Answer)
      ensures ids == {} && calls == 0 && this.answers == answers
    {
      this.answers := answers;
      ids, calls := {}, 0;
    }

    method Perform(request: Request) returns (answer: Answer)
      modifies this
      ensures calls == old(calls) + 1 && answer == answers(old(calls))
      ensures ids == Applied(old(ids), request, if answer.Done? then Ids(request.ids) else answer.applied)
    {
      answer := answers(calls);
      calls := calls + 1;
      var part := if answer.Done? then (set c | c in request.ids) else answer.applied;
      match request {
        case Upsert(s) => ids := ids + (set c | c in s) * part;
        case Delete(s) => ids := ids - (set c | c in s) * part;
      }
    }
  }

  const MAX_ATTEMPTS := 3
  const UPSERT_BATCH_SIZE := 128
  const DELETE_BATCH_SIZE := 256

  /** Where a request that may have been carried out in part leaves the store. */
  ghost predicate Between(before: set<ChunkId>, after: set<ChunkId>, request: Request) {
    match request
    case Upsert(s) => before <= after <= before + Ids(s)
    case Delete(s) => before - Ids(s) <= after <= before
  }

  /** `runVectorOperationWithRetry`. `ended` says whether the caller's context is found ended
      before the n-th call to the store; then no attempt is made. There are at most three
      attempts, another only after a retryable error, and none after a success. An attempt in
      vain does no harm: the requests can be repeated. (A wait that is cut short counts as an
      error not worth a retry.) */
  method RunVectorOperationWithRetry(backend: VectorBackend, request: Request, ended: nat -> bool) returns (ok: bool)
    modifies backend
    ensures old(backend.calls) <= backend.calls <= old(backend.calls) + 3
    ensures ok <==> backend.calls > old(backend.calls) && backend.answers(backend.calls - 1).Done?
    ensures forall k :: old(backend.calls) <= k < backend.calls ==> !ended(k)
    ensures forall k :: old(backend.calls) <= k < backend.calls - 1
              ==> backend.answers(k).Failed? && backend.answers(k).retryable
    ensures !ok ==> ended(backend.calls) || backend.calls == old(backend.calls) + 3
                    || (backend.calls > old(backend.calls) && !backend.answers(backend.calls - 1).retryable)
    ensures Between(old(backend.ids), backend.ids, request)
    ensures ok ==> backend.ids == Applied(old(backend.ids), request, Ids(request.ids))
  {
    var attempt := 1;
    while true
      invariant 1 <= attempt <= MAX_ATTEMPTS && backend.calls == old(backend.calls) + attempt - 1
      invariant forall k :: old(backend.calls) <= k < backend.calls
                  ==> !ended(k) && backend.answers(k).Failed? && backend.answers(k).retryable
      invariant Between(old(backend.ids), backend.ids, request)
      decreases MAX_ATTEMPTS - attempt
    {
      if ended(backend.calls) {
        return false;
      }
      var answer := backend.Perform(request);
      if answer.Done? {
        return true;
      }
      if !answer.retryable || attempt == MAX_ATTEMPTS {
        return false;
      }
      attempt := attempt + 1;
    }
  }

  // ----- batches -----

  ghost function Flatten<T>(batches: seq<seq<T>>): seq<T> {
    if batches == [] then [] else batches[0] + Flatten(batches[1..])
  }

  lemma {:induction false} FlattenAppend<T>(batches: seq<seq<T>>, last: seq<T>)
    ensures Flatten(batches + [last]) == Flatten(batches) + last
  {
    if batches == [] {
      assert [last][1..] == [];
    } else {
      FlattenAppend(batches[1..], last);
      assert (batches + [last])[1..] == batches[1..] + [last];
    }
  }

  /** `splitVectorRecordBatches` and `splitVectorIDBatches`: nothing is lost, repeated or
      reordered, no batch is empty, and only the last may be short. */
  method SplitBatches<T>(items: seq<T>, batchSize: int) returns (batches: seq<seq<T>>)
    ensures Flatten(batches) == items
    ensures batchSize <= 0 ==> |batches| <= 1
    ensures batchSize > 0 ==>
              (forall i :: 0 <= i < |batches| ==> 0 < |batches[i]| <= batchSize)
              && (forall i :: 0 <= i < |batches| - 1 ==> |batches[i]| == batchSize)
    ensures forall i :: 0 <= i < |batches| ==> batches[i] != []
    ensures batchSize > 0 && items != [] ==> batchSize * (|batches| - 1) < |items| <= batchSize * |batches|
  {
    batches := [];
    if |items| == 0 {
      return;
    }
    var size := if batchSize <= 0 then |items| else batchSize;
    var start := 0;
    while start < |items|
      invariant 0 <= start == size * |batches| && (start > 0 ==> size * (|batches| - 1) < |items|)
      invariant Flatten(batches) == items[..if start <= |items| then start else |items|]
      invariant forall i :: 0 <= i < |batches| ==> 0 < |batches[i]| <= size
      invariant start < |items| ==> forall i :: 0 <= i < |batches| ==> |batches[i]| == size
      invariant forall i :: 0 <= i < |batches| - 1 ==> |batches[i]| == size
      invariant batchSize <= 0 ==> |batches| <= (if start == 0 then 0 else 1)
      decreases |items| - start
    {
      var end := start + size;
      if end > |items| {
        end := |items|;
      }
      FlattenAppend(batches, items[start..end]);
      assert items[..start] + items[start..end] == items[..end];
      assert size * (|batches| + 1) == start + size;
      batches := batches + [items[start..end]];
      start := start + size;
    }
    assert items[..|items|] == items;
  }

  lemma FlattenUpTo<T>(batches: seq<seq<T>>, i: nat)
    requires i < |batches|
    ensures Flatten(batches[..i + 1]) == Flatten(batches[..i]) + batches[i]
  {
    assert batches[..i + 1] == batches[..i] + [batches[i]];
    FlattenAppend(batches[..i], batches[i]);
  }

  lemma {:induction false} FlattenSplit<T>(batches: seq<seq<T>>, i: nat)
    requires i <= |batches|
    ensures Flatten(batches) == Flatten(batches[..i]) + Flatten(batches[i..])
  {
    if i == 0 {
      assert batches[..0] == [] && batches[0..] == batches;
    } else {
      FlattenSplit(batches[1..], i - 1);
      assert batches[..i][1..] == batches[1..][..i - 1] && batches[i..] == batches[1..][i - 1..];
    }
  }

  /** From this call on the store did what it was asked, and the caller's context has not ended. */
  ghost predicate AllDone(backend: VectorBackend, from: nat, ended: nat -> bool)
    reads backend
  {
    forall k :: from <= k <= backend.calls ==> backend.answers(k).Done? && !ended(k)
  }

  /** The two loops over batches. */
  method PerformBatches(backend: VectorBackend, batches: seq<seq<ChunkId>>, upsert: bool, ended: nat -> bool)
    returns (ok: bool)
    modifies backend
    ensures var all := Flatten(batches);
      Between(old(backend.ids), backend.ids, if upsert then Upsert(all) else Delete(all))
      && (ok ==> backend.ids == if upsert then old(backend.ids) + Ids(all) else old(backend.ids) - Ids(all))
    ensures old(backend.calls) <= backend.calls
    ensures ok && batches != [] ==> backend.calls > old(backend.calls) && backend.answers(backend.calls - 1).Done?
    ensures AllDone(backend, old(backend.calls), ended) ==> ok && backend.calls == old(backend.calls) + |batches|
  {
    hide Flatten;
    FlattenNil<ChunkId>();
    for i := 0 to |batches|
      invariant var part := Ids(Flatten(batches[..i]));
        backend.ids == if upsert then old(backend.ids) + part else old(backend.ids) - part
      invariant old(backend.calls) <= backend.calls
      invariant i > 0 ==> backend.calls > old(backend.calls) && backend.answers(backend.calls - 1).Done?
      invariant AllDone(backend, old(backend.calls), ended) ==> backend.calls == old(backend.calls) + i
    {
      FlattenUpTo(batches, i);
      FlattenSplit(batches, i + 1);
      ghost var calls := backend.calls;
      ok := RunVectorOperationWithRetry(backend, if upsert then Upsert(batches[i]) else Delete(batches[i]), ended);
      assert AllDone(backend, old(backend.calls), ended) ==> backend.answers(calls).Done?;
      if !ok {
        return;
      }
    }
    assert batches[..|batches|] == batches;
    ok := true;
  }

  lemma FlattenNil<T>()
    ensures Flatten<T>([]) == []
  {}

  // ----- the chunks of the files to upsert -----

  type ChunkIndex = map<string, set<ChunkId>>

  ghost function ChunkSet(repo: string, path: string, content: string): set<ChunkId> {
    Ids(ChunksOf(repo, path, content, DEFAULT_MAX_LINES, DEFAULT_MAX_CHARACTERS))
  }

  function IdsAt(m: ChunkIndex, p: string): set<ChunkId> {
    if p in m then m[p] else {}
  }

  lemma ChunkSetPath(repo: string, path: string, content: string)
    ensures forall c :: c in ChunkSet(repo, path, content) ==> c.repo == repo && c.path == path
  {
    ChunksCover(repo, path, content, DEFAULT_MAX_LINES, DEFAULT_MAX_CHARACTERS);
  }

  /** The ids a path has now: those of its content, if it can be read. */
  ghost function CurrentIds(repo: string, contents: map<string, string>, paths: set<string>, p: string): set<ChunkId> {
    if p in paths && p in contents then ChunkSet(repo, p, contents[p]) else {}
  }

  /** How many chunks the readable files among these paths have. */
  ghost function ChunkCount(repo: string, contents: map<string, string>, paths: seq<string>): nat {
    if paths == [] then 0
    else
      var path := paths[|paths| - 1];
      ChunkCount(repo, contents, paths[..|paths| - 1])
      + if path in contents then |ChunksOf(repo, path, contents[path], DEFAULT_MAX_LINES, DEFAULT_MAX_CHARACTERS)| else 0
  }

  /** `buildDeterministicChunkMetadata` over the readable files, in path order. */
  method BuildChunks(repo: string, paths: seq<string>, contents: map<string, string>) returns (chunks: seq<ChunkId>)
    ensures forall c :: c in chunks <==> c in CurrentIds(repo, contents, Members(paths), c.path)
    ensures |chunks| == ChunkCount(repo, contents, paths)
  {
    chunks := [];
    for i := 0 to |paths|
      invariant |chunks| == ChunkCount(repo, contents, paths[..i])
      invariant forall c :: c in chunks <==> c in CurrentIds(repo, contents, Members(paths[..i]), c.path)
    {
      hide ChunkSet, ChunksOf;
      var path := paths[i];
      ghost var before := Members(paths[..i]);
      assert paths[..i + 1][..i] == paths[..i];
      assert Members(paths[..i + 1]) == before + {path};
      if path in contents {
        var some := ChunkFile(repo, path, contents[path], DEFAULT_MAX_LINES, DEFAULT_MAX_CHARACTERS);
        ChunkSetPath(repo, path, contents[path]);
        SeqOfSet(repo, path, contents[path]);
        chunks := chunks + some;
      }
    }
    assert paths[..|paths|] == paths;
  }

  lemma SeqOfSet(repo: string, path: string, content: string)
    ensures forall c :: c in ChunkSet(repo, path, content)
              <==> c in ChunksOf(repo, path, content, DEFAULT_MAX_LINES, DEFAULT_MAX_CHARACTERS)
  {}

  /** `collectChunkIDsByPath` */
  method CollectChunkIDsByPath(chunks: seq<ChunkId>) returns (byPath: ChunkIndex)
    ensures forall c :: c in chunks <==> c in IdsAt(byPath, c.path)
    ensures forall p :: p in byPath ==> byPath[p] != {} && forall c :: c in byPath[p] ==> c.path == p
  {
    byPath := map[];
    for i := 0 to |chunks|
      invariant forall c :: c in chunks[..i] <==> c in IdsAt(byPath, c.path)
      invariant forall p :: p in byPath ==> byPath[p] != {} && forall c :: c in byPath[p] ==> c.path == p
    {
      var chunk := chunks[i];
      assert chunks[..i + 1] == chunks[..i] + [chunk];
      byPath := byPath[chunk.path := IdsAt(byPath, chunk.path) + {chunk}];
    }
    assert chunks[..|chunks|] == chunks;
  }

  /** What is configured, and how many vectors the embedder returns (None when it fails, however
      often it was tried). */
  datatype Dependencies = Dependencies(embedder: bool, backend: bool, embedded: Option<nat>)

  ghost function AllIds(repo: string, contents: map<string, string>, paths: set<string>): set<ChunkId> {
    set p, c | p in paths && c in CurrentIds(repo, contents, paths, p) :: c
  }

  ghost predicate Describes(repo: string, contents: map<string, string>, paths: set<string>, byPath: ChunkIndex) {
    (forall p :: IdsAt(byPath, p) == CurrentIds(repo, contents, paths, p)) && forall p :: p in byPath ==> byPath[p] != {}
  }

  lemma CollectedDescribes(repo: string, contents: map<string, string>, paths: set<string>, chunks: seq<ChunkId>,
                           byPath: ChunkIndex)
    requires forall c :: c in chunks <==> c in CurrentIds(repo, contents, paths, c.path)
    requires forall c :: c in chunks <==> c in IdsAt(byPath, c.path)
    requires forall p :: p in byPath ==> byPath[p] != {} && forall c :: c in byPath[p] ==> c.path == p
    ensures Describes(repo, contents, paths, byPath) && Ids(chunks) == AllIds(repo, contents, paths)
  {
    hide ChunkSet;
    forall p | p in contents ensures forall c :: c in ChunkSet(repo, p, contents[p]) ==> c.path == p {
      ChunkSetPath(repo, p, contents[p]);
    }
    forall p ensures IdsAt(byPath, p) == CurrentIds(repo, contents, paths, p) {
      forall c ensures c in IdsAt(byPath, p) <==> c in CurrentIds(repo, contents, paths, p) {
        if c in IdsAt(byPath, p) { assert c.path == p; }
        if c in CurrentIds(repo, contents, paths, p) { assert c.path == p; }
      }
    }
    forall c ensures c in Ids(chunks) <==> c in AllIds(repo, contents, paths) {
      if c in chunks { assert c in CurrentIds(repo, contents, paths, c.path); }
    }
  }

  /** `upsertIndexedVectorFilesWithChunkIDs` */
  method UpsertIndexedVectorFiles(backend: VectorBackend, deps: Dependencies, repo: string, paths: seq<string>,
                                  contents: map<string, string>, ended: nat -> bool)
    returns (ok: bool, byPath: ChunkIndex)
    modifies backend
    ensures ok && deps.embedder && deps.backend ==>
              Describes(repo, contents, Members(paths), byPath)
              && backend.ids == old(backend.ids) + AllIds(repo, contents, Members(paths))
    ensures !(deps.embedder && deps.backend) ==> ok && byPath == map[] && backend.ids == old(backend.ids)
    ensures old(backend.ids) <= backend.ids <= old(backend.ids) + AllIds(repo, contents, Members(paths))
    ensures old(backend.calls) <= backend.calls
    ensures deps.embedder && deps.backend ==>
              var count := ChunkCount(repo, contents, paths);
              (count == 0 ==> ok && backend.calls == old(backend.calls))
              && (count > 0 && deps.embedded != Some(count) ==> !ok && backend.calls == old(backend.calls))
              && (count > 0 && ok ==> backend.calls > old(backend.calls) && backend.answers(backend.calls - 1).Done?)
              && (deps.embedded == Some(count) && AllDone(backend, old(backend.calls), ended) ==>
                    ok && (count > 0 ==> var n := backend.calls - old(backend.calls); 128 * (n - 1) < count <= 128 * n))
  {
    hide ChunkSet, Describes, AllIds, Flatten, CurrentIds, ChunkCount;
    byPath := map[];
    if !deps.embedder || !deps.backend {
      return true, byPath;
    }
    var chunks := BuildChunks(repo, paths, contents);
    var collected := CollectChunkIDsByPath(chunks);
    CollectedDescribes(repo, contents, Members(paths), chunks, collected);
    if |chunks| == 0 {
      NothingCollected(collected, chunks);
      return true, byPath;
    }
    if deps.embedded != Some(|chunks|) {
      return false, byPath;
    }
    var batches := SplitBatches(chunks, UPSERT_BATCH_SIZE);
    assert batches != [] by { FlattenNil<ChunkId>(); }
    ok := PerformBatches(backend, batches, true, ended);
    byPath := if ok then collected else map[];
  }

  lemma NothingCollected(byPath: ChunkIndex, chunks: seq<ChunkId>)
    requires chunks == []
    requires forall c :: c in chunks <==> c in IdsAt(byPath, c.path)
    requires forall p :: p in byPath ==> byPath[p] != {} && forall c :: c in byPath[p] ==> c.path == p
    ensures byPath == map[]
  {
    assert forall p :: p in byPath ==> forall c :: c in byPath[p] ==> c in IdsAt(byPath, c.path);
  }

  // ----- what is stale -----

  /** The ids of a path that an update makes stale: all of a deleted path, and of an upserted
      path those it does not have any more. */
  function StaleAt(prior: ChunkIndex, next: ChunkIndex, upserted: set<string>, deleted: set<string>, p: string): set<ChunkId> {
    (if p in deleted then IdsAt(prior, p) else {}) + (if p in upserted then IdsAt(prior, p) - IdsAt(next, p) else {})
  }

  ghost function Stale(prior: ChunkIndex, next: ChunkIndex, upserted: set<string>, deleted: set<string>): set<ChunkId> {
    set p, c | p in prior && c in StaleAt(prior, next, upserted, deleted, p) :: c
  }

  /** What the index remembers of a path after the update. */
  function RememberedAt(prior: ChunkIndex, next: ChunkIndex, upserted: set<string>, deleted: set<string>, p: string): set<ChunkId> {
    if p in upserted then IdsAt(next, p) else if p in deleted then {} else IdsAt(prior, p)
  }

  ghost predicate Remembers(after: ChunkIndex, prior: ChunkIndex, next: ChunkIndex, upserted: set<string>, deleted: set<string>) {
    forall p :: IdsAt(after, p) == RememberedAt(prior, next, upserted, deleted, p)
  }

  /** Every remembered path has ids, and only its own. */
  ghost predicate OwnPaths(m: ChunkIndex) {
    forall p :: p in m ==> m[p] != {} && forall c :: c in m[p] ==> c.path == p
  }

  method CollectStale(prior: ChunkIndex, next: ChunkIndex, upserted: seq<string>, deleted: seq<string>)
    returns (stale: set<ChunkId>)
    ensures stale == Stale(prior, next, Members(upserted), Members(deleted))
  {
    stale := {};
    for i := 0 to |deleted|
      invariant forall c :: c in stale <==> exists p :: p in deleted[..i] && c in IdsAt(prior, p)
    {
      assert deleted[..i + 1] == deleted[..i] + [deleted[i]];
      stale := stale + IdsAt(prior, deleted[i]);
    }
    assert deleted[..|deleted|] == deleted;
    ghost var fromDeleted := stale;
    assert forall c :: c in fromDeleted <==> exists p :: p in deleted && c in IdsAt(prior, p);
    for i := 0 to |upserted|
      invariant forall c :: c in stale <==>
                (c in fromDeleted || exists p :: p in upserted[..i] && c in IdsAt(prior, p) - IdsAt(next, p))
    {
      assert upserted[..i + 1] == upserted[..i] + [upserted[i]];
      stale := stale + (IdsAt(prior, upserted[i]) - IdsAt(next, upserted[i]));
    }
    assert upserted[..|upserted|] == upserted;
    forall c ensures c in stale <==> c in Stale(prior, next, Members(upserted), Members(deleted)) {
      if c in stale {
        var p :| if c in fromDeleted then p in deleted && c in IdsAt(prior, p)
                 else p in upserted && c in IdsAt(prior, p) - IdsAt(next, p);
        assert p in prior && c in StaleAt(prior, next, Members(upserted), Members(deleted), p);
      }
      if c in Stale(prior, next, Members(upserted), Members(deleted)) {
        var p :| p in prior && c in StaleAt(prior, next, Members(upserted), Members(deleted), p);
        assert (p in deleted && c in IdsAt(prior, p)) || (p in upserted && c in IdsAt(prior, p) - IdsAt(next, p));
      }
    }
  }

  /** A set as a slice without repetitions. */
  method Listing(members: set<ChunkId>) returns (ids: seq<ChunkId>)
    ensures Ids(ids) == members && |ids| == |members|
  {
    ids := [];
    var todo := members;
    while todo != {}
      invariant todo <= members && Ids(ids) == members - todo && |ids| + |todo| == |members|
      decreases |todo|
    {
      var c :| c in todo;
      todo := todo - {c};
      assert Ids(ids + [c]) == Ids(ids) + {c};
      ids := ids + [c];
    }
  }

  // ----- the synchronized index -----

  class VectorIndex {
    var chunkIDs: ChunkIndex

    constructor ()
      ensures chunkIDs == map[]
    {
      chunkIDs := map[];
    }

    /** `syncVectorIndexMetadata` and `deleteVectorRecordIDs`: delete what is stale, then
        remember what is there. Nothing is remembered differently when the deletion fails. */
    method SyncVectorIndexMetadata(backend: VectorBackend, hasBackend: bool, upserted: seq<string>, deleted: seq<string>,
                                   next: ChunkIndex, ended: nat -> bool) returns (ok: bool)
      requires OwnPaths(chunkIDs)
      requires forall p :: p in next ==> next[p] != {} && forall c :: c in next[p] ==> c.path == p
      modifies this, backend
      ensures OwnPaths(chunkIDs)
      ensures var stale := Stale(old(chunkIDs), next, Members(upserted), Members(deleted));
        old(backend.ids) - stale <= backend.ids <= old(backend.ids)
        && (ok && hasBackend ==>
              backend.ids == old(backend.ids) - stale
              && Remembers(chunkIDs, old(chunkIDs), next, Members(upserted), Members(deleted)))
      ensures !hasBackend ==> ok && backend.ids == old(backend.ids)
      ensures !(ok && hasBackend) ==> chunkIDs == old(chunkIDs)
      ensures old(backend.calls) <= backend.calls
      ensures var stale := Stale(old(chunkIDs), next, Members(upserted), Members(deleted));
        (hasBackend && stale == {} ==> ok && backend.calls == old(backend.calls))
        && (hasBackend && stale != {} && ok ==> backend.calls > old(backend.calls) && backend.answers(backend.calls - 1).Done?)
      ensures AllDone(backend, old(backend.calls), ended) ==>
                ok && (hasBackend ==>
                         var n := backend.calls - old(backend.calls);
                         var count := |Stale(old(chunkIDs), next, Members(upserted), Members(deleted))|;
                         if count == 0 then n == 0 else 256 * (n - 1) < count <= 256 * n)
    {
      hide Stale, Flatten;
      if !hasBackend {
        return true;
      }
      var stale := CollectStale(chunkIDs, next, upserted, deleted);
      if stale != {} {
        var ids := Listing(stale);
        var batches := SplitBatches(ids, DELETE_BATCH_SIZE);
        assert batches != [] by { FlattenNil<ChunkId>(); }
        ok := PerformBatches(backend, batches, false, ended);
        if !ok {
          return;
        }
      }
      var after := Remember(chunkIDs, next, upserted, deleted);
      chunkIDs := after;
      ok := true;
    }

    /** `syncRemoteIndexVectors` and `syncLocalIndexVectors`: embed and store the chunks of the
        changed and new files, then drop what is stale. `contents` holds the files that can
        be read. Even a sync that fails loses no id that its path still has. */
    method SyncIndexVectors(backend: VectorBackend, deps: Dependencies, repo: string, contents: map<string, string>,
                            changed: seq<string>, created: seq<string>, deleted: seq<string>, ended: nat -> bool)
      returns (ok: bool)
      requires OwnPaths(chunkIDs)
      modifies this, backend
      ensures OwnPaths(chunkIDs)
      ensures var upserted := if deps.embedder then Members(changed) + Members(created) else {};
        (ok && deps.backend ==> SyncStep(repo, contents, upserted, Members(deleted), old(backend.ids), old(chunkIDs),
                                         backend.ids, chunkIDs))
        && (forall c :: c in old(backend.ids) && c !in backend.ids ==>
              c.path in deleted || (c.path in upserted && c !in CurrentIds(repo, contents, upserted, c.path)))
        && backend.ids <= old(backend.ids) + AllIds(repo, contents, upserted)
      ensures !(ok && deps.backend) ==> chunkIDs == old(chunkIDs)
      ensures !deps.backend ==> ok && backend.ids == old(backend.ids)
      ensures old(backend.calls) <= backend.calls
      ensures deps.embedder && deps.backend ==>
                forall paths :: Lists(paths, Members(changed) + Members(created)) ==>
                  var count := ChunkCount(repo, contents, paths);
                  (count > 0 && deps.embedded != Some(count) ==> !ok && backend.calls == old(backend.calls))
                  && (count > 0 && ok ==> backend.calls > old(backend.calls))
                  && ((count == 0 || deps.embedded == Some(count)) && AllDone(backend, old(backend.calls), ended) ==> ok)
      ensures !deps.embedder && AllDone(backend, old(backend.calls), ended) ==> ok
    {
      hide ChunkCount, Describes, AllIds, Stale, CurrentIds, Lists, SyncStep, Remembers;
      var upserted := SortedMembers(Members(changed) + Members(created));
      ListedMembers(upserted, Members(changed) + Members(created));
      forall paths | Lists(paths, Members(changed) + Members(created)) ensures paths == upserted {
        SortedListingUnique(paths, upserted, Members(changed) + Members(created));
      }
      NoChunks(repo, contents);
      if upserted != [] && !deps.embedder {
        upserted := [];
      }
      var deletedPaths := SortedMembers(Members(deleted));
      ListedMembers(deletedPaths, Members(deleted));
      var next: ChunkIndex := map[];
      ghost var paths := Members(upserted);
      NothingUpserted(repo, contents);
      assert upserted == [] ==> paths == {};
      if upserted != [] {
        ok, next := UpsertIndexedVectorFiles(backend, deps, repo, upserted, contents, ended);
        if !ok {
          return;
        }
      }
      if deps.backend {
        assert Describes(repo, contents, paths, next);
        DescribesOwn(repo, contents, paths, next);
      }
      ok := SyncVectorIndexMetadata(backend, deps.backend, upserted, deletedPaths, next, ended);
      if deps.backend {
        LostAreStale(repo, contents, old(chunkIDs), next, paths, Members(deleted));
        if ok {
          SyncTaken(repo, contents, old(chunkIDs), next, chunkIDs, paths, Members(deleted), old(backend.ids), backend.ids);
        }
      }
    }
  }

  /** One successful sync: upserted paths have the ids of their content, deleted ones none,
      all others keep theirs; and the store still equals what is remembered. */
  ghost predicate SyncStep(repo: string, contents: map<string, string>, upserted: set<string>, deleted: set<string>,
                           ids: set<ChunkId>, m: ChunkIndex, ids': set<ChunkId>, m': ChunkIndex) {
    OwnPaths(m')
    && (forall p :: IdsAt(m', p) == if p in upserted then CurrentIds(repo, contents, upserted, p)
                                    else if p in deleted then {} else IdsAt(m, p))
    && (ids == AllOf(m) && upserted !! deleted ==> ids' == AllOf(m'))
  }

  lemma NoChunks(repo: string, contents: map<string, string>)
    ensures ChunkCount(repo, contents, []) == 0
  {}

  lemma NothingUpserted(repo: string, contents: map<string, string>)
    ensures Describes(repo, contents, {}, map[]) && AllIds(repo, contents, {}) == {}
  {}

  lemma DescribesOwn(repo: string, contents: map<string, string>, paths: set<string>, next: ChunkIndex)
    requires Describes(repo, contents, paths, next)
    ensures OwnPaths(next) && AllOf(next) == AllIds(repo, contents, paths) && forall p :: p in next ==> p in paths
  {
    hide ChunkSet;
    forall p | p in contents ensures forall c :: c in ChunkSet(repo, p, contents[p]) ==> c.path == p {
      ChunkSetPath(repo, p, contents[p]);
    }
    forall p | p in next ensures p in paths && forall c :: c in next[p] ==> c.path == p {
      assert IdsAt(next, p) == CurrentIds(repo, contents, paths, p);
    }
    forall c ensures c in AllOf(next) <==> c in AllIds(repo, contents, paths) {
      if p :| p in next && c in next[p] {
        assert c in CurrentIds(repo, contents, paths, p);
      }
      if p :| p in paths && c in CurrentIds(repo, contents, paths, p) {
        assert c in IdsAt(next, p);
      }
    }
  }

  lemma LostAreStale(repo: string, contents: map<string, string>, prior: ChunkIndex, next: ChunkIndex, upserted: set<string>,
                     deleted: set<string>)
    requires OwnPaths(prior) && Describes(repo, contents, upserted, next)
    ensures forall c :: c in Stale(prior, next, upserted, deleted) ==>
              c.path in deleted || (c.path in upserted && c !in CurrentIds(repo, contents, upserted, c.path))
  {
    hide CurrentIds;
    forall c | c in Stale(prior, next, upserted, deleted)
      ensures c.path in deleted || (c.path in upserted && c !in CurrentIds(repo, contents, upserted, c.path))
    {
      StaleMember(prior, next, upserted, deleted, c);
      assert IdsAt(next, c.path) == CurrentIds(repo, contents, upserted, c.path);
    }
  }

  lemma SyncTaken(repo: string, contents: map<string, string>, prior: ChunkIndex, next: ChunkIndex, after: ChunkIndex,
                  upserted: set<string>, deleted: set<string>, ids: set<ChunkId>, ids': set<ChunkId>)
    requires OwnPaths(prior) && OwnPaths(after) && Describes(repo, contents, upserted, next)
    requires Remembers(after, prior, next, upserted, deleted)
    requires ids' == ids + AllIds(repo, contents, upserted) - Stale(prior, next, upserted, deleted)
    ensures SyncStep(repo, contents, upserted, deleted, ids, prior, ids', after)
  {
    DescribesOwn(repo, contents, upserted, next);
    hide CurrentIds, AllIds, AllOf, Stale;
    if ids == AllOf(prior) && upserted !! deleted {
      SyncKeepsEqual(prior, next, after, upserted, deleted);
    }
  }

  /** The last two loops of `syncVectorIndexMetadata`. */
  method Remember(prior0: ChunkIndex, next: ChunkIndex, upserted: seq<string>, deleted: seq<string>)
    returns (after: ChunkIndex)
    requires OwnPaths(prior0) && OwnPaths(next)
    ensures OwnPaths(after) && Remembers(after, prior0, next, Members(upserted), Members(deleted))
  {
    after := prior0;
    for i := 0 to |deleted|
      invariant OwnPaths(after)
      invariant forall p :: IdsAt(after, p) == if p in deleted[..i] then {} else IdsAt(prior0, p)
    {
      assert deleted[..i + 1] == deleted[..i] + [deleted[i]];
      after := after - {deleted[i]};
    }
    assert deleted[..|deleted|] == deleted;
    ghost var dropped := after;
    for i := 0 to |upserted|
      invariant OwnPaths(after)
      invariant forall p :: IdsAt(after, p) == if p in upserted[..i] then IdsAt(next, p) else IdsAt(dropped, p)
    {
      assert upserted[..i + 1] == upserted[..i] + [upserted[i]];
      if IdsAt(next, upserted[i]) == {} {
        after := after - {upserted[i]};
      } else {
        after := after[upserted[i] := IdsAt(next, upserted[i])];
      }
    }
    assert upserted[..|upserted|] == upserted;
  }

  // ----- the store equals what the index remembers -----

  ghost function AllOf(m: ChunkIndex): set<ChunkId> {
    set p, c | p in m && c in m[p] :: c
  }

  lemma AllOfMember(m: ChunkIndex, c: ChunkId)
    requires OwnPaths(m)
    ensures c in AllOf(m) <==> c in IdsAt(m, c.path)
  {}

  /** The deletion removes no id that any path has after the update, provided no path is
      both upserted and deleted; and with overlapping lists it does so exactly for the ids
      such a path keeps. */
  lemma StaleIsNotLive(prior: ChunkIndex, next: ChunkIndex, after: ChunkIndex, upserted: set<string>, deleted: set<string>)
    requires OwnPaths(prior) && OwnPaths(next) && OwnPaths(after) && Remembers(after, prior, next, upserted, deleted)
    ensures Stale(prior, next, upserted, deleted) !! AllOf(after)
       <==> forall p :: p in upserted && p in deleted ==> IdsAt(prior, p) !! IdsAt(next, p)
  {
    var stale := Stale(prior, next, upserted, deleted);
    forall c ensures c in stale && c in AllOf(after)
                <==> c.path in upserted && c.path in deleted && c in IdsAt(prior, c.path) && c in IdsAt(next, c.path)
    {
      AllOfMember(after, c);
      StaleMember(prior, next, upserted, deleted, c);
    }
    if stale !! AllOf(after) {
      forall p | p in upserted && p in deleted ensures IdsAt(prior, p) !! IdsAt(next, p) {
        forall c | c in IdsAt(prior, p) ensures c !in IdsAt(next, p) { assert c.path == p; }
      }
    } else {
      var c :| c in stale && c in AllOf(after);
      assert c in IdsAt(prior, c.path) && c in IdsAt(next, c.path);
    }
  }

  lemma StaleMember(prior: ChunkIndex, next: ChunkIndex, upserted: set<string>, deleted: set<string>, c: ChunkId)
    requires OwnPaths(prior)
    ensures c in Stale(prior, next, upserted, deleted) <==> c in StaleAt(prior, next, upserted, deleted, c.path)
  {
    if c in StaleAt(prior, next, upserted, deleted, c.path) {
      assert c.path in prior;
    }
  }

  /** The update keeps the store equal to the union of the remembered ids. */
  lemma SyncKeepsEqual(prior: ChunkIndex, next: ChunkIndex, after: ChunkIndex, upserted: set<string>, deleted: set<string>)
    requires OwnPaths(prior) && OwnPaths(next) && OwnPaths(after) && Remembers(after, prior, next, upserted, deleted)
    requires upserted !! deleted && forall p :: p in next ==> p in upserted
    ensures AllOf(prior) + AllOf(next) - Stale(prior, next, upserted, deleted) == AllOf(after)
  {
    forall c ensures c in AllOf(prior) + AllOf(next) - Stale(prior, next, upserted, deleted) <==> c in AllOf(after) {
      AllOfMember(prior, c);
      AllOfMember(next, c);
      AllOfMember(after, c);
      StaleMember(prior, next, upserted, deleted, c);
    }
  }

  // ----- any sequence of successful syncs -----

  /** The listing of hashes that the index stores for these contents. */
  function Hashes(hash: string -> string, contents: map<string, string>): map<string, string> {
    map p | p in contents :: hash(contents[p])
  }

  ghost predicate NoCollisions(hash: string -> string) {
    forall a, b :: hash(a) == hash(b) ==> a == b
  }

  function ToUpsert(hash: string -> string, was: map<string, string>, now: map<string, string>): set<string> {
    set p | p in now && (p !in was || hash(was[p]) != hash(now[p]))
  }

  /** The store and the index hold the chunks of these files and nothing else. */
  ghost predicate Mirrors(repo: string, contents: map<string, string>, ids: set<ChunkId>, m: ChunkIndex) {
    OwnPaths(m) && ids == AllOf(m) && forall p :: IdsAt(m, p) == CurrentIds(repo, contents, contents.Keys, p)
  }

  /** The lists that the hash comparison gives are what an upsert needs: they do not overlap,
      and every file left out has the content it had. */
  lemma DiffIsEnough(hash: string -> string, was: map<string, string>, now: map<string, string>)
    requires NoCollisions(hash)
    ensures var before, after := Hashes(hash, was), Hashes(hash, now);
      ChangedKeys(before, after) + (after.Keys - before.Keys) == ToUpsert(hash, was, now)
      && before.Keys - after.Keys == was.Keys - now.Keys
    ensures ToUpsert(hash, was, now) !! was.Keys - now.Keys
    ensures forall p :: p in now && p !in ToUpsert(hash, was, now) ==> p in was && was[p] == now[p]
  {}

  /** A sync takes a mirror of the old files to a mirror of the new, if it upserts at least
      the files the hash comparison names (a comparison of blob ids may name more). */
  lemma SyncMirrors(repo: string, hash: string -> string, was: map<string, string>, now: map<string, string>,
                    upserted: set<string>, fetched: map<string, string>, before: Store, after: Store)
    requires NoCollisions(hash)
    requires Mirrors(repo, was, before.ids, before.remembered)
    requires Synced(repo, hash, was, now, upserted, fetched, before, after)
    ensures Mirrors(repo, now, after.ids, after.remembered)
  {
    DiffIsEnough(hash, was, now);
    hide ToUpsert, ChunkSet, AllOf, OwnPaths, CurrentIds, IdsAt, NoCollisions;
    forall p ensures IdsAt(after.remembered, p) == CurrentIds(repo, now, now.Keys, p) {
      assert IdsAt(before.remembered, p) == CurrentIds(repo, was, was.Keys, p);
      CurrentIdsAt(repo, was, was.Keys, p);
      CurrentIdsAt(repo, now, now.Keys, p);
      CurrentIdsAt(repo, fetched, upserted, p);
    }
  }

  lemma CurrentIdsAt(repo: string, contents: map<string, string>, paths: set<string>, p: string)
    ensures CurrentIds(repo, contents, paths, p)
         == if p in paths && p in contents then ChunkSet(repo, p, contents[p]) else {}
  {}

  datatype Store = Store(ids: set<ChunkId>, remembered: ChunkIndex)

  ghost predicate Synced(repo: string, hash: string -> string, was: map<string, string>, now: map<string, string>,
                         upserted: set<string>, fetched: map<string, string>, before: Store, after: Store) {
    ToUpsert(hash, was, now) <= upserted <= now.Keys
    && (forall p :: p in upserted ==> p in fetched && fetched[p] == now[p])
    && SyncStep(repo, fetched, upserted, was.Keys - now.Keys, before.ids, before.remembered, after.ids, after.remembered)
  }

  /** What a caller of the sync has to see to. */
  lemma SyncedBy(repo: string, hash: string -> string, was: map<string, string>, now: map<string, string>,
                 upserted: set<string>, deleted: set<string>, fetched: map<string, string>, before: Store, after: Store)
    requires ToUpsert(hash, was, now) <= upserted <= now.Keys && deleted == was.Keys - now.Keys
    requires forall p :: p in upserted ==> p in fetched && fetched[p] == now[p]
    requires SyncStep(repo, fetched, upserted, deleted, before.ids, before.remembered, after.ids, after.remembered)
    ensures Synced(repo, hash, was, now, upserted, fetched, before, after)
  {
    hide SyncStep, ToUpsert;
  }

  ghost predicate Syncs(repo: string, hash: string -> string, contents: seq<map<string, string>>,
                        upserted: seq<set<string>>, fetched: seq<map<string, string>>, stores: seq<Store>) {
    |stores| == |contents| == |fetched| == |upserted|
    && forall k :: 0 <= k < |contents| - 1 ==>
         Synced(repo, hash, contents[k], contents[k + 1], upserted[k], fetched[k], stores[k], stores[k + 1])
  }

  /** After any sequence of successful syncs the records of the namespace are exactly the
      chunks of the files in the index. */
  lemma {:induction false} StoreMirrorsFiles(repo: string, hash: string -> string, contents: seq<map<string, string>>,
                                             upserted: seq<set<string>>, fetched: seq<map<string, string>>,
                                             stores: seq<Store>, k: nat)
    requires NoCollisions(hash)
    requires Syncs(repo, hash, contents, upserted, fetched, stores) && k < |contents|
    requires Mirrors(repo, contents[0], stores[0].ids, stores[0].remembered)
    ensures Mirrors(repo, contents[k], stores[k].ids, stores[k].remembered)
    ensures forall c :: c in stores[k].ids <==> c.path in contents[k] && c in ChunkSet(repo, c.path, contents[k][c.path])
  {
    if k > 0 {
      StoreMirrorsFiles(repo, hash, contents, upserted, fetched, stores, k - 1);
      hide Mirrors, Synced, ChunkSet, NoCollisions;
      SyncMirrors(repo, hash, contents[k - 1], contents[k], upserted[k - 1], fetched[k - 1], stores[k - 1], stores[k]);
    }
    MirrorMembers(repo, contents[k], stores[k].ids, stores[k].remembered);
  }

  lemma MirrorMembers(repo: string, contents: map<string, string>, ids: set<ChunkId>, m: ChunkIndex)
    requires Mirrors(repo, contents, ids, m)
    ensures forall c :: c in ids <==> c.path in contents && c in ChunkSet(repo, c.path, contents[c.path])
  {
    hide ChunkSet;
    forall c ensures c in ids <==> c.path in contents && c in ChunkSet(repo, c.path, contents[c.path]) {
      AllOfMember(m, c);
      assert IdsAt(m, c.path) == CurrentIds(repo, contents, contents.Keys, c.path);
    }
  }
}
