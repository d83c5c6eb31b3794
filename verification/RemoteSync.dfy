/** Remote runs and their vector records together (handlers_indexing.go): the lists and the
    fetched files that a run of `RemoteIndex` hands to the sync of `VectorSync` are enough to
    keep the records equal to the chunks of the indexed files. */
module RemoteSync {
  import opened Common
  import opened IndexFiles
  import RemoteIndex
  import VectorSync

  /** The contents that the hashes of an index stand for. */
  ghost function StoredContents(names: RemoteIndex.Names, stored: Option<RemoteIndex.Index>): map<string, string> {
    if stored == None then map[] else map p | p in stored.value.files :: names.content(stored.value.files[p])
  }

  /** The two listings that a run compares, by blob ids or, for an index without any, by hashes. */
  ghost function Before(existing: RemoteIndex.Index): map<string, string> {
    if existing.fileBlobSHAs != map[] then existing.fileBlobSHAs else existing.files
  }

  ghost function After(existing: RemoteIndex.Index, updated: RemoteIndex.Index): map<string, string> {
    if existing.fileBlobSHAs != map[] then updated.fileBlobSHAs else updated.files
  }

  /** The paths a run on a loaded index gives to the sync, and the files it has fetched. */
  ghost function Upserted(existing: RemoteIndex.Index, updated: RemoteIndex.Index): set<string> {
    ChangedKeys(Before(existing), After(existing, updated)) + (After(existing, updated).Keys - Before(existing).Keys)
  }

  ghost function Fetched(w: RemoteIndex.World, existing: RemoteIndex.Index, tree: RemoteIndex.RemoteTree): map<string, string> {
    RemoteIndex.Subset(RemoteIndex.Contents(tree), RemoteIndex.PlannedFetch(existing, RemoteIndex.Blobs(w, tree)))
  }

  /** What an updated index holds at a path. */
  lemma UpdatedAt(w: RemoteIndex.World, names: RemoteIndex.Names, tree: RemoteIndex.RemoteTree, p: string)
    requires RemoteIndex.Injective(w, names) && RemoteIndex.Honest(w, names, tree)
    ensures var scan, blobs := RemoteIndex.Rescan(w, tree), RemoteIndex.Blobs(w, tree);
      (p in scan.files <==> p in scan.fileBlobSHAs)
      && (p in scan.files ==> p in tree.files && p in blobs && scan.fileBlobSHAs[p] == blobs[p]
                              && scan.files[p] == w.hash(tree.files[p].content)
                              && names.content(scan.files[p]) == tree.files[p].content == names.content(blobs[p]))
  {
    RemoteIndex.ListedAt(w, names, tree, p);
    RemoteIndex.RescanByNames(w, names, tree);
    hide RemoteIndex.Rescan, RemoteIndex.Blobs, RemoteIndex.SmallText, RemoteIndex.NormalizeBlob;
  }

  /** What a consistent index with blob ids holds at a path. */
  lemma StoredAt(w: RemoteIndex.World, names: RemoteIndex.Names, idx: RemoteIndex.Index, p: string)
    requires RemoteIndex.Injective(w, names) && RemoteIndex.Consistent(w, names, idx) && idx.fileBlobSHAs != map[]
    ensures p in idx.files <==> p in idx.fileBlobSHAs
    ensures p in idx.files ==> names.content(idx.files[p]) == names.content(idx.fileBlobSHAs[p])
  {
    hide RemoteIndex.NormalizeBlob, RemoteIndex.SmallText, LanguageCounts;
    assert p in idx.files ==> RemoteIndex.HashOfBlob(w, names, idx, p);
  }

  /** The index before an update, the tree it found and the index after it. */
  ghost predicate Update(w: RemoteIndex.World, names: RemoteIndex.Names, existing: RemoteIndex.Index,
                         tree: RemoteIndex.RemoteTree, updated: RemoteIndex.Index) {
    RemoteIndex.Injective(w, names) && RemoteIndex.Honest(w, names, tree) && RemoteIndex.Consistent(w, names, existing)
    && updated.files == RemoteIndex.Rescan(w, tree).files && updated.fileBlobSHAs == RemoteIndex.Rescan(w, tree).fileBlobSHAs
  }

  /** Everything the three indexes of an update say of one path. */
  lemma PathFacts(w: RemoteIndex.World, names: RemoteIndex.Names, existing: RemoteIndex.Index,
                  tree: RemoteIndex.RemoteTree, updated: RemoteIndex.Index, p: string)
    requires Update(w, names, existing, tree, updated)
    ensures var blobs := RemoteIndex.Blobs(w, tree);
      (p in updated.files <==> p in updated.fileBlobSHAs)
      && (p in updated.files ==> p in tree.files && p in blobs && updated.fileBlobSHAs[p] == blobs[p]
                                 && updated.files[p] == w.hash(tree.files[p].content)
                                 && names.content(updated.files[p]) == tree.files[p].content == names.content(blobs[p]))
    ensures existing.fileBlobSHAs != map[] ==>
              (p in existing.files <==> p in existing.fileBlobSHAs)
              && (p in existing.files ==> names.content(existing.files[p]) == names.content(existing.fileBlobSHAs[p]))
    ensures Get(StoredContents(names, Some(existing)), p)
         == if p in existing.files then Some(names.content(existing.files[p])) else None
    ensures Get(StoredContents(names, Some(updated)), p)
         == if p in updated.files then Some(names.content(updated.files[p])) else None
  {
    hide RemoteIndex.Injective, RemoteIndex.Honest, RemoteIndex.Consistent, RemoteIndex.Rescan, RemoteIndex.Blobs, StoredContents;
    UpdatedAt(w, names, tree, p);
    if existing.fileBlobSHAs != map[] { StoredAt(w, names, existing, p); }
    StoredContentAt(names, existing, p);
    StoredContentAt(names, updated, p);
  }

  /** A file whose content changed is upserted. */
  lemma ChangedIsUpserted(w: RemoteIndex.World, names: RemoteIndex.Names, existing: RemoteIndex.Index,
                          tree: RemoteIndex.RemoteTree, updated: RemoteIndex.Index, p: string)
    requires Update(w, names, existing, tree, updated)
    ensures p in VectorSync.ToUpsert(w.hash, StoredContents(names, Some(existing)), StoredContents(names, Some(updated)))
        ==> p in Upserted(existing, updated)
  {
    PathFacts(w, names, existing, tree, updated, p);
    hide Update, RemoteIndex.Rescan, RemoteIndex.Blobs, StoredContents;
  }

  /** An upserted file was fetched, and is in the index. */
  lemma UpsertedIsFetched(w: RemoteIndex.World, names: RemoteIndex.Names, existing: RemoteIndex.Index,
                          tree: RemoteIndex.RemoteTree, updated: RemoteIndex.Index, p: string)
    requires Update(w, names, existing, tree, updated) && p in Upserted(existing, updated)
    ensures var now := StoredContents(names, Some(updated));
      p in now && p in Fetched(w, existing, tree) && Fetched(w, existing, tree)[p] == now[p]
  {
    PathFacts(w, names, existing, tree, updated, p);
    hide Update, RemoteIndex.Rescan, RemoteIndex.Blobs, StoredContents;
  }

  /** A file is deleted exactly when it leaves the index. */
  lemma DeletedLeaves(w: RemoteIndex.World, names: RemoteIndex.Names, existing: RemoteIndex.Index,
                      tree: RemoteIndex.RemoteTree, updated: RemoteIndex.Index, p: string)
    requires Update(w, names, existing, tree, updated)
    ensures p in StoredContents(names, Some(existing)) && p !in StoredContents(names, Some(updated))
       <==> p in Before(existing) && p !in After(existing, updated)
  {
    PathFacts(w, names, existing, tree, updated, p);
    hide Update, RemoteIndex.Rescan, RemoteIndex.Blobs, StoredContents;
  }

  /** The lists and the fetched files of an update are what a sync needs. */
  lemma UpdateCovers(w: RemoteIndex.World, names: RemoteIndex.Names, existing: RemoteIndex.Index,
                     tree: RemoteIndex.RemoteTree, updated: RemoteIndex.Index)
    requires Update(w, names, existing, tree, updated)
    ensures var was, now := StoredContents(names, Some(existing)), StoredContents(names, Some(updated));
      VectorSync.ToUpsert(w.hash, was, now) <= Upserted(existing, updated) <= now.Keys
      && (forall p :: p in Upserted(existing, updated) ==>
            p in Fetched(w, existing, tree) && Fetched(w, existing, tree)[p] == now[p])
      && was.Keys - now.Keys == Before(existing).Keys - After(existing, updated).Keys
  {
    hide Update, StoredContents, Upserted, Before, After, Fetched, VectorSync.ToUpsert;
    var was, now := StoredContents(names, Some(existing)), StoredContents(names, Some(updated));
    forall p ensures p in VectorSync.ToUpsert(w.hash, was, now) ==> p in Upserted(existing, updated) {
      ChangedIsUpserted(w, names, existing, tree, updated, p);
    }
    forall p | p in Upserted(existing, updated)
      ensures p in now && p in Fetched(w, existing, tree) && Fetched(w, existing, tree)[p] == now[p]
    {
      UpsertedIsFetched(w, names, existing, tree, updated, p);
    }
    forall p ensures p in was.Keys - now.Keys <==> p in Before(existing).Keys - After(existing, updated).Keys {
      DeletedLeaves(w, names, existing, tree, updated, p);
    }
  }

  /** One run that updates the index, and the successful sync after it. */
  lemma UpdateMirrors(w: RemoteIndex.World, names: RemoteIndex.Names, repo: string, existing: RemoteIndex.Index,
                      tree: RemoteIndex.RemoteTree, updated: RemoteIndex.Index,
                      before: VectorSync.Store, after: VectorSync.Store)
    requires Update(w, names, existing, tree, updated)
    requires VectorSync.Mirrors(repo, StoredContents(names, Some(existing)), before.ids, before.remembered)
    requires VectorSync.SyncStep(repo, Fetched(w, existing, tree), Upserted(existing, updated),
                                 Before(existing).Keys - After(existing, updated).Keys,
                                 before.ids, before.remembered, after.ids, after.remembered)
    ensures VectorSync.Mirrors(repo, StoredContents(names, Some(updated)), after.ids, after.remembered)
  {
    hide *;
    var was, now := StoredContents(names, Some(existing)), StoredContents(names, Some(updated));
    UpdateCovers(w, names, existing, tree, updated);
    UpdateHash(w, names, existing, tree, updated);
    VectorSync.SyncedBy(repo, w.hash, was, now, Upserted(existing, updated), Before(existing).Keys - After(existing, updated).Keys,
                        Fetched(w, existing, tree), before, after);
    VectorSync.SyncMirrors(repo, w.hash, was, now, Upserted(existing, updated), Fetched(w, existing, tree), before, after);
  }

  lemma UpdateHash(w: RemoteIndex.World, names: RemoteIndex.Names, existing: RemoteIndex.Index,
                   tree: RemoteIndex.RemoteTree, updated: RemoteIndex.Index)
    requires Update(w, names, existing, tree, updated)
    ensures VectorSync.NoCollisions(w.hash)
  {
    HashInjective(w, names);
  }

  lemma HashInjective(w: RemoteIndex.World, names: RemoteIndex.Names)
    requires RemoteIndex.Injective(w, names)
    ensures VectorSync.NoCollisions(w.hash)
  {
    forall a, b | w.hash(a) == w.hash(b) ensures a == b {
      assert names.content(w.hash(a)) == a && names.content(w.hash(b)) == b;
    }
  }

  lemma CreatedAt(w: RemoteIndex.World, names: RemoteIndex.Names, tree: RemoteIndex.RemoteTree, p: string)
    requires RemoteIndex.Injective(w, names) && p in RemoteIndex.Rescan(w, tree).files
    ensures p in tree.files && names.content(RemoteIndex.Rescan(w, tree).files[p]) == tree.files[p].content
  {
    RemoteIndex.DiscoveredAt(w, RemoteIndex.Contents(tree), RemoteIndex.Blobs(w, tree), p);
    hide RemoteIndex.Discovered, RemoteIndex.Blobs, RemoteIndex.NormalizeBlob, RemoteIndex.SmallText;
  }

  /** The first run fetches and upserts everything. */
  lemma CreateMirrors(w: RemoteIndex.World, names: RemoteIndex.Names, repo: string, tree: RemoteIndex.RemoteTree, created: RemoteIndex.Index,
                      before: VectorSync.Store, after: VectorSync.Store)
    requires RemoteIndex.Injective(w, names)
    requires created.files == RemoteIndex.Rescan(w, tree).files
    requires VectorSync.Mirrors(repo, map[], before.ids, before.remembered)
    requires VectorSync.SyncStep(repo, RemoteIndex.Contents(tree), created.files.Keys, {},
                                 before.ids, before.remembered, after.ids, after.remembered)
    ensures VectorSync.Mirrors(repo, StoredContents(names, Some(created)), after.ids, after.remembered)
  {
    hide *;
    var now, nothing := StoredContents(names, Some(created)), map[];
    HashInjective(w, names);
    CreateCovers(w, names, tree, created);
    VectorSync.SyncedBy(repo, w.hash, nothing, now, created.files.Keys, {}, RemoteIndex.Contents(tree), before, after);
    VectorSync.SyncMirrors(repo, w.hash, nothing, now, created.files.Keys, RemoteIndex.Contents(tree), before, after);
  }

  lemma CreateCovers(w: RemoteIndex.World, names: RemoteIndex.Names, tree: RemoteIndex.RemoteTree, created: RemoteIndex.Index)
    requires RemoteIndex.Injective(w, names) && created.files == RemoteIndex.Rescan(w, tree).files
    ensures var now, nothing := StoredContents(names, Some(created)), map[];
      VectorSync.ToUpsert(w.hash, nothing, now) <= created.files.Keys == now.Keys && nothing.Keys - now.Keys == {}
      && forall p :: p in now ==> p in RemoteIndex.Contents(tree) && RemoteIndex.Contents(tree)[p] == now[p]
  {
    hide RemoteIndex.Injective, RemoteIndex.Rescan, RemoteIndex.Contents;
    var now := StoredContents(names, Some(created));
    assert now.Keys == created.files.Keys;
    hide StoredContents;
    forall p | p in now ensures p in RemoteIndex.Contents(tree) && RemoteIndex.Contents(tree)[p] == now[p] {
      CreatedContentAt(w, names, tree, created, p);
    }
  }

  lemma CreatedContentAt(w: RemoteIndex.World, names: RemoteIndex.Names, tree: RemoteIndex.RemoteTree,
                         created: RemoteIndex.Index, p: string)
    requires RemoteIndex.Injective(w, names) && created.files == RemoteIndex.Rescan(w, tree).files && p in created.files
    ensures p in RemoteIndex.Contents(tree) && Get(StoredContents(names, Some(created)), p) == Some(RemoteIndex.Contents(tree)[p])
  {
    CreatedAt(w, names, tree, p);
    StoredContentAt(names, created, p);
    hide RemoteIndex.Injective, RemoteIndex.Rescan, StoredContents;
  }

  lemma StoredContentAt(names: RemoteIndex.Names, idx: RemoteIndex.Index, p: string)
    ensures Get(StoredContents(names, Some(idx)), p) == if p in idx.files then Some(names.content(idx.files[p])) else None
  {}

  /** One run and what becomes of the records: a run that stores nothing syncs nothing. */
  ghost predicate RunSynced(w: RemoteIndex.World, repo: string, s: RemoteIndex.Store, r: RemoteIndex.Request, t: RemoteIndex.Store,
                            before: VectorSync.Store, after: VectorSync.Store) {
    var w', outcome := RemoteIndex.WithFilter(w, r.skipped), RemoteIndex.OutcomeOf(w, s, r);
    if outcome.Updated? && s.stored.Some? && t.stored.Some? then
      var existing, updated := s.stored.value, t.stored.value;
      VectorSync.SyncStep(repo, Fetched(w', existing, r.tree), Upserted(existing, updated),
                          Before(existing).Keys - After(existing, updated).Keys,
                          before.ids, before.remembered, after.ids, after.remembered)
    else if outcome.Created? && t.stored.Some? then
      VectorSync.SyncStep(repo, RemoteIndex.Contents(r.tree), t.stored.value.files.Keys, {},
                          before.ids, before.remembered, after.ids, after.remembered)
    else after == before
  }

  /** The sequences of incremental runs, each followed by a sync that succeeds. */
  ghost predicate RunsSynced(w: RemoteIndex.World, repo: string, stores: seq<RemoteIndex.Store>, requests: seq<RemoteIndex.Request>,
                             records: seq<VectorSync.Store>) {
    RemoteIndex.Runs(w, stores, requests) && |records| == |stores|
    && forall k :: 0 <= k < |requests| ==>
         requests[k].incremental && RunSynced(w, repo, stores[k], requests[k], stores[k + 1], records[k], records[k + 1])
  }

  /** What is stored after a run, by its outcome. */
  lemma StoredAfter(w: RemoteIndex.World, names: RemoteIndex.Names, s: RemoteIndex.Store, r: RemoteIndex.Request)
    requires RemoteIndex.Injective(w, names) && RemoteIndex.Honest(w, names, r.tree) && r.incremental
    requires RemoteIndex.StoreSound(w, names, s)
    ensures var w', t, outcome :=
        RemoteIndex.WithFilter(w, r.skipped), RemoteIndex.NextStore(w, s, r), RemoteIndex.OutcomeOf(w, s, r);
      (outcome.Updated? ==> s.stored.Some? && t.stored.Some? && RemoteIndex.Consistent(w', names, s.stored.value)
                            && t.stored.value.files == RemoteIndex.Rescan(w', r.tree).files
                            && t.stored.value.fileBlobSHAs == RemoteIndex.Rescan(w', r.tree).fileBlobSHAs)
      && (outcome.Created? ==> s.stored == None && t.stored.Some?
                               && t.stored.value.files == RemoteIndex.Rescan(w', r.tree).files)
      && (!outcome.Updated? && !outcome.Created? ==> t.stored == s.stored)
  {
    var w' := RemoteIndex.WithFilter(w, r.skipped);
    RemoteIndex.StoreStepExact(w, names, s, r);
    RemoteIndex.SameFiles(w', r.tree);
    if s.stored.Some? {
      RemoteIndex.FilterTwice(w, r.skipped, s.under);
      RemoteIndex.SoundParts(w', names, s.under, s.stored.value);
    }
    hide RemoteIndex.WithFilter, RemoteIndex.Injective, RemoteIndex.Honest, RemoteIndex.Rescan, RemoteIndex.Discovered,
         RemoteIndex.Sound, RemoteIndex.Step, RemoteIndex.Consistent, RemoteIndex.NoChangeExact, RemoteIndex.TreeShortcut;
  }

  lemma RunMirrors(w: RemoteIndex.World, names: RemoteIndex.Names, repo: string, s: RemoteIndex.Store, r: RemoteIndex.Request,
                   before: VectorSync.Store, after: VectorSync.Store)
    requires RemoteIndex.Injective(w, names) && RemoteIndex.Honest(w, names, r.tree) && r.incremental
    requires RemoteIndex.StoreSound(w, names, s)
    requires VectorSync.Mirrors(repo, StoredContents(names, s.stored), before.ids, before.remembered)
    requires RunSynced(w, repo, s, r, RemoteIndex.NextStore(w, s, r), before, after)
    ensures VectorSync.Mirrors(repo, StoredContents(names, RemoteIndex.NextStore(w, s, r).stored), after.ids, after.remembered)
  {
    var w' := RemoteIndex.WithFilter(w, r.skipped);
    var t := RemoteIndex.NextStore(w, s, r);
    RemoteIndex.FilterFree(w, names, r.skipped, r.tree);
    StoredAfter(w, names, s, r);
    assert w'.hash == w.hash;
    hide RemoteIndex.WithFilter, RemoteIndex.Injective, RemoteIndex.Honest, RemoteIndex.NextStore, RemoteIndex.OutcomeOf,
         RemoteIndex.Rescan, RemoteIndex.Consistent, VectorSync.Mirrors, VectorSync.SyncStep;
    if RemoteIndex.OutcomeOf(w, s, r).Updated? {
      UpdateMirrors(w', names, repo, s.stored.value, r.tree, t.stored.value, before, after);
    } else if RemoteIndex.OutcomeOf(w, s, r).Created? {
      CreateMirrors(w', names, repo, r.tree, t.stored.value, before, after);
    }
  }

  lemma SyncedAt(w: RemoteIndex.World, repo: string, stores: seq<RemoteIndex.Store>, requests: seq<RemoteIndex.Request>,
                 records: seq<VectorSync.Store>, k: nat)
    requires RunsSynced(w, repo, stores, requests, records) && k < |requests|
    ensures |records| == |stores| == |requests| + 1 && RemoteIndex.Runs(w, stores, requests) && requests[k].incremental
    ensures RunSynced(w, repo, stores[k], requests[k], stores[k + 1], records[k], records[k + 1])
  {
    hide RunSynced, RemoteIndex.NextStore;
  }

  lemma SyncedSizes(w: RemoteIndex.World, repo: string, stores: seq<RemoteIndex.Store>, requests: seq<RemoteIndex.Request>,
                    records: seq<VectorSync.Store>)
    requires RunsSynced(w, repo, stores, requests, records)
    ensures |records| == |stores| == |requests| + 1
  {
    hide RunSynced, RemoteIndex.NextStore;
  }

  /** After any sequence of incremental runs over any trees, with any filters and failures, each
      update followed by a successful sync, the records of the namespace are exactly the chunks
      of the contents that the stored index stands for. */
  lemma {:induction false} RecordsMirrorIndex(w: RemoteIndex.World, names: RemoteIndex.Names, repo: string,
                                              stores: seq<RemoteIndex.Store>, requests: seq<RemoteIndex.Request>,
                                              records: seq<VectorSync.Store>, k: nat)
    requires RemoteIndex.Injective(w, names) && RemoteIndex.AllHonest(w, names, requests)
    requires RunsSynced(w, repo, stores, requests, records) && k < |stores|
    requires RemoteIndex.StoreSound(w, names, stores[0])
    requires VectorSync.Mirrors(repo, StoredContents(names, stores[0].stored), records[0].ids, records[0].remembered)
    ensures k < |records| && VectorSync.Mirrors(repo, StoredContents(names, stores[k].stored), records[k].ids, records[k].remembered)
  {
    hide *;
    SyncedSizes(w, repo, stores, requests, records);
    if k > 0 {
      SyncedAt(w, repo, stores, requests, records, k - 1);
      RecordsMirrorIndex(w, names, repo, stores, requests, records, k - 1);
      RemoteIndex.StaysSound(w, names, stores, requests, k - 1);
      RemoteIndex.RunAt(w, names, stores, requests, k - 1);
      RunMirrors(w, names, repo, stores[k - 1], requests[k - 1], records[k - 1], records[k]);
    }
  }
}
