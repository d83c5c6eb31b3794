/** What the indexing paths of handlers_indexing.go share: the comparison of two file
    listings, and the number of indexed files of each language. */
module IndexFiles {
  import opened Common

  function Get<V>(m: map<string, V>, p: string): Option<V> {
    if p in m then Some(m[p]) else None
  }

  lemma GetAll<V>(m: map<string, V>, n: map<string, V>)
    requires forall p :: Get(m, p) == Get(n, p)
    ensures m == n
  {
    forall p ensures (p in m <==> p in n) && (p in m ==> m[p] == n[p]) {
      assert Get(m, p) == Get(n, p);
    }
  }

  lemma MapAdd<V>(m: map<string, V>, n: map<string, V>, p: string, v: V)
    requires p in n && n[p] == v
    requires forall q :: q != p ==> Get(m, q) == Get(n, q)
    ensures n == m[p := v]
  {
    forall q ensures Get(n, q) == Get(m[p := v], q) {
      assert q != p ==> Get(m, q) == Get(n, q);
    }
    GetAll(n, m[p := v]);
  }

  function Members(s: seq<string>): set<string> {
    set p | p in s
  }

  lemma ListedMembers(s: seq<string>, members: set<string>)
    requires Lists(s, members)
    ensures Members(s) == members
  {}

  // ----- comparing two listings -----

  ghost function ChangedKeys(existing: map<string, string>, current: map<string, string>): set<string> {
    set p | p in current && p in existing && existing[p] != current[p]
  }

  /** The first loop of `diffFileHashes`. The map is walked in any order. */
  method CompareCurrent(existing: map<string, string>, current: map<string, string>)
    returns (changed: set<string>, created: set<string>)
    ensures changed == ChangedKeys(existing, current) && created == current.Keys - existing.Keys
  {
    changed, created := {}, {};
    var todo := current.Keys;
    while todo != {}
      invariant todo <= current.Keys
      invariant forall p :: p in changed <==> p in current && p !in todo && p in existing && existing[p] != current[p]
      invariant forall p :: p in created <==> p in current && p !in todo && p !in existing
      decreases |todo|
    {
      var file :| file in todo;
      todo := todo - {file};
      if file !in existing {
        created := created + {file};
      } else if existing[file] != current[file] {
        changed := changed + {file};
      }
    }
  }

  /** The second loop. */
  method CompareExisting(existing: map<string, string>, current: map<string, string>) returns (deleted: set<string>)
    ensures deleted == existing.Keys - current.Keys
  {
    deleted := {};
    var todo := existing.Keys;
    while todo != {}
      invariant todo <= existing.Keys
      invariant forall p :: p in deleted <==> p in existing && p !in todo && p !in current
      decreases |todo|
    {
      var file :| file in todo;
      todo := todo - {file};
      if file !in current {
        deleted := deleted + {file};
      }
    }
  }

  /** `diffFileHashes` */
  method DiffFileHashes(existing: map<string, string>, current: map<string, string>)
    returns (changed: seq<string>, created: seq<string>, deleted: seq<string>)
    ensures Lists(changed, ChangedKeys(existing, current))
    ensures Lists(created, current.Keys - existing.Keys)
    ensures Lists(deleted, existing.Keys - current.Keys)
  {
    hide Lists, ChangedKeys;
    var changedFiles, createdFiles := CompareCurrent(existing, current);
    var deletedFiles := CompareExisting(existing, current);
    changed := SortedMembers(changedFiles);
    created := SortedMembers(createdFiles);
    deleted := SortedMembers(deletedFiles);
  }

  /** Three empty lists mean the same files with the same hashes, and only then. */
  lemma NoDifference(existing: map<string, string>, current: map<string, string>)
    ensures (ChangedKeys(existing, current) == {} && current.Keys - existing.Keys == {} && existing.Keys - current.Keys == {})
       <==> existing == current
  {
    if ChangedKeys(existing, current) == {} && current.Keys - existing.Keys == {} && existing.Keys - current.Keys == {} {
      forall p ensures p in existing <==> p in current {
        assert p !in current.Keys - existing.Keys && p !in existing.Keys - current.Keys;
      }
      forall p | p in existing ensures existing[p] == current[p] {
        assert p !in ChangedKeys(existing, current);
      }
    }
  }

  lemma EmptyListing(s: seq<string>, members: set<string>)
    requires Lists(s, members)
    ensures s == [] <==> members == {}
  {
    if s != [] { assert s[0] in s; }
    if x :| x in members { assert x in s; }
  }

  // ----- language counts -----

  type Classifier = string -> Option<string>

  ghost function LanguagesOf(classify: Classifier, files: set<string>): set<string> {
    set p | p in files && classify(p).Some? :: classify(p).value
  }

  ghost function FilesOf(classify: Classifier, files: set<string>, language: string): set<string> {
    set p | p in files && classify(p) == Some(language)
  }

  /** For every language with a file, the number of its files; no zero entries. */
  ghost function LanguageCounts(classify: Classifier, files: set<string>): map<string, int> {
    map l | l in LanguagesOf(classify, files) :: |FilesOf(classify, files, l)|
  }

  /** `incrementLanguageCount` */
  function Incremented(classify: Classifier, languages: map<string, int>, p: string): map<string, int> {
    var language := classify(p);
    if language == None then languages
    else languages[language.value := (if language.value in languages then languages[language.value] else 0) + 1]
  }

  /** `decrementLanguageCount` */
  function Decremented(classify: Classifier, languages: map<string, int>, p: string): map<string, int> {
    var language := classify(p);
    if language == None then languages
    else
      var count := if language.value in languages then languages[language.value] else 0;
      if count <= 1 then languages - {language.value} else languages[language.value := count - 1]
  }

  lemma LanguageIn(classify: Classifier, files: set<string>, l: string)
    ensures l in LanguagesOf(classify, files) <==> FilesOf(classify, files, l) != {}
  {
    if l in LanguagesOf(classify, files) {
      var p :| p in files && classify(p).Some? && classify(p).value == l;
      assert p in FilesOf(classify, files, l);
    }
    if p :| p in FilesOf(classify, files, l) {
      assert classify(p).value in LanguagesOf(classify, files);
    }
  }

  lemma IncrementAt(classify: Classifier, files: set<string>, p: string, l: string)
    requires p !in files
    ensures var counted, after := Incremented(classify, LanguageCounts(classify, files), p), LanguageCounts(classify, files + {p});
      (l in counted <==> l in after) && (l in after ==> counted[l] == after[l])
  {
    LanguageIn(classify, files, l);
    LanguageIn(classify, files + {p}, l);
    if classify(p) == Some(l) {
      assert FilesOf(classify, files + {p}, l) == FilesOf(classify, files, l) + {p};
    } else {
      assert FilesOf(classify, files + {p}, l) == FilesOf(classify, files, l);
    }
  }

  /** Adding a file to the counts of some files gives the counts of those files and it. */
  lemma IncrementCounts(classify: Classifier, files: set<string>, p: string)
    requires p !in files
    ensures Incremented(classify, LanguageCounts(classify, files), p) == LanguageCounts(classify, files + {p})
  {
    hide Incremented, LanguageCounts;
    var counted, after := Incremented(classify, LanguageCounts(classify, files), p), LanguageCounts(classify, files + {p});
    forall l ensures (l in counted <==> l in after) && (l in after ==> counted[l] == after[l]) {
      IncrementAt(classify, files, p, l);
    }
  }

  lemma DecrementAt(classify: Classifier, files: set<string>, p: string, l: string)
    requires p in files
    ensures Get(Decremented(classify, LanguageCounts(classify, files), p), l) == Get(LanguageCounts(classify, files - {p}), l)
  {
    LanguageIn(classify, files, l);
    LanguageIn(classify, files - {p}, l);
    if classify(p) == Some(l) {
      assert FilesOf(classify, files, l) == FilesOf(classify, files - {p}, l) + {p};
    } else {
      assert FilesOf(classify, files - {p}, l) == FilesOf(classify, files, l);
    }
    hide LanguagesOf, FilesOf;
  }

  /** Taking a file out of the counts undoes adding it: a count that would become zero
      leaves the map. */
  lemma DecrementCounts(classify: Classifier, files: set<string>, p: string)
    requires p in files
    ensures Decremented(classify, LanguageCounts(classify, files), p) == LanguageCounts(classify, files - {p})
  {
    hide Decremented, LanguageCounts;
    forall l ensures Get(Decremented(classify, LanguageCounts(classify, files), p), l)
                  == Get(LanguageCounts(classify, files - {p}), l) {
      DecrementAt(classify, files, p, l);
    }
    GetAll(Decremented(classify, LanguageCounts(classify, files), p), LanguageCounts(classify, files - {p}));
  }

  /** `languageCountsFromIndexedFiles` */
  method LanguageCountsFromIndexedFiles(classify: Classifier, fileHashes: map<string, string>)
    returns (languageCounts: map<string, int>)
    ensures languageCounts == LanguageCounts(classify, fileHashes.Keys)
  {
    languageCounts := map[];
    var todo := fileHashes.Keys;
    while todo != {}
      invariant todo <= fileHashes.Keys
      invariant languageCounts == LanguageCounts(classify, fileHashes.Keys - todo)
      decreases |todo|
    {
      var relPath :| relPath in todo;
      IncrementCounts(classify, fileHashes.Keys - todo, relPath);
      assert fileHashes.Keys - todo + {relPath} == fileHashes.Keys - (todo - {relPath});
      todo := todo - {relPath};
      languageCounts := Incremented(classify, languageCounts, relPath);
    }
    assert fileHashes.Keys - todo == fileHashes.Keys;
  }
}
