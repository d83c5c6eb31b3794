/** The import graph of a repository and its depth-bounded breadth-first search
    (handlers_retrieval.go). */
module DependencyGraph {

  datatype ImportRecord = ImportRecord(source: string, resolved: string)

  datatype Edge = Edge(from: string, to: string)

  type Adjacency = map<string, seq<string>>

  /** `adjacency[node]` in Go: an absent row is an empty one. */
  function Out(adj: Adjacency, node: string): seq<string> {
    if node in adj then adj[node] else []
  }

  ghost predicate NoRepeats<T>(s: seq<T>) {
    forall i, j :: 0 <= i < j < |s| ==> s[i] != s[j]
  }

  // ----- building the graph -----

  predicate Usable(r: ImportRecord) {
    r.source != "" && r.resolved != "" && r.source != r.resolved
  }

  /** The targets `source` imports, each once, in order of first mention. */
  function Row(records: seq<ImportRecord>, source: string): seq<string> {
    if records == [] then []
    else RowWith(Row(records[..|records| - 1], source), source, records[|records| - 1])
  }

  function RowWith(row: seq<string>, source: string, r: ImportRecord): seq<string> {
    if Usable(r) && r.source == source && r.resolved !in row then row + [r.resolved] else row
  }

  lemma {:induction false} RowMembers(records: seq<ImportRecord>, source: string)
    ensures NoRepeats(Row(records, source))
    ensures forall t :: t in Row(records, source)
                   <==> source != "" && t != "" && source != t && exists r :: r in records && r.source == source && r.resolved == t
  {
    if records != [] {
      var n := |records| - 1;
      RowMembers(records[..n], source);
      assert records == records[..n] + [records[n]];
    }
  }

  /** The rows are not empty, and the sets that guard them against repeats say the same. */
  ghost predicate Tracks(rows: Adjacency, seen: map<string, set<string>>) {
    (forall s, t :: s in seen && t in seen[s] <==> t in Out(rows, s))
    && (forall s :: s in rows ==> rows[s] != [])
  }

  /** One pass of the loop of `buildDependencyAdjacency`. */
  method AddImport(rows: Adjacency, guard: map<string, set<string>>, record: ImportRecord)
    returns (adjacency: Adjacency, seen: map<string, set<string>>)
    requires Tracks(rows, guard)
    ensures Tracks(adjacency, seen)
    ensures forall s :: Out(adjacency, s) == RowWith(Out(rows, s), s, record)
  {
    adjacency, seen := rows, guard;
    if record.source == "" || record.resolved == "" || record.source == record.resolved {
      return;
    }
    var rowSeen := if record.source in seen then seen[record.source] else {};
    seen := seen[record.source := rowSeen];
    assert record.resolved in rowSeen <==> record.resolved in Out(rows, record.source);
    if record.resolved in rowSeen {
      return;
    }
    seen := seen[record.source := rowSeen + {record.resolved}];
    adjacency := adjacency[record.source := Out(adjacency, record.source) + [record.resolved]];
    assert forall s :: s != record.source ==> Out(adjacency, s) == Out(rows, s);
  }

  /** `buildDependencyAdjacency` */
  method BuildAdjacency(records: seq<ImportRecord>) returns (adjacency: Adjacency)
    ensures forall s :: Out(adjacency, s) == Row(records, s)
    ensures forall s :: s in adjacency <==> Row(records, s) != []
  {
    adjacency := map[];
    var seen: map<string, set<string>> := map[];
    for i := 0 to |records|
      invariant Tracks(adjacency, seen)
      invariant forall s :: Out(adjacency, s) == Row(records[..i], s)
    {
      adjacency, seen := AddImport(adjacency, seen, records[i]);
      assert records[..i + 1][..i] == records[..i];
      forall s ensures Row(records[..i + 1], s) == RowWith(Row(records[..i], s), s, records[i]) {}
    }
    assert records[..|records|] == records;
    forall s ensures s in adjacency <==> Row(records, s) != [] {
      assert Out(adjacency, s) == Row(records, s);
    }
  }

  ghost predicate Inverse(adj: Adjacency, inv: Adjacency) {
    forall s, t :: s in Out(inv, t) <==> t in Out(adj, s)
  }

  /** The inverted rows and the sets that guard them against repeats say the same. */
  ghost predicate Guarded(inverted: Adjacency, seen: map<string, set<string>>) {
    (forall s, t :: s in Out(inverted, t) <==> t in seen && s in seen[t])
    && (forall t :: NoRepeats(Out(inverted, t)))
  }

  /** One pass of the inner loop of `invertDependencyAdjacency`. */
  method AddReverse(rows: Adjacency, guard: map<string, set<string>>, source: string, target: string)
    returns (inverted: Adjacency, seen: map<string, set<string>>)
    requires Guarded(rows, guard)
    ensures Guarded(inverted, seen)
    ensures forall s, t :: s in Out(inverted, t) <==> s in Out(rows, t) || (s == source && t == target)
  {
    var rowSeen := if target in guard then guard[target] else {};
    inverted, seen := rows, guard[target := rowSeen];
    if source in rowSeen {
      return;
    }
    seen := seen[target := rowSeen + {source}];
    inverted := inverted[target := Out(inverted, target) + [source]];
    assert forall t :: t != target ==> Out(inverted, t) == Out(rows, t);
    assert source !in Out(rows, target);
    assert NoRepeats(Out(rows, target));
    assert Out(inverted, target) == Out(rows, target) + [source];
  }

  /** `invertDependencyAdjacency`; rows are visited in any order, as Go iterates a map. */
  method Invert(adjacency: Adjacency) returns (inverted: Adjacency)
    ensures Inverse(adjacency, inverted)
    ensures forall t :: NoRepeats(Out(inverted, t))
  {
    inverted := map[];
    var seen: map<string, set<string>> := map[];
    var sources := adjacency.Keys;
    while sources != {}
      invariant sources <= adjacency.Keys && Guarded(inverted, seen)
      invariant forall s, t :: s in Out(inverted, t) <==> s !in sources && t in Out(adjacency, s)
    {
      var source :| source in sources;
      ghost var before := inverted;
      sources := sources - {source};
      var targets := adjacency[source];
      for i := 0 to |targets|
        invariant Guarded(inverted, seen)
        invariant forall s, t :: s in Out(inverted, t)
                    <==> s in Out(before, t) || (s == source && t in targets[..i])
      {
        inverted, seen := AddReverse(inverted, seen, source, targets[i]);
        assert targets[..i + 1] == targets[..i] + [targets[i]];
      }
      assert targets[..|targets|] == targets;
    }
  }

  // ----- distance -----

  /** There is a path of at most `d` edges from `u` to `v`. */
  ghost predicate Within(adj: Adjacency, u: string, v: string, d: nat)
    decreases d
  {
    u == v || (d > 0 && exists w :: w in Out(adj, u) && Within(adj, w, v, d - 1))
  }

  lemma {:induction false} WithinMonotone(adj: Adjacency, u: string, v: string, d: nat, e: nat)
    requires Within(adj, u, v, d) && d <= e
    ensures Within(adj, u, v, e)
    decreases d
  {
    if u != v {
      var w :| w in Out(adj, u) && Within(adj, w, v, d - 1);
      WithinMonotone(adj, w, v, d - 1, e - 1);
    }
  }

  lemma {:induction false} WithinAppend(adj: Adjacency, u: string, w: string, v: string, d: nat)
    requires Within(adj, u, w, d) && v in Out(adj, w)
    ensures Within(adj, u, v, d + 1)
    decreases d
  {
    if u == w {
      assert Within(adj, v, v, d);
    } else {
      var x :| x in Out(adj, u) && Within(adj, x, w, d - 1);
      WithinAppend(adj, x, w, v, d - 1);
    }
  }

  /** A path that is not empty has a last edge. */
  lemma {:induction false} WithinLastEdge(adj: Adjacency, u: string, v: string, d: nat) returns (w: string)
    requires u != v && Within(adj, u, v, d)
    ensures d > 0 && Within(adj, u, w, d - 1) && v in Out(adj, w)
    decreases d
  {
    var x :| x in Out(adj, u) && Within(adj, x, v, d - 1);
    if x == v {
      w := u;
    } else {
      w := WithinLastEdge(adj, x, v, d - 1);
    }
  }

  lemma {:induction false} ReverseWithin(adj: Adjacency, inv: Adjacency, u: string, v: string, d: nat)
    requires Inverse(adj, inv) && Within(adj, u, v, d)
    ensures Within(inv, v, u, d)
    decreases d
  {
    if u != v {
      var w :| w in Out(adj, u) && Within(adj, w, v, d - 1);
      ReverseWithin(adj, inv, w, v, d - 1);
      WithinAppend(inv, v, w, u, d - 1);
    }
  }

  /** Distance to a node in the graph is distance from it in the inverted graph. */
  lemma InvertedDistance(adj: Adjacency, inv: Adjacency, u: string, v: string, d: nat)
    requires Inverse(adj, inv)
    ensures Within(adj, u, v, d) <==> Within(inv, v, u, d)
  {
    if Within(adj, u, v, d) {
      ReverseWithin(adj, inv, u, v, d);
    }
    if Within(inv, v, u, d) {
      ReverseWithin(inv, adj, v, u, d);
    }
  }

  // ----- breadth-first search -----

  ghost predicate Distance(adj: Adjacency, start: string, v: string, k: int) {
    k >= 0 && Within(adj, start, v, k) && (k > 0 ==> !Within(adj, start, v, k - 1))
  }

  /** Every node that has left the queue below the depth has its neighbours visited. */
  ghost predicate Closed(adj: Adjacency, visited: map<string, int>, queued: seq<string>, depth: int) {
    forall u, n :: u in visited && u !in queued && visited[u] < depth && n in Out(adj, u) ==> n in visited
  }

  ghost predicate Queued(adj: Adjacency, start: string, visited: map<string, int>, queue: seq<string>,
                         levels: seq<int>, depth: int)
  {
    |queue| == |levels| && start in visited
    && (forall v :: v in visited ==> Distance(adj, start, v, visited[v]))
    && (forall v :: v in visited ==> v == start || visited[v] <= depth)
    && (forall i :: 0 <= i < |queue| ==> queue[i] in visited && visited[queue[i]] == levels[i])
    && (forall i, j :: 0 <= i < j < |levels| ==> levels[i] <= levels[j] <= levels[0] + 1)
    && Closed(adj, visited, queue, depth)
  }

  /** Nodes closer than everything still queued are all visited. */
  lemma {:induction false} NearNodesVisited(adj: Adjacency, start: string, visited: map<string, int>,
                         queue: seq<string>, levels: seq<int>, depth: int, v: string, k: nat)
    requires Queued(adj, start, visited, queue, levels, depth)
    requires Within(adj, start, v, k) && (k == 0 || k <= depth)
    requires forall i :: 0 <= i < |queue| ==> k <= levels[i]
    ensures v in visited && visited[v] <= k
    decreases k
  {
    if v != start {
      var w := WithinLastEdge(adj, start, v, k);
      NearNodesVisited(adj, start, visited, queue, levels, depth, w, k - 1);
      assert w !in queue;
    }
    if v in visited && visited[v] > k {
      WithinMonotone(adj, start, v, k, visited[v] - 1);
    }
  }

  ghost function AllNodes(adj: Adjacency, start: string): set<string> {
    {start} + set u, i | u in adj && 0 <= i < |adj[u]| :: adj[u][i]
  }

  function RowEdges(from: string, targets: seq<string>): seq<Edge> {
    seq(|targets|, i requires 0 <= i < |targets| => Edge(from, targets[i]))
  }

  /** The edges listed are the rows of the nodes in `done` that lie below the depth, each
      row as often as it is written in the graph. */
  ghost predicate EdgesOf(adj: Adjacency, visited: map<string, int>, done: set<string>, depth: int,
                          edges: multiset<Edge>)
    requires done <= visited.Keys
  {
    forall e: Edge :: edges[e]
      == if e.from in done && visited[e.from] < depth then multiset(Out(adj, e.from))[e.to] else 0
  }

  lemma NewNeighbour(adj: Adjacency, start: string, visited: map<string, int>, queue: seq<string>,
                     levels: seq<int>, depth: int, u: string, n: string)
    requires Queued(adj, start, visited, queue, levels, depth)
    requires u in visited && visited[u] < depth && n in Out(adj, u) && n !in visited
    requires forall i :: 0 <= i < |queue| ==> visited[u] <= levels[i]
    ensures Distance(adj, start, n, visited[u] + 1)
  {
    WithinAppend(adj, start, u, n, visited[u]);
    if Within(adj, start, n, visited[u]) {
      NearNodesVisited(adj, start, visited, queue, levels, depth, n, visited[u]);
    }
  }

  lemma ClosedMore(adj: Adjacency, visited: map<string, int>, queued: seq<string>, depth: int, n: string, k: int)
    requires Closed(adj, visited, queued, depth) && n !in visited
    ensures Closed(adj, visited[n := k], queued + [n], depth)
  {
    assert forall w :: w in queued + [n] <==> w in queued || w == n;
  }

  lemma AddNeighbour(adj: Adjacency, start: string, visited: map<string, int>, queue: seq<string>,
                     levels: seq<int>, depth: int, u: string, n: string)
    requires u in visited && visited[u] < depth && n in Out(adj, u) && n !in visited
    requires Queued(adj, start, visited, [u] + queue, [visited[u]] + levels, depth)
    ensures Queued(adj, start, visited[n := visited[u] + 1], [u] + (queue + [n]),
                   [visited[u]] + (levels + [visited[u] + 1]), depth)
  {
    NewNeighbour(adj, start, visited, [u] + queue, [visited[u]] + levels, depth, u, n);
    var q, l := [u] + queue, [visited[u]] + levels;
    var q', l', k := [u] + (queue + [n]), [visited[u]] + (levels + [visited[u] + 1]), |queue| + 1;
    assert q' == q + [n] && l' == l + [visited[u] + 1];
    ClosedMore(adj, visited, q, depth, n, visited[u] + 1);
    hide Distance, Closed;
    forall i | 0 <= i < |q'| ensures q'[i] in visited[n := visited[u] + 1] {
      assert i < |q| ==> q'[i] == q[i];
    }
  }

  /** The head may leave the queue once its row is visited, or at once at the depth. */
  lemma DropHead(adj: Adjacency, start: string, visited: map<string, int>, queue: seq<string>,
                 levels: seq<int>, depth: int, u: string)
    requires u in visited && Queued(adj, start, visited, [u] + queue, [visited[u]] + levels, depth)
    requires visited[u] < depth ==> forall n :: n in Out(adj, u) ==> n in visited
    ensures Queued(adj, start, visited, queue, levels, depth)
  {
    var q, l := [u] + queue, [visited[u]] + levels;
    forall i | 0 <= i < |queue| ensures queue[i] in visited && visited[queue[i]] == levels[i] {
      assert q[i + 1] == queue[i] && l[i + 1] == levels[i];
    }
    forall i, j | 0 <= i < j < |levels| ensures levels[i] <= levels[j] <= levels[0] + 1 {
      assert l[i + 1] <= l[j + 1] <= l[0] + 1 && l[0] <= l[1];
    }
  }

  lemma {:induction false} RowEdgesCount(u: string, row: seq<string>, e: Edge)
    ensures multiset(RowEdges(u, row))[e] == if e.from == u then multiset(row)[e.to] else 0
  {
    if row != [] {
      var n := |row| - 1;
      RowEdgesCount(u, row[..n], e);
      assert row == row[..n] + [row[n]];
      assert RowEdges(u, row) == RowEdges(u, row[..n]) + [Edge(u, row[n])];
    }
  }

  lemma RowEdgesStep(u: string, row: seq<string>, j: nat)
    requires j < |row|
    ensures RowEdges(u, row[..j + 1]) == RowEdges(u, row[..j]) + [Edge(u, row[j])]
  {}

  lemma RowEdgesEnds(u: string, row: seq<string>)
    ensures RowEdges(u, row[..0]) == [] && RowEdges(u, row[..|row|]) == RowEdges(u, row)
  {
    assert row[..|row|] == row;
  }

  lemma RowDone(adj: Adjacency, visited: map<string, int>, done: set<string>, depth: int,
                edges: seq<Edge>, u: string)
    requires done <= visited.Keys && u in visited && u !in done
    requires EdgesOf(adj, visited, done, depth, multiset(edges))
    ensures visited[u] < depth ==>
        EdgesOf(adj, visited, done + {u}, depth, multiset(edges + RowEdges(u, Out(adj, u))))
    ensures visited[u] >= depth ==> EdgesOf(adj, visited, done + {u}, depth, multiset(edges))
  {
    var row := RowEdges(u, Out(adj, u));
    assert multiset(edges + row) == multiset(edges) + multiset(row);
    forall e: Edge { RowEdgesCount(u, Out(adj, u), e); }
  }

  /** With an empty queue the search has found exactly what lies within the depth. */
  lemma SearchComplete(adj: Adjacency, start: string, visited: map<string, int>, depth: int, v: string)
    requires Queued(adj, start, visited, [], [], depth)
    ensures v in visited <==> Within(adj, start, v, if depth > 0 then depth else 0)
    ensures v in visited && visited[v] < depth <==> depth > 0 && Within(adj, start, v, depth - 1)
  {
    var d := if depth > 0 then depth else 0;
    if v in visited {
      WithinMonotone(adj, start, v, visited[v], d);
      if visited[v] < depth { WithinMonotone(adj, start, v, visited[v], depth - 1); }
    }
    if Within(adj, start, v, d) {
      NearNodesVisited(adj, start, visited, [], [], depth, v, d);
    }
    if depth > 0 && Within(adj, start, v, depth - 1) {
      NearNodesVisited(adj, start, visited, [], [], depth, v, depth - 1);
    }
  }

  /** What holds at the head of the search loop: `done` are the visited nodes that have left
      the queue, and their rows are the edges listed. */
  ghost predicate Searching(adj: Adjacency, start: string, depth: int, visited: map<string, int>,
                            queue: seq<string>, levels: seq<int>, done: set<string>, edges: seq<Edge>)
  {
    visited.Keys <= AllNodes(adj, start)
    && Queued(adj, start, visited, queue, levels, depth) && NoRepeats(queue)
    && done <= visited.Keys && (forall v :: v in visited ==> (v in done <==> v !in queue))
    && EdgesOf(adj, visited, done, depth, multiset(edges))
  }

  lemma SearchStarts(adj: Adjacency, start: string, depth: int)
    ensures Searching(adj, start, depth, map[start := 0], [start], [0], {}, [])
  {}

  lemma SearchHead(adj: Adjacency, start: string, depth: int, visited: map<string, int>,
                   queue: seq<string>, levels: seq<int>, done: set<string>, edges: seq<Edge>)
    requires Searching(adj, start, depth, visited, queue, levels, done, edges)
    ensures |levels| == |queue| && visited.Keys <= AllNodes(adj, start)
    ensures queue != [] ==> queue[0] in visited && visited[queue[0]] == levels[0]
                            && queue == [queue[0]] + queue[1..] && levels == [levels[0]] + levels[1..]
  {}

  lemma Discovers(adj: Adjacency, start: string, depth: int, visited: map<string, int>,
                  queue: seq<string>, levels: seq<int>, done: set<string>, edges: seq<Edge>, u: string, n: string)
    requires u in visited && visited[u] < depth && n in Out(adj, u) && n !in visited
    requires Searching(adj, start, depth, visited, [u] + queue, [visited[u]] + levels, done, edges)
    ensures Searching(adj, start, depth, visited[n := visited[u] + 1], [u] + (queue + [n]),
                      [visited[u]] + (levels + [visited[u] + 1]), done, edges)
    ensures |AllNodes(adj, start) - (visited.Keys + {n})| < |AllNodes(adj, start) - visited.Keys|
  {
    hide Queued;
    AddNeighbour(adj, start, visited, queue, levels, depth, u, n);
    var i :| 0 <= i < |adj[u]| && adj[u][i] == n;
    var all, q := AllNodes(adj, start), [u] + queue;
    assert n in all && all - (visited.Keys + {n}) == (all - visited.Keys) - {n};
    QueueVisited(adj, start, visited, q, [visited[u]] + levels, depth);
    assert [u] + (queue + [n]) == q + [n];
    assert EdgesOf(adj, visited[n := visited[u] + 1], done, depth, multiset(edges));
  }

  lemma QueueVisited(adj: Adjacency, start: string, visited: map<string, int>, queue: seq<string>,
                     levels: seq<int>, depth: int)
    requires Queued(adj, start, visited, queue, levels, depth)
    ensures forall q :: q in queue ==> q in visited
  {}

  lemma Finishes(adj: Adjacency, start: string, depth: int, visited: map<string, int>,
                 queue: seq<string>, levels: seq<int>, done: set<string>, edges: seq<Edge>, u: string)
    requires u in visited && Searching(adj, start, depth, visited, [u] + queue, [visited[u]] + levels, done, edges)
    requires visited[u] < depth ==> forall n :: n in Out(adj, u) ==> n in visited
    ensures Searching(adj, start, depth, visited, queue, levels, done + {u},
                      if visited[u] < depth then edges + RowEdges(u, Out(adj, u)) else edges)
  {
    hide Queued, EdgesOf;
    DropHead(adj, start, visited, queue, levels, depth, u);
    assert u == ([u] + queue)[0];
    RowDone(adj, visited, done, depth, edges, u);
    forall i, j | 0 <= i < j < |queue| ensures queue[i] != queue[j] {
      assert ([u] + queue)[i + 1] == queue[i] && ([u] + queue)[j + 1] == queue[j];
    }
    assert u !in queue by {
      assert forall i :: 0 <= i < |queue| ==> ([u] + queue)[i + 1] == queue[i];
    }
  }

  lemma SearchEnds(adj: Adjacency, start: string, depth: int, visited: map<string, int>,
                   done: set<string>, edges: seq<Edge>)
    requires Searching(adj, start, depth, visited, [], [], done, edges)
    ensures forall v :: v in visited <==> Within(adj, start, v, if depth > 0 then depth else 0)
    ensures forall e: Edge :: multiset(edges)[e]
              == if depth > 0 && Within(adj, start, e.from, depth - 1)
                 then multiset(Out(adj, e.from))[e.to] else 0
  {
    hide Queued, Within;
    forall v ensures v in visited <==> Within(adj, start, v, if depth > 0 then depth else 0) {
      SearchComplete(adj, start, visited, depth, v);
    }
    forall e: Edge ensures multiset(edges)[e]
              == if depth > 0 && Within(adj, start, e.from, depth - 1)
                 then multiset(Out(adj, e.from))[e.to] else 0 {
      SearchComplete(adj, start, visited, depth, e.from);
    }
  }

  /** The inner loop of `bfsDependencyGraph`: lists the row of `current` and queues the
      neighbours not seen before. `current` has just left the queue. */
  method VisitRow(start: string, adjacency: Adjacency, depth: int, current: string, level: int,
                  found: map<string, int>, waiting: seq<string>, theirLevels: seq<int>,
                  ghost done: set<string>, listed: seq<Edge>)
    returns (visited: map<string, int>, queue: seq<string>, levels: seq<int>, edges: seq<Edge>)
    requires current in found && found[current] == level < depth
    requires Searching(adjacency, start, depth, found, [current] + waiting, [level] + theirLevels, done, listed)
    ensures edges == listed + RowEdges(current, Out(adjacency, current))
    ensures current in visited && visited[current] == level
    ensures visited.Keys == found.Keys + set n | n in Out(adjacency, current)
    ensures Searching(adjacency, start, depth, visited, [current] + queue, [level] + levels, done, listed)
    ensures found.Keys == visited.Keys ==> queue == waiting
  {
    hide Searching, Within, AllNodes, RowEdges;
    visited, queue, levels, edges := found, waiting, theirLevels, listed;
    var row := Out(adjacency, current);
    RowEdgesEnds(current, row);
    for j := 0 to |row|
      invariant current in visited && visited[current] == level
      invariant forall v :: v in visited <==> v in found || v in row[..j]
      invariant found.Keys == visited.Keys ==> queue == waiting
      invariant Searching(adjacency, start, depth, visited, [current] + queue, [level] + levels, done, listed)
      invariant edges == listed + RowEdges(current, row[..j])
    {
      var neighbor := row[j];
      assert row[..j + 1] == row[..j] + [neighbor];
      edges := edges + [Edge(current, neighbor)];
      RowEdgesStep(current, row, j);
      if neighbor in visited {
        continue;
      }
      Discovers(adjacency, start, depth, visited, queue, levels, done, listed, current, neighbor);
      visited := visited[neighbor := level + 1];
      queue, levels := queue + [neighbor], levels + [level + 1];
    }
    assert row[..|row|] == row;
  }

  /** `bfsDependencyGraph`. The nodes found are exactly those within `depth` of `start`, and
      the edges are exactly the rows of the nodes closer than `depth`: none twice unless the
      graph holds it twice, none missing. A depth of zero or less finds `start` alone. */
  method Bfs(start: string, adjacency: Adjacency, depth: int) returns (nodes: set<string>, edges: seq<Edge>)
    ensures forall v :: v in nodes <==> Within(adjacency, start, v, if depth > 0 then depth else 0)
    ensures forall e: Edge :: multiset(edges)[e]
              == if depth > 0 && Within(adjacency, start, e.from, depth - 1)
                 then multiset(Out(adjacency, e.from))[e.to] else 0
  {
    hide Searching, Within, AllNodes, RowEdges;
    nodes := {start};
    edges := [];
    var visited: map<string, int> := map[start := 0];
    var queue, levels := [start], [0];
    ghost var all, done := AllNodes(adjacency, start), {};
    SearchStarts(adjacency, start, depth);
    while queue != []
      invariant nodes == visited.Keys
      invariant Searching(adjacency, start, depth, visited, queue, levels, done, edges)
      decreases |all - visited.Keys|, |queue|
    {
      SearchHead(adjacency, start, depth, visited, queue, levels, done, edges);
      var current, level := queue[0], levels[0];
      queue, levels := queue[1..], levels[1..];
      if level >= depth {
        Finishes(adjacency, start, depth, visited, queue, levels, done, edges, current);
        done := done + {current};
        continue;
      }
      ghost var before, listed := visited, edges;
      visited, queue, levels, edges :=
        VisitRow(start, adjacency, depth, current, level, visited, queue, levels, done, edges);
      nodes := nodes + set n | n in Out(adjacency, current);
      Shrinks(adjacency, start, depth, before, visited, [current] + queue, [level] + levels, done, listed);
      Finishes(adjacency, start, depth, visited, queue, levels, done, listed, current);
      done := done + {current};
    }
    SearchHead(adjacency, start, depth, visited, queue, levels, done, edges);
    assert queue == [] && levels == [];
    SearchEnds(adjacency, start, depth, visited, done, edges);
  }

  /** Fewer nodes are left to find, unless the row brought none. */
  lemma Shrinks(adj: Adjacency, start: string, depth: int, before: map<string, int>, visited: map<string, int>,
                queue: seq<string>, levels: seq<int>, done: set<string>, edges: seq<Edge>)
    requires before.Keys <= visited.Keys
    requires Searching(adj, start, depth, visited, queue, levels, done, edges)
    ensures var all := AllNodes(adj, start);
        before.Keys == visited.Keys || |all - visited.Keys| < |all - before.Keys|
  {
    hide Queued, EdgesOf;
    var all := AllNodes(adj, start);
    if before.Keys != visited.Keys {
      var n :| n in visited.Keys && n !in before.Keys;
      assert all - visited.Keys <= (all - before.Keys) - {n};
      SubsetSize(all - visited.Keys, (all - before.Keys) - {n});
    }
  }

  lemma {:induction false} SubsetSize(a: set<string>, b: set<string>)
    requires a <= b
    ensures |a| <= |b|
  {
    if a != {} {
      var x :| x in a;
      SubsetSize(a - {x}, b - {x});
    }
  }

  /** The importer graph as the handlers build it: searching the inverted import graph from
      a file finds exactly the files that reach it through at most `depth` imports. */
  method Importers(records: seq<ImportRecord>, file: string, depth: nat)
    returns (forward: Adjacency, nodes: set<string>)
    ensures forall s :: Out(forward, s) == Row(records, s)
    ensures forall v :: v in nodes <==> Within(forward, v, file, depth)
  {
    hide Within;
    forward := BuildAdjacency(records);
    var reverse := Invert(forward);
    var edges;
    nodes, edges := Bfs(file, reverse, depth);
    forall v ensures v in nodes <==> Within(forward, v, file, depth) {
      InvertedDistance(forward, reverse, v, file, depth);
    }
  }
}
