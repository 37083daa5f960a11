/** The link graph of a vault (src/application/vault-graph.ts). */
module VaultGraph {
  import opened Options
  import opened Sequences
  import opened Sorting
  import opened Reachability

  type Adjacency = map<string, set<string>>

  // ---------- breadth-first distances ----------

  /** `d` holds every note within `depth` steps of the root, with the length of a shortest walk. */
  ghost predicate ShortestWithin(adjacency: Adjacency, root: string, depth: nat, d: map<string, nat>) {
    && (forall p :: p in d ==> d[p] <= depth && Walk(adjacency, root, p, d[p]))
    && (forall p, n: nat :: n <= depth && Walk(adjacency, root, p, n) ==> p in d && d[p] <= n)
  }

  /** What the search keeps true of its queue: no repetition, and never two levels apart. */
  ghost predicate QueueOk(queue: seq<string>, d: map<string, nat>, index: nat) {
    && (forall i :: 0 <= i < |queue| ==> queue[i] in d)
    && (forall p :: p in d ==> p in queue)
    && |queue| == |d|
    && (forall i, j :: 0 <= i <= j < |queue| ==> d[queue[i]] <= d[queue[j]])
    && (index < |queue| ==> d[queue[|queue| - 1]] <= d[queue[index]] + 1)
  }

  ghost predicate Sound(adjacency: Adjacency, root: string, depth: nat, d: map<string, nat>) {
    && root in d && d[root] == 0
    && forall p :: p in d ==> d[p] <= depth && Walk(adjacency, root, p, d[p])
  }

  ghost predicate Covers(d: map<string, nat>, neighbours: set<string>, distance: nat) {
    forall q :: q in neighbours ==> q in d && d[q] <= distance + 1
  }

  ghost predicate CoversExcept(d: map<string, nat>, neighbours: set<string>, rest: set<string>, distance: nat) {
    forall q :: q in neighbours && q !in rest ==> q in d && d[q] <= distance + 1
  }

  /** The first `index` entries of the queue are expanded. */
  ghost predicate Expanded(adjacency: Adjacency, depth: nat, queue: seq<string>, d: map<string, nat>, index: nat) {
    forall i :: 0 <= i < index && i < |queue| && queue[i] in d && queue[i] in adjacency && d[queue[i]] < depth ==>
      Covers(d, adjacency[queue[i]], d[queue[i]])
  }

  ghost predicate Searching(adjacency: Adjacency, root: string, depth: nat, queue: seq<string>, d: map<string, nat>, index: nat) {
    QueueOk(queue, d, index) && Sound(adjacency, root, depth, d) && Expanded(adjacency, depth, queue, d, index)
  }

  /** Reaching one new neighbour of the entry being expanded. */
  lemma {:induction false} Discover(adjacency: Adjacency, root: string, depth: nat, queue: seq<string>, d: map<string, nat>, index: nat, q: string)
    requires index < |queue| && Searching(adjacency, root, depth, queue, d, index)
    requires queue[index] in adjacency && q in adjacency[queue[index]] && q !in d && d[queue[index]] < depth
    ensures Searching(adjacency, root, depth, queue + [q], d[q := d[queue[index]] + 1], index)
  {
    WalkStep(adjacency, root, queue[index], q, d[queue[index]]);
    DiscoverQueue(queue, d, index, q);
    DiscoverExpanded(adjacency, depth, queue, d, index, q);
  }

  lemma {:induction false} DiscoverQueue(queue: seq<string>, d: map<string, nat>, index: nat, q: string)
    requires index < |queue| && QueueOk(queue, d, index) && q !in d
    ensures QueueOk(queue + [q], d[q := d[queue[index]] + 1], index)
  {
    DiscoverMembers(queue, d, d[q := d[queue[index]] + 1], q);
    DiscoverLevels(queue, d, index, q);
  }

  lemma {:induction false} DiscoverLevels(queue: seq<string>, d: map<string, nat>, index: nat, q: string)
    requires index < |queue| && q !in d && forall i :: 0 <= i < |queue| ==> queue[i] in d
    requires forall i, j :: 0 <= i <= j < |queue| ==> d[queue[i]] <= d[queue[j]]
    requires d[queue[|queue| - 1]] <= d[queue[index]] + 1
    ensures var queue', d' := queue + [q], d[q := d[queue[index]] + 1];
            && (forall i :: 0 <= i < |queue'| ==> queue'[i] in d')
            && (forall i, j :: 0 <= i <= j < |queue'| ==> d'[queue'[i]] <= d'[queue'[j]])
            && d'[queue'[|queue'| - 1]] <= d'[queue'[index]] + 1
  {
    var queue', d' := queue + [q], d[q := d[queue[index]] + 1];
    forall i | 0 <= i < |queue'| ensures queue'[i] in d' && d'[queue'[i]] <= d'[q] {
      if i < |queue| {
        assert d[queue[i]] <= d[queue[|queue| - 1]];
      }
    }
    forall i, j | 0 <= i <= j < |queue'| ensures d'[queue'[i]] <= d'[queue'[j]] {
      if j < |queue| {
        assert queue'[i] == queue[i] && queue'[j] == queue[j];
      }
    }
  }

  lemma {:induction false} DiscoverMembers(queue: seq<string>, d: map<string, nat>, d': map<string, nat>, q: string)
    requires (forall p :: p in d ==> p in queue) && |queue| == |d| && q !in d && d'.Keys == d.Keys + {q}
    ensures forall p :: p in d' ==> p in queue + [q]
    ensures |queue + [q]| == |d'|
  {
    assert |d'.Keys| == |d.Keys| + 1;
    assert (queue + [q])[|queue|] == q;
  }

  lemma {:induction false} DiscoverExpanded(adjacency: Adjacency, depth: nat, queue: seq<string>, d: map<string, nat>, index: nat, q: string)
    requires index < |queue| && QueueOk(queue, d, index) && Expanded(adjacency, depth, queue, d, index) && q !in d
    ensures Expanded(adjacency, depth, queue + [q], d[q := d[queue[index]] + 1], index)
  {
    var queue', d' := queue + [q], d[q := d[queue[index]] + 1];
    forall i | 0 <= i < index && queue'[i] in d' && queue'[i] in adjacency && d'[queue'[i]] < depth
      ensures Covers(d', adjacency[queue'[i]], d'[queue'[i]])
    {
      assert queue'[i] == queue[i] && Covers(d, adjacency[queue[i]], d[queue[i]]);
    }
  }

  lemma {:induction false} ExpandedNext(adjacency: Adjacency, root: string, depth: nat, queue: seq<string>, d: map<string, nat>, index: nat)
    requires index < |queue| && Searching(adjacency, root, depth, queue, d, index)
    requires queue[index] in adjacency && d[queue[index]] < depth ==> Covers(d, adjacency[queue[index]], d[queue[index]])
    ensures Searching(adjacency, root, depth, queue, d, index + 1)
  {
  }

  /** When the whole queue is expanded nothing within reach is missing or too far. */
  lemma {:induction false} ReachesAll(adjacency: Adjacency, root: string, depth: nat, queue: seq<string>, d: map<string, nat>, p: string, n: nat)
    requires Searching(adjacency, root, depth, queue, d, |queue|)
    requires n <= depth && Walk(adjacency, root, p, n)
    ensures p in d && d[p] <= n
    decreases n
  {
    if n > 0 {
      var u :| u in adjacency && p in adjacency[u] && Walk(adjacency, root, u, n - 1);
      ReachesAll(adjacency, root, depth, queue, d, u, n - 1);
      var i :| 0 <= i < |queue| && queue[i] == u;
      assert Covers(d, adjacency[queue[i]], d[queue[i]]);
    }
  }

  lemma {:induction false} SearchComplete(adjacency: Adjacency, root: string, depth: nat, queue: seq<string>, d: map<string, nat>)
    requires Searching(adjacency, root, depth, queue, d, |queue|)
    ensures ShortestWithin(adjacency, root, depth, d)
  {
    forall p, n: nat | n <= depth && Walk(adjacency, root, p, n) ensures p in d && d[p] <= n {
      ReachesAll(adjacency, root, depth, queue, d, p, n);
    }
  }

  lemma {:induction false} SearchStarts(adjacency: Adjacency, root: string, depth: nat)
    ensures Searching(adjacency, root, depth, [root], map[root := 0], 0)
  {
  }

  /** Every note the search can ever meet. */
  ghost function Universe(adjacency: Adjacency): set<string> {
    adjacency.Keys + set p, q | p in adjacency && q in adjacency[p] :: q
  }

  ghost predicate Inside(adjacency: Adjacency, d: map<string, nat>) {
    d.Keys <= Universe(adjacency)
  }

  lemma {:induction false} InsideMore(adjacency: Adjacency, d: map<string, nat>, u: string, v: string, n: nat)
    requires Inside(adjacency, d) && u in adjacency && v in adjacency[u]
    ensures Inside(adjacency, d[v := n])
  {
    assert d[v := n].Keys == d.Keys + {v};
  }

  lemma {:induction false} QueueFits(adjacency: Adjacency, queue: seq<string>, d: map<string, nat>)
    requires |queue| == |d| && Inside(adjacency, d)
    ensures |queue| <= |Universe(adjacency)|
  {
    SubsetSize(d.Keys, Universe(adjacency));
  }

  lemma {:induction false} SubsetSize<T>(a: set<T>, b: set<T>)
    requires a <= b
    ensures |a| <= |b|
    decreases a
  {
    if a != {} {
      var x :| x in a;
      SubsetSize(a - {x}, b - {x});
    }
  }

  /** Answers None for a root that is not indexed, where the original throws. */
  method LocalDistances(rootPath: string, depth: nat, adjacency: Adjacency) returns (r: Option<map<string, nat>>)
    ensures r.Some? <==> rootPath in adjacency
    ensures r.Some? ==> ShortestWithin(adjacency, rootPath, depth, r.value)
  {
    if rootPath !in adjacency {
      return None;
    }
    var distances: map<string, nat> := map[rootPath := 0];
    var queue := [rootPath];
    SearchStarts(adjacency, rootPath, depth);
    hide Searching, Covers, Universe, Inside;
    var index := 0;
    RootInside(adjacency, rootPath);
    while index < |queue|
      invariant index <= |queue| && Searching(adjacency, rootPath, depth, queue, distances, index)
      invariant Inside(adjacency, distances)
      decreases |Universe(adjacency)| - index
    {
      var path := queue[index];
      EntryKnown(adjacency, rootPath, depth, queue, distances, index);
      QueueFits(adjacency, queue, distances);
      var distance := distances[path];
      if distance < depth && path in adjacency {
        queue, distances := Expand(rootPath, depth, adjacency, queue, distances, index);
      }
      ExpandedNext(adjacency, rootPath, depth, queue, distances, index);
      index := index + 1;
    }
    SearchComplete(adjacency, rootPath, depth, queue, distances);
    r := Some(distances);
  }

  lemma RootInside(adjacency: Adjacency, root: string)
    requires root in adjacency
    ensures Inside(adjacency, map[root := 0])
  {
  }

  lemma {:induction false} EntryKnown(adjacency: Adjacency, root: string, depth: nat, queue: seq<string>, d: map<string, nat>, index: nat)
    requires index < |queue| && Searching(adjacency, root, depth, queue, d, index)
    ensures queue[index] in d && |queue| == |d|
  {
  }

  lemma {:induction false} CoversMore(d: map<string, nat>, neighbours: set<string>, rest: set<string>, q: string, root: string, depth: nat,
                     adjacency: Adjacency, queue: seq<string>, index: nat)
    requires index < |queue| && Searching(adjacency, root, depth, queue, d, index) && queue[index] in d
    requires CoversExcept(d, neighbours, rest, d[queue[index]])
    ensures q in d ==> CoversExcept(d, neighbours, rest - {q}, d[queue[index]])
    ensures q !in d ==> CoversExcept(d[q := d[queue[index]] + 1], neighbours, rest - {q}, d[queue[index]])
  {
    if q in d {
      var i :| 0 <= i < |queue| && queue[i] == q;
      assert d[queue[i]] <= d[queue[|queue| - 1]];
    }
  }

  lemma CoversBounds(d: map<string, nat>, neighbours: set<string>, distance: nat)
    ensures CoversExcept(d, neighbours, neighbours, distance)
    ensures CoversExcept(d, neighbours, {}, distance) ==> Covers(d, neighbours, distance)
  {
  }

  /** Visits the neighbours of one entry, in any order. */
  method Expand(root: string, depth: nat, adjacency: Adjacency, queue0: seq<string>, d0: map<string, nat>, index: nat)
      returns (queue: seq<string>, d: map<string, nat>)
    requires index < |queue0| && Searching(adjacency, root, depth, queue0, d0, index) && Inside(adjacency, d0)
    requires queue0[index] in adjacency && queue0[index] in d0 && d0[queue0[index]] < depth
    ensures |queue0| <= |queue| && queue[index] == queue0[index] && queue[index] in d
    ensures Searching(adjacency, root, depth, queue, d, index) && Inside(adjacency, d)
    ensures Covers(d, adjacency[queue[index]], d[queue[index]])
  {
    hide Searching, Covers, CoversExcept, Inside;
    queue, d := queue0, d0;
    var path := queue[index];
    var rest := adjacency[path];
    CoversBounds(d, rest, d[path]);
    while rest != {}
      invariant |queue0| <= |queue| && queue[index] == path && path in d && d[path] == d0[path]
      invariant rest <= adjacency[path]
      invariant Searching(adjacency, root, depth, queue, d, index) && Inside(adjacency, d)
      invariant CoversExcept(d, adjacency[path], rest, d[path])
      decreases rest
    {
      var neighbour :| neighbour in rest;
      CoversMore(d, adjacency[path], rest, neighbour, root, depth, adjacency, queue, index);
      if neighbour !in d {
        Discover(adjacency, root, depth, queue, d, index, neighbour);
        InsideMore(adjacency, d, path, neighbour, d[path] + 1);
        d := d[neighbour := d[path] + 1];
        queue := queue + [neighbour];
      }
      rest := rest - {neighbour};
    }
    CoversBounds(d, adjacency[path], d[path]);
  }

  // ---------- edges ----------

  /** A note with the targets its links resolve to; None where a link does not resolve. */
  datatype Document = Document(path: string, links: seq<Option<string>>)

  datatype Edge = Edge(source: string, target: string)

  function PathsOf(documents: seq<Document>): set<string> {
    set document | document in documents :: document.path
  }

  /** How many of the first `n` links resolve to `target`. */
  ghost function LinksTo(links: seq<Option<string>>, n: nat, target: string): nat
    requires n <= |links|
  {
    if n == 0 then 0 else LinksTo(links, n - 1, target) + if links[n - 1] == Some(target) then 1 else 0
  }

  /** How many links of the first `n` notes lead from `source` to `target`. */
  ghost function Occurrences(documents: seq<Document>, n: nat, e: Edge): nat
    requires n <= |documents|
  {
    if n == 0 then 0
    else Occurrences(documents, n - 1, e)
         + if documents[n - 1].path == e.source then LinksTo(documents[n - 1].links, |documents[n - 1].links|, e.target) else 0
  }

  /** After `n` notes and `k` links of the next one, every edge between indexed notes is counted. */
  ghost predicate Counted(documents: seq<Document>, paths: set<string>, n: nat, k: nat, counts: map<Edge, nat>)
    requires n <= |documents| && (n == |documents| ==> k == 0) && (n < |documents| ==> k <= |documents[n].links|)
  {
    forall e: Edge ::
      var total := Occurrences(documents, n, e)
                   + if n < |documents| && documents[n].path == e.source then LinksTo(documents[n].links, k, e.target) else 0;
      if e.target in paths && total > 0 then e in counts && counts[e] == total else e !in counts
  }

  lemma {:induction false} CountedStart(documents: seq<Document>, paths: set<string>)
    ensures Counted(documents, paths, 0, 0, map[])
  {
  }

  lemma {:induction false} CountedNextNote(documents: seq<Document>, paths: set<string>, n: nat, counts: map<Edge, nat>)
    requires n < |documents| && Counted(documents, paths, n, |documents[n].links|, counts)
    ensures Counted(documents, paths, n + 1, 0, counts)
  {
  }

  lemma {:induction false} CountedNextLink(documents: seq<Document>, paths: set<string>, n: nat, k: nat, counts: map<Edge, nat>)
    requires n < |documents| && k < |documents[n].links| && Counted(documents, paths, n, k, counts)
    ensures var link := documents[n].links[k];
            if link.None? || link.value !in paths then Counted(documents, paths, n, k + 1, counts)
            else
              var e := Edge(documents[n].path, link.value);
              Counted(documents, paths, n, k + 1, counts[e := if e in counts then counts[e] + 1 else 1])
  {
    var link := documents[n].links[k];
    if link.Some? && link.value in paths {
      var e := Edge(documents[n].path, link.value);
      var counts' := counts[e := if e in counts then counts[e] + 1 else 1];
      forall x: Edge | x != e ensures x in counts' <==> x in counts {}
    }
  }

  /** Counts the links between indexed notes, one entry per ordered pair. */
  method GraphEdges(documents: seq<Document>) returns (counts: map<Edge, nat>)
    ensures Counted(documents, PathsOf(documents), |documents|, 0, counts)
  {
    var paths := PathsOf(documents);
    counts := map[];
    CountedStart(documents, paths);
    hide Counted;
    for n := 0 to |documents|
      invariant Counted(documents, paths, n, 0, counts)
    {
      var document := documents[n];
      for k := 0 to |document.links|
        invariant Counted(documents, paths, n, k, counts)
      {
        CountedNextLink(documents, paths, n, k, counts);
        if document.links[k].Some? && document.links[k].value in paths {
          var edge := Edge(document.path, document.links[k].value);
          counts := counts[edge := if edge in counts then counts[edge] + 1 else 1];
        }
      }
      CountedNextNote(documents, paths, n, counts);
    }
  }

  lemma {:induction false} EdgesJoinNotes(documents: seq<Document>, counts: map<Edge, nat>, e: Edge)
    requires Counted(documents, PathsOf(documents), |documents|, 0, counts) && e in counts
    ensures e.source in PathsOf(documents) && e.target in PathsOf(documents)
  {
    assert Occurrences(documents, |documents|, e) > 0;
    SourceOccurs(documents, |documents|, e);
  }

  lemma {:induction false} SourceOccurs(documents: seq<Document>, n: nat, e: Edge)
    requires n <= |documents| && Occurrences(documents, n, e) > 0
    ensures e.source in PathsOf(documents)
    decreases n
  {
    if documents[n - 1].path == e.source {
      assert documents[n - 1] in documents;
    } else {
      SourceOccurs(documents, n - 1, e);
    }
  }

  /** Two notes are neighbours exactly when some edge joins them, in either direction. */
  ghost predicate Undirected(paths: set<string>, edges: set<Edge>, adjacency: Adjacency) {
    && adjacency.Keys == paths
    && forall a, b :: a in paths ==>
         (b in adjacency[a] <==> Edge(a, b) in edges || (Edge(b, a) in edges && b in paths))
  }

  method AdjacencyFor(paths: set<string>, edges: set<Edge>) returns (adjacency: Adjacency)
    requires forall e :: e in edges ==> e.source in paths && e.target in paths
    ensures Undirected(paths, edges, adjacency)
  {
    adjacency := map path | path in paths :: {};
    var rest := edges;
    ghost var done: set<Edge> := {};
    while rest != {}
      invariant done <= edges && rest <= edges && forall e :: e in edges ==> e in done || e in rest
      invariant Undirected(paths, done, adjacency)
      decreases rest
    {
      var edge :| edge in rest;
      AddEdge(paths, done, adjacency, edge);
      adjacency := adjacency[edge.source := adjacency[edge.source] + {edge.target}];
      adjacency := adjacency[edge.target := adjacency[edge.target] + {edge.source}];
      rest, done := rest - {edge}, done + {edge};
    }
    assert done == edges;
  }

  lemma {:induction false} AddEdge(paths: set<string>, done: set<Edge>, adjacency: Adjacency, e: Edge)
    requires Undirected(paths, done, adjacency) && e.source in paths && e.target in paths
    ensures var once := adjacency[e.source := adjacency[e.source] + {e.target}];
            Undirected(paths, done + {e}, once[e.target := once[e.target] + {e.source}])
  {
    var once := adjacency[e.source := adjacency[e.source] + {e.target}];
    var twice := once[e.target := once[e.target] + {e.source}];
    assert twice.Keys == paths;
  }

  // ---------- how often a note is linked ----------

  datatype LinkCounts = LinkCounts(incoming: nat, outgoing: nat)

  /** How many links of the first `n` notes resolve to `path`. */
  ghost function LinksInto(documents: seq<Document>, n: nat, path: string): nat
    requires n <= |documents|
  {
    if n == 0 then 0 else LinksInto(documents, n - 1, path) + LinksTo(documents[n - 1].links, |documents[n - 1].links|, path)
  }

  /** How many of the first `k` links resolve to one of `paths`. */
  ghost function LinksWithin(links: seq<Option<string>>, k: nat, paths: set<string>): nat
    requires k <= |links|
  {
    if k == 0 then 0 else LinksWithin(links, k - 1, paths) + if links[k - 1].Some? && links[k - 1].value in paths then 1 else 0
  }

  /** How many links of the note at `path`, among the first `n` notes, resolve to one of `paths`. */
  ghost function LinksOutOf(documents: seq<Document>, n: nat, path: string, paths: set<string>): nat
    requires n <= |documents|
  {
    if n == 0 then 0
    else LinksOutOf(documents, n - 1, path, paths)
         + if documents[n - 1].path == path then LinksWithin(documents[n - 1].links, |documents[n - 1].links|, paths) else 0
  }

  /** Every note has as many incoming links as resolve to it, and as many outgoing ones as resolve to any note. */
  ghost predicate DegreesAre(documents: seq<Document>, degrees: map<string, LinkCounts>) {
    degrees.Keys == PathsOf(documents) && forall p :: p in degrees ==>
      degrees[p] == LinkCounts(LinksInto(documents, |documents|, p), LinksOutOf(documents, |documents|, p, PathsOf(documents)))
  }

  /** Links into `path` along the edges `done`. */
  ghost function IntoAlong(documents: seq<Document>, n: nat, path: string, done: set<Edge>): nat
    requires n <= |documents|
  {
    if n == 0 then 0
    else IntoAlong(documents, n - 1, path, done)
         + if Edge(documents[n - 1].path, path) in done then LinksTo(documents[n - 1].links, |documents[n - 1].links|, path) else 0
  }

  ghost function WithinAlong(links: seq<Option<string>>, k: nat, source: string, done: set<Edge>): nat
    requires k <= |links|
  {
    if k == 0 then 0
    else WithinAlong(links, k - 1, source, done) + if links[k - 1].Some? && Edge(source, links[k - 1].value) in done then 1 else 0
  }

  /** Links out of `path` along the edges `done`. */
  ghost function OutAlong(documents: seq<Document>, n: nat, path: string, done: set<Edge>): nat
    requires n <= |documents|
  {
    if n == 0 then 0
    else OutAlong(documents, n - 1, path, done)
         + if documents[n - 1].path == path then WithinAlong(documents[n - 1].links, |documents[n - 1].links|, path, done) else 0
  }

  lemma {:induction false} IntoMore(documents: seq<Document>, n: nat, path: string, done: set<Edge>, e: Edge)
    requires n <= |documents| && e !in done
    ensures IntoAlong(documents, n, path, done + {e})
         == IntoAlong(documents, n, path, done) + if e.target == path then Occurrences(documents, n, e) else 0
    decreases n
  {
    if n > 0 {
      IntoMore(documents, n - 1, path, done, e);
    }
  }

  lemma {:induction false} WithinMore(links: seq<Option<string>>, k: nat, source: string, done: set<Edge>, e: Edge)
    requires k <= |links| && e !in done
    ensures WithinAlong(links, k, source, done + {e})
         == WithinAlong(links, k, source, done) + if e.source == source then LinksTo(links, k, e.target) else 0
    decreases k
  {
    if k > 0 {
      WithinMore(links, k - 1, source, done, e);
    }
  }

  lemma {:induction false} OutMore(documents: seq<Document>, n: nat, path: string, done: set<Edge>, e: Edge)
    requires n <= |documents| && e !in done
    ensures OutAlong(documents, n, path, done + {e})
         == OutAlong(documents, n, path, done) + if e.source == path then Occurrences(documents, n, e) else 0
    decreases n
  {
    if n > 0 {
      OutMore(documents, n - 1, path, done, e);
      WithinMore(documents[n - 1].links, |documents[n - 1].links|, path, done, e);
    }
  }

  lemma {:induction false} NothingAlong(documents: seq<Document>, n: nat, path: string)
    requires n <= |documents|
    ensures IntoAlong(documents, n, path, {}) == 0 && OutAlong(documents, n, path, {}) == 0
    decreases n
  {
    if n > 0 {
      NothingAlong(documents, n - 1, path);
      NothingWithin(documents[n - 1].links, |documents[n - 1].links|, path);
    }
  }

  lemma {:induction false} NothingWithin(links: seq<Option<string>>, k: nat, source: string)
    requires k <= |links|
    ensures WithinAlong(links, k, source, {}) == 0
    decreases k
  {
    if k > 0 {
      NothingWithin(links, k - 1, source);
    }
  }

  lemma {:induction false} OccursAtLeast(documents: seq<Document>, n: nat, m: nat, target: string)
    requires m < n <= |documents|
    ensures Occurrences(documents, n, Edge(documents[m].path, target)) >= LinksTo(documents[m].links, |documents[m].links|, target)
    decreases n
  {
    if m < n - 1 {
      OccursAtLeast(documents, n - 1, m, target);
    }
  }

  lemma {:induction false} LinkOccurs(links: seq<Option<string>>, n: nat, k: nat)
    requires k < n <= |links| && links[k].Some?
    ensures LinksTo(links, n, links[k].value) >= 1
    decreases n
  {
    if k < n - 1 {
      LinkOccurs(links, n - 1, k);
    }
  }

  /** Along all edges run all the links into a note. */
  lemma {:induction false} AllInto(documents: seq<Document>, n: nat, path: string, counts: map<Edge, nat>)
    requires n <= |documents| && path in PathsOf(documents) && Counted(documents, PathsOf(documents), |documents|, 0, counts)
    ensures IntoAlong(documents, n, path, counts.Keys) == LinksInto(documents, n, path)
    decreases n
  {
    if n > 0 {
      AllInto(documents, n - 1, path, counts);
      OccursAtLeast(documents, |documents|, n - 1, path);
    }
  }

  lemma {:induction false} AllWithin(documents: seq<Document>, m: nat, k: nat, counts: map<Edge, nat>)
    requires m < |documents| && k <= |documents[m].links| && Counted(documents, PathsOf(documents), |documents|, 0, counts)
    ensures WithinAlong(documents[m].links, k, documents[m].path, counts.Keys) == LinksWithin(documents[m].links, k, PathsOf(documents))
    decreases k
  {
    if k > 0 {
      AllWithin(documents, m, k - 1, counts);
      var link := documents[m].links[k - 1];
      if link.Some? {
        LinkOccurs(documents[m].links, |documents[m].links|, k - 1);
        OccursAtLeast(documents, |documents|, m, link.value);
      }
    }
  }

  lemma {:induction false} AllOutOf(documents: seq<Document>, n: nat, path: string, counts: map<Edge, nat>)
    requires n <= |documents| && Counted(documents, PathsOf(documents), |documents|, 0, counts)
    ensures OutAlong(documents, n, path, counts.Keys) == LinksOutOf(documents, n, path, PathsOf(documents))
    decreases n
  {
    if n > 0 {
      AllOutOf(documents, n - 1, path, counts);
      AllWithin(documents, n - 1, |documents[n - 1].links|, counts);
      hide Counted;
    }
  }

  /** The numbers so far, along the edges `done`. */
  ghost predicate DegreesAlong(documents: seq<Document>, paths: set<string>, done: set<Edge>, degrees: map<string, LinkCounts>) {
    degrees.Keys == paths && forall p :: p in degrees ==>
      degrees[p] == LinkCounts(IntoAlong(documents, |documents|, p, done), OutAlong(documents, |documents|, p, done))
  }

  lemma {:induction false} DegreesMore(documents: seq<Document>, paths: set<string>, done: set<Edge>, degrees: map<string, LinkCounts>, e: Edge,
                                       occurrences: nat, next: map<string, LinkCounts>)
    requires DegreesAlong(documents, paths, done, degrees) && e !in done && occurrences == Occurrences(documents, |documents|, e)
    requires next.Keys == paths && forall p :: p in paths ==>
      next[p] == LinkCounts(degrees[p].incoming + (if e.target == p then occurrences else 0),
                        degrees[p].outgoing + if e.source == p then occurrences else 0)
    ensures DegreesAlong(documents, paths, done + {e}, next)
  {
    forall p | p in next
      ensures next[p] == LinkCounts(IntoAlong(documents, |documents|, p, done + {e}), OutAlong(documents, |documents|, p, done + {e}))
    {
      IntoMore(documents, |documents|, p, done, e);
      OutMore(documents, |documents|, p, done, e);
    }
  }

  lemma {:induction false} DegreesEnd(documents: seq<Document>, counts: map<Edge, nat>, degrees: map<string, LinkCounts>)
    requires Counted(documents, PathsOf(documents), |documents|, 0, counts)
    requires DegreesAlong(documents, PathsOf(documents), counts.Keys, degrees)
    ensures DegreesAre(documents, degrees)
  {
    hide Counted;
    forall p | p in degrees
      ensures degrees[p] == LinkCounts(LinksInto(documents, |documents|, p), LinksOutOf(documents, |documents|, p, PathsOf(documents)))
    {
      AllInto(documents, |documents|, p, counts);
      AllOutOf(documents, |documents|, p, counts);
    }
  }

  lemma DegreesStart(documents: seq<Document>, paths: set<string>)
    ensures DegreesAlong(documents, paths, {}, map p | p in paths :: LinkCounts(0, 0))
  {
    forall p | p in paths ensures IntoAlong(documents, |documents|, p, {}) == 0 && OutAlong(documents, |documents|, p, {}) == 0 {
      NothingAlong(documents, |documents|, p);
    }
  }

  /** Adds the numbers of all edges up, at both of their ends. */
  method CountsFor(documents: seq<Document>, paths: set<string>, counts: map<Edge, nat>) returns (degrees: map<string, LinkCounts>)
    requires paths == PathsOf(documents) && Counted(documents, paths, |documents|, 0, counts)
    ensures DegreesAre(documents, degrees)
  {
    DegreesStart(documents, paths);
    degrees := map p | p in paths :: LinkCounts(0, 0);
    var rest := counts.Keys;
    ghost var done: set<Edge> := {};
    while rest != {}
      invariant rest !! done && rest + done == counts.Keys
      invariant DegreesAlong(documents, paths, done, degrees)
      decreases rest
    {
      var e :| e in rest;
      EdgesJoinNotes(documents, counts, e);
      assert counts[e] == Occurrences(documents, |documents|, e);
      ghost var before := degrees;
      degrees := degrees[e.source := degrees[e.source].(outgoing := degrees[e.source].outgoing + counts[e])];
      degrees := degrees[e.target := degrees[e.target].(incoming := degrees[e.target].incoming + counts[e])];
      DegreesMore(documents, paths, done, before, e, counts[e], degrees);
      rest, done := rest - {e}, done + {e};
    }
    assert done == counts.Keys;
    DegreesEnd(documents, counts, degrees);
  }

  // ---------- every link is counted at both ends ----------

  ghost predicate DistinctPaths(documents: seq<Document>) {
    forall i, j :: 0 <= i < j < |documents| ==> documents[i].path != documents[j].path
  }

  ghost function Incoming(documents: seq<Document>, m: nat, degrees: map<string, LinkCounts>): nat
    requires m <= |documents| && PathsOf(documents) <= degrees.Keys
  {
    if m == 0 then 0 else assert documents[m - 1] in documents; Incoming(documents, m - 1, degrees) + degrees[documents[m - 1].path].incoming
  }

  ghost function Outgoing(documents: seq<Document>, m: nat, degrees: map<string, LinkCounts>): nat
    requires m <= |documents| && PathsOf(documents) <= degrees.Keys
  {
    if m == 0 then 0 else assert documents[m - 1] in documents; Outgoing(documents, m - 1, degrees) + degrees[documents[m - 1].path].outgoing
  }

  /** All links of the first `n` notes that resolve to a note. */
  ghost function AllLinks(documents: seq<Document>, n: nat, paths: set<string>): nat
    requires n <= |documents|
  {
    if n == 0 then 0 else AllLinks(documents, n - 1, paths) + LinksWithin(documents[n - 1].links, |documents[n - 1].links|, paths)
  }

  /** The links to any of the first `m` notes. */
  ghost function LinksToFirst(documents: seq<Document>, m: nat, links: seq<Option<string>>): nat
    requires m <= |documents|
  {
    if m == 0 then 0 else LinksToFirst(documents, m - 1, links) + LinksTo(links, |links|, documents[m - 1].path)
  }

  /** The links of the first `n` notes to any of the first `m` notes. */
  ghost function Into(documents: seq<Document>, m: nat, n: nat): nat
    requires m <= |documents| && n <= |documents|
  {
    if m == 0 then 0 else Into(documents, m - 1, n) + LinksInto(documents, n, documents[m - 1].path)
  }

  lemma {:induction false} IntoStep(documents: seq<Document>, m: nat, n: nat)
    requires m <= |documents| && 0 < n <= |documents|
    ensures Into(documents, m, n) == Into(documents, m, n - 1) + LinksToFirst(documents, m, documents[n - 1].links)
    decreases m
  {
    if m > 0 {
      IntoStep(documents, m - 1, n);
    }
  }

  lemma {:induction false} IntoNothing(documents: seq<Document>, m: nat)
    requires m <= |documents|
    ensures Into(documents, m, 0) == 0
    decreases m
  {
    if m > 0 {
      IntoNothing(documents, m - 1);
    }
  }

  lemma {:induction false} WithinOneMore(links: seq<Option<string>>, k: nat, paths: set<string>, path: string)
    requires k <= |links| && path !in paths
    ensures LinksWithin(links, k, paths + {path}) == LinksWithin(links, k, paths) + LinksTo(links, k, path)
    decreases k
  {
    if k > 0 {
      WithinOneMore(links, k - 1, paths, path);
    }
  }

  ghost function FirstPaths(documents: seq<Document>, m: nat): set<string>
    requires m <= |documents|
  {
    if m == 0 then {} else FirstPaths(documents, m - 1) + {documents[m - 1].path}
  }

  lemma {:induction false} FirstPathsAre(documents: seq<Document>, m: nat)
    requires m <= |documents|
    ensures forall p :: p in FirstPaths(documents, m) <==> exists i :: 0 <= i < m && documents[i].path == p
    decreases m
  {
    if m > 0 {
      FirstPathsAre(documents, m - 1);
    }
  }

  lemma {:induction false} NoneWithin(links: seq<Option<string>>, k: nat)
    requires k <= |links|
    ensures LinksWithin(links, k, {}) == 0
    decreases k
  {
    if k > 0 {
      NoneWithin(links, k - 1);
    }
  }

  lemma {:induction false} ToFirstIsWithin(documents: seq<Document>, m: nat, links: seq<Option<string>>)
    requires m <= |documents| && DistinctPaths(documents)
    ensures LinksToFirst(documents, m, links) == LinksWithin(links, |links|, FirstPaths(documents, m))
    decreases m
  {
    if m == 0 {
      NoneWithin(links, |links|);
    } else {
      ToFirstIsWithin(documents, m - 1, links);
      FirstPathsAre(documents, m - 1);
      WithinOneMore(links, |links|, FirstPaths(documents, m - 1), documents[m - 1].path);
    }
  }

  lemma {:induction false} IntoIsAll(documents: seq<Document>, n: nat)
    requires n <= |documents| && DistinctPaths(documents)
    ensures Into(documents, |documents|, n) == AllLinks(documents, n, PathsOf(documents))
    decreases n
  {
    if n == 0 {
      IntoNothing(documents, |documents|);
    } else {
      IntoIsAll(documents, n - 1);
      IntoStep(documents, |documents|, n);
      ToFirstIsWithin(documents, |documents|, documents[n - 1].links);
      FirstPathsAre(documents, |documents|);
      assert FirstPaths(documents, |documents|) == PathsOf(documents);
    }
  }

  lemma {:induction false} OutOfOne(documents: seq<Document>, n: nat, m: nat, paths: set<string>)
    requires m < |documents| && n <= |documents| && DistinctPaths(documents)
    ensures LinksOutOf(documents, n, documents[m].path, paths)
         == if m < n then LinksWithin(documents[m].links, |documents[m].links|, paths) else 0
    decreases n
  {
    if n > 0 {
      OutOfOne(documents, n - 1, m, paths);
    }
  }

  lemma {:induction false} SumsAre(documents: seq<Document>, m: nat, degrees: map<string, LinkCounts>)
    requires m <= |documents| && DegreesAre(documents, degrees) && DistinctPaths(documents)
    ensures Incoming(documents, m, degrees) == Into(documents, m, |documents|)
    ensures Outgoing(documents, m, degrees) == AllLinks(documents, m, PathsOf(documents))
    decreases m
  {
    if m > 0 {
      SumsAre(documents, m - 1, degrees);
      assert documents[m - 1] in documents;
      OutOfOne(documents, |documents|, m - 1, PathsOf(documents));
    }
  }

  /** Over all notes there are as many incoming as outgoing links: each that resolves to a note, once. */
  lemma {:induction false} EveryLinkCountsTwice(documents: seq<Document>, degrees: map<string, LinkCounts>)
    requires DegreesAre(documents, degrees) && DistinctPaths(documents)
    ensures Incoming(documents, |documents|, degrees) == Outgoing(documents, |documents|, degrees)
         == AllLinks(documents, |documents|, PathsOf(documents))
  {
    SumsAre(documents, |documents|, degrees);
    IntoIsAll(documents, |documents|);
  }

  // ---------- the projection ----------

  const MAX_GRAPH_NODES := 400
  const MAX_GRAPH_EDGES := 1200

  datatype Mode = Global | Local(rootPath: string, depth: nat)

  /** `matches` answers the query; `rank` stands for the position in locale order. */
  datatype Request = Request(mode: Mode, matches: Document -> bool, includeOrphans: bool,
                             maxNodes: int, maxEdges: int, rank: string -> int)

  datatype Node = Node(path: string, incoming: nat, outgoing: nat, neighbours: nat, distance: Option<nat>)

  datatype Projection = Projection(nodes: seq<Node>, edges: seq<Edge>, totalNodes: nat, totalEdges: nat, truncated: bool)

  function Clamp(requested: int, limit: nat): (n: nat)
    requires 1 <= limit
    ensures 1 <= n <= limit
  {
    if requested < 1 then 1 else if requested > limit then limit else requested
  }

  function Filter<T>(s: seq<T>, keep: T -> bool): seq<T> {
    if s == [] then [] else (if keep(s[0]) then [s[0]] else []) + Filter(s[1..], keep)
  }

  lemma {:induction false} FilterMembers<T>(s: seq<T>, keep: T -> bool)
    ensures forall x :: x in Filter(s, keep) <==> x in s && keep(x)
    decreases |s|
  {
    if s != [] {
      FilterMembers(s[1..], keep);
      HeadTail(s);
    }
  }

  function Take<T>(s: seq<T>, n: nat): seq<T> {
    if n < |s| then s[..n] else s
  }

  function DistanceOf(d: map<string, nat>, path: string): int {
    if path in d then d[path] else 9007199254740991
  }

  function Degree(adjacency: Adjacency, path: string): nat {
    if path in adjacency then |adjacency[path]| else 0
  }

  function IsEligible(request: Request, adjacency: Adjacency, d: map<string, nat>): Document -> bool {
    (document: Document) =>
      match request.mode
      case Local(root, _) => document.path in d && (document.path == root || request.matches(document))
      case Global => (request.includeOrphans || Degree(adjacency, document.path) > 0) && request.matches(document)
  }

  /** Nearest first, then most connected, then by name: three stable sorts, the last key first. */
  function SortNodes(eligible: seq<Document>, request: Request, adjacency: Adjacency, d: map<string, nat>): seq<Document> {
    var byName := SortBy(eligible, (x: Document) => request.rank(x.path));
    var byDegree := SortBy(byName, (x: Document) => 0 - Degree(adjacency, x.path));
    if request.mode.Local? then SortBy(byDegree, DistanceKey(d)) else byDegree
  }

  function DistanceKey(d: map<string, nat>): Document -> int {
    (x: Document) => DistanceOf(d, x.path)
  }

  lemma {:induction false} SortNodesSorts(eligible: seq<Document>, request: Request, adjacency: Adjacency, d: map<string, nat>)
    ensures request.mode.Local? ==> Sorted(SortNodes(eligible, request, adjacency, d), DistanceKey(d))
    ensures multiset(SortNodes(eligible, request, adjacency, d)) == multiset(eligible)
  {
    var byName := SortBy(eligible, (x: Document) => request.rank(x.path));
    var byDegree := SortBy(byName, (x: Document) => 0 - Degree(adjacency, x.path));
    SortBySorts(eligible, (x: Document) => request.rank(x.path));
    SortBySorts(byName, (x: Document) => 0 - Degree(adjacency, x.path));
    SortBySorts(byDegree, DistanceKey(d));
  }

  /**
   * In a local graph whose query matches everything, a prefix of the notes sorted by distance
   * holds the root, and with every other note a neighbour one step nearer the root.
   */
  lemma {:induction false} PrefixIsConnected(documents: seq<Document>, adjacency: Adjacency, root: string, depth: nat,
                             d: map<string, nat>, sorted: seq<Document>, n: nat)
    requires 1 <= n && root in adjacency && adjacency.Keys == PathsOf(documents)
    requires ShortestWithin(adjacency, root, depth, d)
    requires Sorted(sorted, DistanceKey(d)) && forall x :: x in sorted <==> x in documents && x.path in d
    ensures exists x :: x in Take(sorted, n) && x.path == root
    ensures forall x :: x in Take(sorted, n) && x.path != root ==> HasNearer(Take(sorted, n), adjacency, d, x)
  {
    assert Walk(adjacency, root, root, 0);
    var r :| r in documents && r.path == root;
    assert r in sorted;
    RootIsKept(adjacency, root, depth, d, sorted, n);
    hide Walk, ShortestWithin, Sorted;
    forall x | x in Take(sorted, n) && x.path != root ensures HasNearer(Take(sorted, n), adjacency, d, x) {
      var j :| 0 <= j < |Take(sorted, n)| && Take(sorted, n)[j] == x;
      var y := NearerNeighbour(documents, adjacency, root, depth, d, sorted, j);
    }
  }

  lemma {:induction false} NearerNeighbour(documents: seq<Document>, adjacency: Adjacency, root: string, depth: nat,
                           d: map<string, nat>, sorted: seq<Document>, j: nat) returns (y: Document)
    requires adjacency.Keys == PathsOf(documents) && ShortestWithin(adjacency, root, depth, d)
    requires Sorted(sorted, DistanceKey(d)) && forall x :: x in sorted <==> x in documents && x.path in d
    requires j < |sorted| && sorted[j].path != root
    ensures y in sorted[..j] && y.path in d && y.path in adjacency
    ensures sorted[j].path in adjacency[y.path] && sorted[j].path in d && d[y.path] + 1 == d[sorted[j].path]
  {
    var x := sorted[j];
    assert x in sorted;
    var m := d[x.path];
    var u :| u in adjacency && x.path in adjacency[u] && Walk(adjacency, root, u, m - 1);
    WalkStep(adjacency, root, u, x.path, d[u]);
    y :| y in documents && y.path == u;
    var i :| 0 <= i < |sorted| && sorted[i] == y;
    if j <= i {
      SortedAt(sorted, DistanceKey(d), j, i);
    }
    assert sorted[..j][i] == y;
  }

  lemma {:induction false} TakePart<T>(s: seq<T>, n: nat)
    ensures multiset(Take(s, n)) <= multiset(s)
    ensures |Take(s, n)| == if n < |s| then n else |s|
  {
    if n < |s| {
      assert s == s[..n] + s[n..];
    }
  }

  /** The root survives every query and every limit. */
  lemma {:induction false} RootIsKept(adjacency: Adjacency, root: string, depth: nat, d: map<string, nat>, sorted: seq<Document>, n: nat)
    requires 1 <= n && ShortestWithin(adjacency, root, depth, d)
    requires Sorted(sorted, DistanceKey(d)) && (forall x :: x in sorted ==> x.path in d) && exists x :: x in sorted && x.path == root
    ensures exists x :: x in Take(sorted, n) && x.path == root
  {
    assert Walk(adjacency, root, root, 0);
    var i :| 0 <= i < |sorted| && sorted[i].path == root;
    SortedAt(sorted, DistanceKey(d), 0, i);
    assert Take(sorted, n)[0] == sorted[0] && sorted[0] in sorted && d[sorted[0].path] == 0;
  }

  /** The ordered pairs of linked notes with both ends among `paths`. */
  function Between(counts: map<Edge, nat>, paths: set<string>): set<Edge> {
    set e | e in counts && e.source in paths && e.target in paths
  }

  function CountKey(counts: map<Edge, nat>): Edge -> int {
    (e: Edge) => if e in counts then 0 - (counts[e] as int) else 0
  }

  /** `selected` holds the most frequent `limit` of `edges`, none of them twice. */
  ghost predicate MostFrequent(edges: set<Edge>, counts: map<Edge, nat>, limit: nat, selected: seq<Edge>)
    requires edges <= counts.Keys
  {
    && multiset(selected) <= multiset(edges)
    && |selected| == (if limit < |edges| then limit else |edges|)
    && forall e, f :: e in selected && f in edges && f !in selected && e in counts ==> counts[f] <= counts[e]
  }

  method Enumerate(edges: set<Edge>) returns (s: seq<Edge>)
    ensures multiset(s) == multiset(edges)
  {
    s := [];
    var rest := edges;
    while rest != {}
      invariant rest <= edges && multiset(s) + multiset(rest) == multiset(edges)
      decreases rest
    {
      var e :| e in rest;
      rest := rest - {e};
      s := s + [e];
    }
  }

  lemma Taken<T>(s: seq<T>, n: nat, j: nat)
    requires j < |s| && j < n
    ensures s[j] in Take(s, n)
  {
    assert Take(s, n)[j] == s[j];
  }

  lemma {:induction false} FirstAreMostFrequent(edges: set<Edge>, counts: map<Edge, nat>, limit: nat, sorted: seq<Edge>)
    requires edges <= counts.Keys && multiset(sorted) == multiset(edges) && Sorted(sorted, CountKey(counts))
    ensures MostFrequent(edges, counts, limit, Take(sorted, limit))
  {
    TakePart(sorted, limit);
    assert |multiset(sorted)| == |sorted| && |multiset(edges)| == |edges|;
    forall e, f | e in Take(sorted, limit) && f in edges && f !in Take(sorted, limit) ensures e in counts && counts[f] <= counts[e] {
      assert f in multiset(sorted) && e in multiset(sorted);
      var i :| 0 <= i < |sorted| && i < limit && sorted[i] == e;
      var j :| 0 <= j < |sorted| && sorted[j] == f;
      if j < limit { Taken(sorted, limit, j); }
      SortedAt(sorted, CountKey(counts), i, j);
    }
  }

  /** More frequent edges first, then by the names of their ends. */
  predicate EdgeBefore(counts: map<Edge, nat>, rank: string -> int, x: Edge, y: Edge) {
    CountKey(counts)(x) < CountKey(counts)(y)
    || (CountKey(counts)(x) == CountKey(counts)(y)
        && (rank(x.source) < rank(y.source) || (rank(x.source) == rank(y.source) && rank(x.target) <= rank(y.target))))
  }

  lemma {:induction false} EdgesInOrder(all: seq<Edge>, counts: map<Edge, nat>, rank: string -> int, limit: nat)
    ensures Chain(Take(SortBy(SortBy(SortBy(all, (e: Edge) => rank(e.target)), (e: Edge) => rank(e.source)), CountKey(counts)), limit),
                  (x, y) => EdgeBefore(counts, rank, x, y))
  {
    var targetKey, sourceKey := (e: Edge) => rank(e.target), (e: Edge) => rank(e.source);
    var any := (x: Edge, y: Edge) => true;
    var byTarget, bySource := ThenBy(targetKey, any), ThenBy(sourceKey, ThenBy(targetKey, any));
    AnyChain(all, any);
    SortByIsStable(all, targetKey, any);
    SortByIsStable(SortBy(all, targetKey), sourceKey, byTarget);
    var sorted := SortBy(SortBy(SortBy(all, targetKey), sourceKey), CountKey(counts));
    SortByIsStable(SortBy(SortBy(all, targetKey), sourceKey), CountKey(counts), bySource);
    SameChain(sorted, ThenBy(CountKey(counts), bySource), (x, y) => EdgeBefore(counts, rank, x, y));
    if limit < |sorted| { ChainPrefix(sorted, limit, (x, y) => EdgeBefore(counts, rank, x, y)); }
  }

  /** The most frequent edges come first; ties are broken by the names of their ends. */
  method SelectEdges(edges: set<Edge>, counts: map<Edge, nat>, rank: string -> int, limit: nat) returns (selected: seq<Edge>)
    requires edges <= counts.Keys
    ensures MostFrequent(edges, counts, limit, selected)
    ensures Chain(selected, (x, y) => EdgeBefore(counts, rank, x, y))
  {
    hide MostFrequent, Chain;
    var all := Enumerate(edges);
    var byTarget := SortBy(all, (e: Edge) => rank(e.target));
    var bySource := SortBy(byTarget, (e: Edge) => rank(e.source));
    var sorted := SortBy(bySource, CountKey(counts));
    SortBySorts(all, (e: Edge) => rank(e.target));
    SortBySorts(byTarget, (e: Edge) => rank(e.source));
    SortBySorts(bySource, CountKey(counts));
    FirstAreMostFrequent(edges, counts, limit, sorted);
    EdgesInOrder(all, counts, rank, limit);
    selected := Take(sorted, limit);
  }

  function NodeFor(mode: Mode, d: map<string, nat>, degrees: map<string, LinkCounts>, adjacency: Adjacency, path: string): Node {
    var degree := if path in degrees then degrees[path] else LinkCounts(0, 0);
    Node(path, degree.incoming, degree.outgoing, if path in adjacency then |adjacency[path]| else 0,
         if mode.Local? && path in d then Some(d[path]) else None)
  }

  function NodesFor(mode: Mode, d: map<string, nat>, degrees: map<string, LinkCounts>, adjacency: Adjacency, documents: seq<Document>): seq<Node> {
    if documents == [] then []
    else [NodeFor(mode, d, degrees, adjacency, documents[0].path)] + NodesFor(mode, d, degrees, adjacency, documents[1..])
  }

  lemma {:induction false} NodesMembers(mode: Mode, d: map<string, nat>, degrees: map<string, LinkCounts>, adjacency: Adjacency,
                                        documents: seq<Document>)
    ensures |NodesFor(mode, d, degrees, adjacency, documents)| == |documents|
    ensures forall x :: x in NodesFor(mode, d, degrees, adjacency, documents) ==>
      exists y :: y in documents && x == NodeFor(mode, d, degrees, adjacency, y.path)
    ensures forall y :: y in documents ==> NodeFor(mode, d, degrees, adjacency, y.path) in NodesFor(mode, d, degrees, adjacency, documents)
    decreases |documents|
  {
    if documents != [] {
      NodesMembers(mode, d, degrees, adjacency, documents[1..]);
      HeadTail(documents);
    }
  }

  /** The notes a projection shows: the nearest of the eligible ones. */
  function Kept(documents: seq<Document>, request: Request, adjacency: Adjacency, d: map<string, nat>): seq<Document> {
    Take(SortNodes(Filter(documents, IsEligible(request, adjacency, d)), request, adjacency, d),
         Clamp(request.maxNodes, MAX_GRAPH_NODES))
  }

  /** Nearer notes first, then those with more neighbours, then by name. */
  predicate NoteBefore(request: Request, adjacency: Adjacency, d: map<string, nat>, x: Document, y: Document) {
    var byDegree := Degree(adjacency, x.path) > Degree(adjacency, y.path)
                    || (Degree(adjacency, x.path) == Degree(adjacency, y.path) && request.rank(x.path) <= request.rank(y.path));
    if request.mode.Local?
    then DistanceOf(d, x.path) < DistanceOf(d, y.path) || (DistanceOf(d, x.path) == DistanceOf(d, y.path) && byDegree)
    else byDegree
  }

  lemma {:induction false} SameChain<T(!new)>(s: seq<T>, a: (T, T) -> bool, b: (T, T) -> bool)
    requires Chain(s, a) && forall x, y :: x in s && y in s && a(x, y) ==> b(x, y)
    ensures Chain(s, b)
    decreases |s|
  {
    if s != [] {
      SameChain(s[1..], a, b);
    }
  }

  /** The three stable sorts put the notes into the one order that the limit then cuts. */
  lemma {:induction false} NotesInOrder(eligible: seq<Document>, request: Request, adjacency: Adjacency, d: map<string, nat>)
    ensures Chain(SortNodes(eligible, request, adjacency, d), (x, y) => NoteBefore(request, adjacency, d, x, y))
  {
    var rankKey, degreeKey := (x: Document) => request.rank(x.path), (x: Document) => 0 - Degree(adjacency, x.path);
    var any := (x: Document, y: Document) => true;
    var byName, byDegree := ThenBy(rankKey, any), ThenBy(degreeKey, ThenBy(rankKey, any));
    AnyChain(eligible, any);
    SortByIsStable(eligible, rankKey, any);
    SortByIsStable(SortBy(eligible, rankKey), degreeKey, byName);
    SortByIsStable(SortBy(SortBy(eligible, rankKey), degreeKey), DistanceKey(d), byDegree);
    SameChain(SortNodes(eligible, request, adjacency, d),
              if request.mode.Local? then ThenBy(DistanceKey(d), byDegree) else byDegree,
              (x, y) => NoteBefore(request, adjacency, d, x, y));
  }

  /** Only eligible notes are shown, and all of them unless the limit is reached. */
  lemma {:induction false} KeptMembers(documents: seq<Document>, request: Request, adjacency: Adjacency, d: map<string, nat>)
    ensures var eligible := Filter(documents, IsEligible(request, adjacency, d));
            var kept := Kept(documents, request, adjacency, d);
            var limit := Clamp(request.maxNodes, MAX_GRAPH_NODES);
            && |kept| == (if limit < |eligible| then limit else |eligible|)
            && (forall x :: x in kept ==> x in documents && IsEligible(request, adjacency, d)(x))
            && (|eligible| <= limit ==> forall x :: x in documents && IsEligible(request, adjacency, d)(x) ==> x in kept)
  {
    var eligible := Filter(documents, IsEligible(request, adjacency, d));
    var sorted := SortNodes(eligible, request, adjacency, d);
    FilterMembers(documents, IsEligible(request, adjacency, d));
    SortNodesSorts(eligible, request, adjacency, d);
    SameElements(eligible, sorted);
    hide SortNodes, Filter, IsEligible, Clamp;
  }

  ghost predicate Neighbours(counts: map<Edge, nat>, a: string, b: string) {
    Edge(a, b) in counts || Edge(b, a) in counts
  }

  ghost predicate NearerShown(nodes: seq<Node>, counts: map<Edge, nat>, x: Node) {
    exists y :: y in nodes && y.distance.Some? && Neighbours(counts, x.path, y.path) && x.distance == Some(y.distance.value + 1)
  }

  /** The root is shown, and with every other note a neighbour one step nearer the root. */
  ghost predicate RootedAt(nodes: seq<Node>, counts: map<Edge, nat>, root: string) {
    (exists x :: x in nodes && x.path == root && x.distance == Some(0)) && forall x :: x in nodes && x.path != root ==> NearerShown(nodes, counts, x)
  }

  /** What a projection shows, against the graph of the index. */
  ghost predicate Shows(documents: seq<Document>, request: Request, adjacency: Adjacency, d: map<string, nat>,
                        counts: map<Edge, nat>, degrees: map<string, LinkCounts>, r: Projection) {
    var eligible := Filter(documents, IsEligible(request, adjacency, d));
    var kept := Kept(documents, request, adjacency, d);
    && r.totalNodes == |eligible| && multiset(r.nodes) == multiset(NodesFor(request.mode, d, degrees, adjacency, kept))
    && Sorted(r.nodes, (x: Node) => request.rank(x.path))
    && r.totalEdges == |Between(counts, PathsOf(eligible))|
    && MostFrequent(Between(counts, PathsOf(kept)), counts, Clamp(request.maxEdges, MAX_GRAPH_EDGES), r.edges)
    && Chain(r.edges, (x, y) => EdgeBefore(counts, request.rank, x, y))
    && (r.truncated <==> |r.nodes| < r.totalNodes || |r.edges| < r.totalEdges)
  }

  method ProjectVaultGraph(documents: seq<Document>, request: Request)
      returns (r: Option<Projection>, ghost counts: map<Edge, nat>, ghost adjacency: Adjacency, ghost d: map<string, nat>,
               ghost degrees: map<string, LinkCounts>)
    ensures r.None? <==> request.mode.Local? && request.mode.rootPath !in PathsOf(documents)
    ensures Counted(documents, PathsOf(documents), |documents|, 0, counts)
    ensures Undirected(PathsOf(documents), counts.Keys, adjacency) && DegreesAre(documents, degrees)
    ensures r.Some? && request.mode.Local? ==> ShortestWithin(adjacency, request.mode.rootPath, request.mode.depth, d)
    ensures r.Some? ==> Shows(documents, request, adjacency, d, counts, degrees, r.value)
  {
    hide Counted, ShortestWithin, Filter, SortNodes, SortBy, Sorted, NodesFor, Take, MostFrequent, Chain, DegreesAre;
    var occurrences := GraphEdges(documents);
    var paths := PathsOf(documents);
    forall e | e in occurrences ensures e.source in paths && e.target in paths {
      EdgesJoinNotes(documents, occurrences, e);
    }
    var neighbours := AdjacencyFor(paths, occurrences.Keys);
    var found := CountsFor(documents, paths, occurrences);
    var distances: map<string, nat> := map[];
    counts, adjacency, d, degrees := occurrences, neighbours, distances, found;
    if request.mode.Local? {
      var reached := LocalDistances(request.mode.rootPath, request.mode.depth, neighbours);
      if reached.None? {
        return None, counts, adjacency, d, degrees;
      }
      distances := reached.value;
      d := distances;
    }
    hide Undirected;
    var eligible := Filter(documents, IsEligible(request, neighbours, distances));
    var sorted := SortNodes(eligible, request, neighbours, distances);
    var selected := Take(sorted, Clamp(request.maxNodes, MAX_GRAPH_NODES));
    var eligibleEdges := Between(occurrences, PathsOf(eligible));
    var candidates := Between(occurrences, PathsOf(selected));
    var edges := SelectEdges(candidates, occurrences, request.rank, Clamp(request.maxEdges, MAX_GRAPH_EDGES));
    var nodes := SortBy(NodesFor(request.mode, distances, found, neighbours, selected), (x: Node) => request.rank(x.path));
    SortBySorts(NodesFor(request.mode, distances, found, neighbours, selected), (x: Node) => request.rank(x.path));
    KeptFits(documents, request, neighbours, distances, found, nodes);
    r := Some(Projection(nodes, edges, |eligible|, |eligibleEdges|,
                         |eligible| > |nodes| || |eligibleEdges| > |edges|));
  }

  /** Nothing more is shown than is eligible. */
  lemma {:induction false} KeptFits(documents: seq<Document>, request: Request, adjacency: Adjacency, d: map<string, nat>,
                    degrees: map<string, LinkCounts>, nodes: seq<Node>)
    requires multiset(nodes) == multiset(NodesFor(request.mode, d, degrees, adjacency, Kept(documents, request, adjacency, d)))
    ensures |nodes| <= |Filter(documents, IsEligible(request, adjacency, d))|
  {
    KeptMembers(documents, request, adjacency, d);
    NodesMembers(request.mode, d, degrees, adjacency, Kept(documents, request, adjacency, d));
    SameElements(nodes, NodesFor(request.mode, d, degrees, adjacency, Kept(documents, request, adjacency, d)));
  }

  /** Both ends of every edge shown are shown. */
  lemma {:induction false} EdgesJoinShownNotes(documents: seq<Document>, request: Request, adjacency: Adjacency, d: map<string, nat>,
                               counts: map<Edge, nat>, degrees: map<string, LinkCounts>, r: Projection, e: Edge)
    requires Shows(documents, request, adjacency, d, counts, degrees, r) && e in r.edges
    ensures e in counts && (exists x :: x in r.nodes && x.path == e.source) && exists x :: x in r.nodes && x.path == e.target
  {
    var kept := Kept(documents, request, adjacency, d);
    SameElements(r.nodes, NodesFor(request.mode, d, degrees, adjacency, kept));
    NodesMembers(request.mode, d, degrees, adjacency, kept);
    assert e in multiset(r.edges) && e in Between(counts, PathsOf(kept));
    hide Kept, NodesFor, Filter, Sorted;
    var a :| a in kept && a.path == e.source;
    var b :| b in kept && b.path == e.target;
    assert NodeFor(request.mode, d, degrees, adjacency, a.path) in r.nodes && NodeFor(request.mode, d, degrees, adjacency, b.path) in r.nodes;
  }

  ghost predicate HasNearer(kept: seq<Document>, adjacency: Adjacency, d: map<string, nat>, x: Document) {
    exists y :: y in kept && y.path in d && y.path in adjacency
                && x.path in adjacency[y.path] && x.path in d && d[y.path] + 1 == d[x.path]
  }

  /** The root is shown at distance zero whatever the query and the limit. */
  lemma {:induction false} RootIsShown(documents: seq<Document>, request: Request, adjacency: Adjacency, d: map<string, nat>,
                       counts: map<Edge, nat>, degrees: map<string, LinkCounts>, r: Projection)
    requires request.mode.Local? && request.mode.rootPath in PathsOf(documents)
    requires ShortestWithin(adjacency, request.mode.rootPath, request.mode.depth, d)
    requires Shows(documents, request, adjacency, d, counts, degrees, r)
    ensures exists x :: x in r.nodes && x.path == request.mode.rootPath && x.distance == Some(0)
  {
    var root, kept := request.mode.rootPath, Kept(documents, request, adjacency, d);
    var eligible := Filter(documents, IsEligible(request, adjacency, d));
    var top :| top in documents && top.path == root;
    assert Walk(adjacency, root, root, 0);
    FilterMembers(documents, IsEligible(request, adjacency, d));
    SortNodesSorts(eligible, request, adjacency, d);
    SameElements(eligible, SortNodes(eligible, request, adjacency, d));
    SameElements(r.nodes, NodesFor(request.mode, d, degrees, adjacency, kept));
    NodesMembers(request.mode, d, degrees, adjacency, kept);
    hide SortNodes, Filter, Sorted, Walk, NodesFor, MostFrequent;
    assert top in eligible;
    RootIsKept(adjacency, root, request.mode.depth, d, SortNodes(eligible, request, adjacency, d), Clamp(request.maxNodes, MAX_GRAPH_NODES));
  }

  /** Whatever the limit, a local graph whose query matches every note hangs together from its root. */
  lemma {:induction false} LocalGraphIsRooted(documents: seq<Document>, request: Request, adjacency: Adjacency, d: map<string, nat>,
                              counts: map<Edge, nat>, degrees: map<string, LinkCounts>, r: Projection)
    requires request.mode.Local? && (forall x :: x in documents ==> request.matches(x))
    requires request.mode.rootPath in PathsOf(documents) && Undirected(PathsOf(documents), counts.Keys, adjacency)
    requires ShortestWithin(adjacency, request.mode.rootPath, request.mode.depth, d)
    requires Shows(documents, request, adjacency, d, counts, degrees, r)
    ensures RootedAt(r.nodes, counts, request.mode.rootPath)
  {
    assert adjacency.Keys == PathsOf(documents);
    hide Undirected, ShortestWithin, RootedAt, Filter, Sorted, SortNodes, NodesFor, MostFrequent, HasNearer, Walk, Chain;
    var root, kept := request.mode.rootPath, Kept(documents, request, adjacency, d);
    LocalNotes(documents, request, adjacency, d);
    SameElements(r.nodes, NodesFor(request.mode, d, degrees, adjacency, kept));
    RootedNodes(request.mode, root, adjacency, counts, d, degrees, kept, r.nodes, PathsOf(documents));
  }

  lemma {:induction false} LocalNotes(documents: seq<Document>, request: Request, adjacency: Adjacency, d: map<string, nat>)
    requires request.mode.Local? && (forall x :: x in documents ==> request.matches(x))
    requires request.mode.rootPath in PathsOf(documents) && adjacency.Keys == PathsOf(documents)
    requires ShortestWithin(adjacency, request.mode.rootPath, request.mode.depth, d)
    ensures exists x :: x in Kept(documents, request, adjacency, d) && x.path == request.mode.rootPath
    ensures forall x :: x in Kept(documents, request, adjacency, d) && x.path != request.mode.rootPath ==>
      HasNearer(Kept(documents, request, adjacency, d), adjacency, d, x)
    ensures request.mode.rootPath in d && d[request.mode.rootPath] == 0
  {
    var root := request.mode.rootPath;
    assert Walk(adjacency, root, root, 0);
    var eligible := Filter(documents, IsEligible(request, adjacency, d));
    var sorted := SortNodes(eligible, request, adjacency, d);
    FilterMembers(documents, IsEligible(request, adjacency, d));
    SortNodesSorts(eligible, request, adjacency, d);
    SameElements(eligible, sorted);
    assert forall x :: x in sorted <==> x in documents && x.path in d;
    hide SortNodes, Filter, Sorted, Walk, ShortestWithin, IsEligible, Clamp, Take, HasNearer;
    PrefixIsConnected(documents, adjacency, root, request.mode.depth, d, sorted, Clamp(request.maxNodes, MAX_GRAPH_NODES));
  }

  lemma NeighbourEitherWay(paths: set<string>, counts: map<Edge, nat>, adjacency: Adjacency, a: string, b: string)
    requires Undirected(paths, counts.Keys, adjacency) && b in adjacency && a in adjacency[b]
    ensures Neighbours(counts, a, b)
  {
  }

  lemma {:induction false} NearerIsShown(mode: Mode, adjacency: Adjacency, counts: map<Edge, nat>, d: map<string, nat>,
                         degrees: map<string, LinkCounts>, kept: seq<Document>, nodes: seq<Node>, paths: set<string>, a: Document)
    requires mode.Local? && Undirected(paths, counts.Keys, adjacency) && HasNearer(kept, adjacency, d, a)
    requires forall y :: y in kept ==> NodeFor(mode, d, degrees, adjacency, y.path) in nodes
    ensures NearerShown(nodes, counts, NodeFor(mode, d, degrees, adjacency, a.path))
  {
    hide Undirected, Neighbours;
    var b :| b in kept && b.path in d && b.path in adjacency
             && a.path in adjacency[b.path] && a.path in d && d[b.path] + 1 == d[a.path];
    NeighbourEitherWay(paths, counts, adjacency, a.path, b.path);
    assert NodeFor(mode, d, degrees, adjacency, b.path) in nodes;
  }

  lemma {:induction false} RootedNodes(mode: Mode, root: string, adjacency: Adjacency, counts: map<Edge, nat>, d: map<string, nat>,
                       degrees: map<string, LinkCounts>, kept: seq<Document>, nodes: seq<Node>, paths: set<string>)
    requires mode.Local? && Undirected(paths, counts.Keys, adjacency) && root in d && d[root] == 0
    requires exists x :: x in kept && x.path == root
    requires forall x :: x in kept && x.path != root ==> HasNearer(kept, adjacency, d, x)
    requires forall x :: x in nodes <==> x in NodesFor(mode, d, degrees, adjacency, kept)
    ensures RootedAt(nodes, counts, root)
  {
    NodesMembers(mode, d, degrees, adjacency, kept);
    hide NodesFor, Undirected, HasNearer, NearerShown;
    var top :| top in kept && top.path == root;
    assert NodeFor(mode, d, degrees, adjacency, top.path) in nodes;
    forall x | x in nodes && x.path != root ensures NearerShown(nodes, counts, x) {
      var a :| a in kept && x == NodeFor(mode, d, degrees, adjacency, a.path);
      NearerIsShown(mode, adjacency, counts, d, degrees, kept, nodes, paths, a);
    }
  }

  // ---------- what each note shown says ----------

  /** The note at `a` has a link that resolves to `b`. */
  ghost predicate Linked(documents: seq<Document>, a: string, b: string) {
    exists x :: x in documents && x.path == a && Some(b) in x.links
  }

  /** The notes of the index that link to `path` or are linked from it. */
  ghost function JoinedWith(documents: seq<Document>, path: string): set<string> {
    set b | b in PathsOf(documents) && (Linked(documents, path, b) || Linked(documents, b, path))
  }

  /** The notes asked for: within reach of the root, or in the whole vault, and found by the query. */
  ghost predicate Wanted(documents: seq<Document>, request: Request, adjacency: Adjacency, x: Document) {
    x in documents &&
    match request.mode
    case Local(root, depth) =>
      (x.path == root || request.matches(x)) && exists n: nat :: n <= depth && Walk(adjacency, root, x.path, n)
    case Global => request.matches(x) && (JoinedWith(documents, x.path) == {} ==> request.includeOrphans)
  }

  /** The numbers shown with a note: its links either way, its neighbours, and its distance from the root. */
  ghost predicate ShownRightly(documents: seq<Document>, request: Request, adjacency: Adjacency, x: Node) {
    && (exists y :: Wanted(documents, request, adjacency, y) && y.path == x.path)
    && x.incoming == LinksInto(documents, |documents|, x.path)
    && x.outgoing == LinksOutOf(documents, |documents|, x.path, PathsOf(documents))
    && x.neighbours == |JoinedWith(documents, x.path)|
    && match request.mode
       case Global => x.distance == None
       case Local(root, _) =>
         x.distance.Some? && Walk(adjacency, root, x.path, x.distance.value)
         && forall n: nat :: Walk(adjacency, root, x.path, n) ==> x.distance.value <= n
  }

  lemma {:induction false} LinksToIff(links: seq<Option<string>>, n: nat, target: string)
    requires n <= |links|
    ensures LinksTo(links, n, target) > 0 <==> exists i :: 0 <= i < n && links[i] == Some(target)
    decreases n
  {
    if n > 0 { LinksToIff(links, n - 1, target); }
  }

  lemma {:induction false} OccursIff(documents: seq<Document>, n: nat, e: Edge)
    requires n <= |documents|
    ensures Occurrences(documents, n, e) > 0 <==> exists i :: 0 <= i < n && documents[i].path == e.source && Some(e.target) in documents[i].links
    decreases n
  {
    if n > 0 {
      OccursIff(documents, n - 1, e);
      LinksToIff(documents[n - 1].links, |documents[n - 1].links|, e.target);
    }
  }

  /** There is an edge exactly where a note links to another of the index. */
  lemma {:induction false} LinkedIff(documents: seq<Document>, counts: map<Edge, nat>, a: string, b: string)
    requires Counted(documents, PathsOf(documents), |documents|, 0, counts)
    ensures Edge(a, b) in counts <==> b in PathsOf(documents) && Linked(documents, a, b)
  {
    OccursIff(documents, |documents|, Edge(a, b));
    if Linked(documents, a, b) {
      var x :| x in documents && x.path == a && Some(b) in x.links;
      var i :| 0 <= i < |documents| && documents[i] == x;
    }
  }

  lemma {:induction false} NeighboursAre(documents: seq<Document>, counts: map<Edge, nat>, adjacency: Adjacency, path: string)
    requires Counted(documents, PathsOf(documents), |documents|, 0, counts) && Undirected(PathsOf(documents), counts.Keys, adjacency)
    requires path in PathsOf(documents)
    ensures adjacency[path] == JoinedWith(documents, path)
  {
    forall b ensures b in adjacency[path] <==> b in JoinedWith(documents, path) {
      LinkedIff(documents, counts, path, b);
      LinkedIff(documents, counts, b, path);
    }
  }

  /** Eligible are exactly the notes asked for. */
  lemma {:induction false} EligibleIff(documents: seq<Document>, request: Request, counts: map<Edge, nat>, adjacency: Adjacency, d: map<string, nat>, x: Document)
    requires Counted(documents, PathsOf(documents), |documents|, 0, counts) && Undirected(PathsOf(documents), counts.Keys, adjacency)
    requires request.mode.Local? ==> ShortestWithin(adjacency, request.mode.rootPath, request.mode.depth, d)
    requires x in documents
    ensures IsEligible(request, adjacency, d)(x) <==> Wanted(documents, request, adjacency, x)
  {
    NeighboursAre(documents, counts, adjacency, x.path);
    hide Counted;
    assert |adjacency[x.path]| > 0 <==> adjacency[x.path] != {};
  }

  /** A shortest walk within the depth is a shortest walk. */
  lemma ShortestIsShortest(adjacency: Adjacency, root: string, depth: nat, d: map<string, nat>, p: string)
    requires ShortestWithin(adjacency, root, depth, d) && p in d
    ensures Walk(adjacency, root, p, d[p]) && forall n: nat :: Walk(adjacency, root, p, n) ==> d[p] <= n
  {
    forall n: nat | Walk(adjacency, root, p, n) ensures d[p] <= n {
      if n <= depth { assert d[p] <= n; }
    }
  }

  lemma {:induction false} NodeIsRight(documents: seq<Document>, request: Request, counts: map<Edge, nat>, adjacency: Adjacency,
                       d: map<string, nat>, degrees: map<string, LinkCounts>, y: Document)
    requires Counted(documents, PathsOf(documents), |documents|, 0, counts) && Undirected(PathsOf(documents), counts.Keys, adjacency)
    requires DegreesAre(documents, degrees)
    requires request.mode.Local? ==> ShortestWithin(adjacency, request.mode.rootPath, request.mode.depth, d)
    requires y in documents && IsEligible(request, adjacency, d)(y)
    ensures ShownRightly(documents, request, adjacency, NodeFor(request.mode, d, degrees, adjacency, y.path))
  {
    EligibleIff(documents, request, counts, adjacency, d, y);
    NeighboursAre(documents, counts, adjacency, y.path);
    hide Counted, Undirected, Wanted;
    assert y.path in PathsOf(documents) && y.path in degrees;
    hide LinksInto, LinksOutOf, DegreesAre, PathsOf, JoinedWith;
    if request.mode.Local? {
      ShortestIsShortest(adjacency, request.mode.rootPath, request.mode.depth, d, y.path);
    }
    hide Walk, ShortestWithin;
  }

  /**
   * Every note shown was asked for and has the numbers of the link graph; as many notes as were
   * asked for are reported, and all of them are shown when the limit allows.
   */
  lemma {:induction false} NotesAreShownRightly(documents: seq<Document>, request: Request, adjacency: Adjacency, d: map<string, nat>,
                                counts: map<Edge, nat>, degrees: map<string, LinkCounts>, r: Projection)
    requires Counted(documents, PathsOf(documents), |documents|, 0, counts) && Undirected(PathsOf(documents), counts.Keys, adjacency)
    requires DegreesAre(documents, degrees)
    requires request.mode.Local? ==> ShortestWithin(adjacency, request.mode.rootPath, request.mode.depth, d)
    requires Shows(documents, request, adjacency, d, counts, degrees, r)
    ensures forall x :: x in r.nodes ==> ShownRightly(documents, request, adjacency, x)
    ensures r.totalNodes <= Clamp(request.maxNodes, MAX_GRAPH_NODES) ==>
      forall y :: Wanted(documents, request, adjacency, y) ==> exists x :: x in r.nodes && x.path == y.path
    ensures r.totalNodes == HowManyWanted(documents, request, adjacency, |documents|)
    ensures |r.nodes| == r.totalNodes || (|r.nodes| < r.totalNodes && (|r.nodes| == MAX_GRAPH_NODES || |r.nodes| == request.maxNodes
                                                                     || (|r.nodes| == 1 && request.maxNodes < 1)))
    ensures |r.nodes| <= MAX_GRAPH_NODES && (|r.nodes| <= request.maxNodes || |r.nodes| <= 1)
  {
    var kept := Kept(documents, request, adjacency, d);
    KeptMembers(documents, request, adjacency, d);
    SameElements(r.nodes, NodesFor(request.mode, d, degrees, adjacency, kept));
    NodesMembers(request.mode, d, degrees, adjacency, kept);
    FilterCounts(documents, request, counts, adjacency, d, |documents|);
    assert documents[..|documents|] == documents;
    hide Kept, NodesFor, Filter, Sorted, Counted, Undirected, DegreesAre, ShortestWithin, MostFrequent, Chain, IsEligible, Wanted, ShownRightly, NodeFor;
    forall x | x in r.nodes ensures ShownRightly(documents, request, adjacency, x) {
      var y :| y in kept && x == NodeFor(request.mode, d, degrees, adjacency, y.path);
      NodeIsRight(documents, request, counts, adjacency, d, degrees, y);
    }
    if r.totalNodes <= Clamp(request.maxNodes, MAX_GRAPH_NODES) {
      forall y | Wanted(documents, request, adjacency, y) ensures exists x :: x in r.nodes && x.path == y.path {
        WantedIsIndexed(documents, request, adjacency, y);
        EligibleIff(documents, request, counts, adjacency, d, y);
        NodePath(request.mode, d, degrees, adjacency, y.path);
        assert NodeFor(request.mode, d, degrees, adjacency, y.path) in r.nodes;
      }
    }
  }

  lemma WantedIsIndexed(documents: seq<Document>, request: Request, adjacency: Adjacency, y: Document)
    requires Wanted(documents, request, adjacency, y)
    ensures y in documents
  {
  }

  lemma NodePath(mode: Mode, d: map<string, nat>, degrees: map<string, LinkCounts>, adjacency: Adjacency, path: string)
    ensures NodeFor(mode, d, degrees, adjacency, path).path == path
  {
  }

  ghost function HowManyWanted(documents: seq<Document>, request: Request, adjacency: Adjacency, n: nat): nat
    requires n <= |documents|
  {
    if n == 0 then 0
    else HowManyWanted(documents, request, adjacency, n - 1) + if Wanted(documents, request, adjacency, documents[n - 1]) then 1 else 0
  }

  lemma {:induction false} FilterCounts(documents: seq<Document>, request: Request, counts: map<Edge, nat>, adjacency: Adjacency, d: map<string, nat>, n: nat)
    requires Counted(documents, PathsOf(documents), |documents|, 0, counts) && Undirected(PathsOf(documents), counts.Keys, adjacency)
    requires request.mode.Local? ==> ShortestWithin(adjacency, request.mode.rootPath, request.mode.depth, d)
    requires n <= |documents|
    ensures |Filter(documents[..n], IsEligible(request, adjacency, d))| == HowManyWanted(documents, request, adjacency, n)
    decreases n
  {
    hide Counted, Undirected, Wanted, IsEligible, ShortestWithin;
    if n > 0 {
      FilterCounts(documents, request, counts, adjacency, d, n - 1);
      EligibleIff(documents, request, counts, adjacency, d, documents[n - 1]);
      assert documents[..n] == documents[..n - 1] + [documents[n - 1]];
      FilterPush(documents[..n - 1], documents[n - 1], IsEligible(request, adjacency, d));
    }
  }

  lemma {:induction false} FilterPush<T>(s: seq<T>, x: T, keep: T -> bool)
    ensures Filter(s + [x], keep) == Filter(s, keep) + if keep(x) then [x] else []
    decreases |s|
  {
    if s == [] {
      assert s + [x] == [x] && [x][1..] == [];
    } else {
      assert (s + [x])[1..] == s[1..] + [x];
      FilterPush(s[1..], x, keep);
      Associative(if keep(s[0]) then [s[0]] else [], Filter(s[1..], keep), if keep(x) then [x] else []);
    }
  }

  lemma {:induction false} ChainAt<T(!new)>(s: seq<T>, before: (T, T) -> bool, i: nat, j: nat)
    requires Chain(s, before) && i < j < |s|
    ensures before(s[i], s[j])
    decreases i
  {
    if i == 0 {
      assert s[1..][j - 1] == s[j];
    } else {
      ChainAt(s[1..], before, i - 1, j - 1);
    }
  }

  /** What the limit leaves out comes after everything that is shown. */
  lemma {:induction false} FirstAreShown(documents: seq<Document>, request: Request, adjacency: Adjacency, d: map<string, nat>, x: Document, y: Document)
    requires x in Kept(documents, request, adjacency, d)
    requires y in documents && IsEligible(request, adjacency, d)(y) && y !in Kept(documents, request, adjacency, d)
    ensures NoteBefore(request, adjacency, d, x, y)
  {
    var eligible := Filter(documents, IsEligible(request, adjacency, d));
    var sorted := SortNodes(eligible, request, adjacency, d);
    var limit := Clamp(request.maxNodes, MAX_GRAPH_NODES);
    FilterMembers(documents, IsEligible(request, adjacency, d));
    SortNodesSorts(eligible, request, adjacency, d);
    SameElements(eligible, sorted);
    NotesInOrder(eligible, request, adjacency, d);
    hide SortNodes, Filter, IsEligible, Clamp, Chain, NoteBefore;
    var i :| 0 <= i < |Take(sorted, limit)| && Take(sorted, limit)[i] == x;
    var j :| 0 <= j < |sorted| && sorted[j] == y;
    if j < limit { Taken(sorted, limit, j); }
    ChainAt(sorted, (a, b) => NoteBefore(request, adjacency, d, a, b), i, j);
  }
}
