/** Following the canvases that a canvas embeds (src/application/canvas-embed-service.ts). */
module CanvasEmbed {
  import opened Options
  import opened Reachability
  import opened Sequences
  import opened JsText
  import opened VaultPath
  import CanvasReference

  const MAX_CANVAS_EMBED_DEPTH := 4
  const MAX_CANVAS_EMBED_COUNT := 32

  /** `file` is None where the property is no string. */
  datatype Node = Node(kind: string, file: Option<string>)

  /** What reading one canvas gives; a malformed one is shown but not followed. */
  datatype Reading = Unreadable | TooLarge | Parsed(revision: string, ready: bool, nodes: seq<Node>)

  datatype Item = Item(path: string, revision: string, depth: nat, readOnly: bool)

  datatype Outcome = Unavailable | Ready(rootPath: string, items: seq<Item>, truncated: bool)

  predicate IsCanvasPath(path: string) {
    EndsWith(Lower(path), ".canvas")
  }

  predicate RefersToCanvas(node: Node) {
    node.kind == "file" && node.file.Some? && IsCanvasPath(node.file.value)
  }

  function TargetOf(from: string, node: Node): CanvasReference.Resolution
    requires node.file.Some?
  {
    CanvasReference.ResolveCanvasAttachmentTarget(from, node.file.value)
  }

  /** The canvases that `nodes` refer to. */
  ghost function Targets(from: string, nodes: seq<Node>): set<string> {
    set node | node in nodes && RefersToCanvas(node) && TargetOf(from, node).Resolved? :: TargetOf(from, node).path
  }

  /** The graph of well-formed canvases; a canvas is read at most once in a walk, so one reading each is enough. */
  ghost function Graph(readings: map<string, Reading>): map<string, set<string>> {
    map p | p in readings :: if readings[p].Parsed? && readings[p].ready then Targets(p, readings[p].nodes) else {}
  }

  /** There is an edge exactly where a file node of a well-formed canvas names a canvas that resolves. */
  lemma {:induction false} EmbedsAre(readings: map<string, Reading>, from: string, path: string)
    ensures from in Graph(readings) && path in Graph(readings)[from] <==>
      from in readings && readings[from].Parsed? && readings[from].ready
      && exists file :: Node("file", Some(file)) in readings[from].nodes && EndsAs(file, ".canvas")
                     && CanvasReference.ResolveCanvasAttachmentTarget(from, file) == CanvasReference.Resolved(path)
  {
    hide CanvasReference.ResolveCanvasAttachmentTarget, EndsWith, EndsAs, Lower;
    forall file ensures EndsWith(Lower(file), ".canvas") <==> EndsAs(file, ".canvas") {
      EndsInAnyCase(file, ".canvas");
    }
    if from in readings && readings[from].Parsed? && readings[from].ready {
      var nodes := readings[from].nodes;
      if path in Targets(from, nodes) {
        var node :| node in nodes && RefersToCanvas(node) && TargetOf(from, node).Resolved? && TargetOf(from, node).path == path;
        assert node == Node("file", Some(node.file.value));
      }
      if file :| Node("file", Some(file)) in nodes && EndsAs(file, ".canvas")
                 && CanvasReference.ResolveCanvasAttachmentTarget(from, file) == CanvasReference.Resolved(path) {
        assert RefersToCanvas(Node("file", Some(file))) && TargetOf(from, Node("file", Some(file))).path == path;
      }
    }
  }

  ghost predicate Shown(readings: map<string, Reading>, x: Item) {
    && x.path in readings && readings[x.path].Parsed?
    && x.revision == readings[x.path].revision && x.readOnly == !readings[x.path].ready
  }

  /** Every item is a canvas that was read, reached by a walk of exactly its depth. */
  ghost predicate ItemOk(readings: map<string, Reading>, root: string, maxDepth: int, x: Item) {
    x.depth <= maxDepth && Shown(readings, x) && Walk(Graph(readings), root, x.path, x.depth)
  }

  ghost predicate ItemsOk(readings: map<string, Reading>, root: string, maxDepth: int, items: seq<Item>, visited: set<string>) {
    && (forall x :: x in items ==> ItemOk(readings, root, maxDepth, x) && x.path in visited)
    && forall i, j :: 0 <= i < j < |items| ==> items[i].path != items[j].path
  }

  ghost predicate Has(items: seq<Item>, path: string) {
    exists x :: x in items && x.path == path
  }

  /** Everything that the canvas at `path` refers to is among the items. */
  ghost predicate Followed(readings: map<string, Reading>, items: seq<Item>, path: string) {
    path in readings && forall q :: q in Graph(readings)[path] ==> Has(items, q)
  }

  ghost predicate AllFollowed(readings: map<string, Reading>, items: seq<Item>, from: nat) {
    forall i :: from <= i < |items| ==> Followed(readings, items, items[i].path)
  }

  ghost predicate Reachable(readings: map<string, Reading>, root: string, path: string) {
    exists n: nat :: Walk(Graph(readings), root, path, n)
  }

  lemma {:induction false} PushItem(readings: map<string, Reading>, root: string, maxDepth: int, items: seq<Item>, visited: set<string>, x: Item)
    requires ItemsOk(readings, root, maxDepth, items, visited) && ItemOk(readings, root, maxDepth, x) && x.path !in visited
    ensures ItemsOk(readings, root, maxDepth, items + [x], visited + {x.path})
  {
    hide ItemOk;
    forall i | 0 <= i < |items| ensures items[i].path != x.path {
      assert items[i] in items;
    }
  }

  lemma {:induction false} MoreItems(readings: map<string, Reading>, before: seq<Item>, items: seq<Item>, from: nat, path: string)
    requires before <= items
    ensures Has(before, path) ==> Has(items, path)
    ensures Followed(readings, before, path) ==> Followed(readings, items, path)
    ensures AllFollowed(readings, before, from) && AllFollowed(readings, items, |before|) ==> AllFollowed(readings, items, from)
  {
    assert forall x :: x in before ==> x in items;
    if AllFollowed(readings, before, from) && AllFollowed(readings, items, |before|) {
      forall i | from <= i < |items| ensures Followed(readings, items, items[i].path) {
        if i < |before| {
          assert items[i] == before[i] && Followed(readings, before, before[i].path);
        }
      }
    }
  }

  lemma FollowedHas(readings: map<string, Reading>, items: seq<Item>, u: string, path: string)
    requires Has(items, u) && AllFollowed(readings, items, 0) && u in Graph(readings) && path in Graph(readings)[u]
    ensures Has(items, path)
  {
    hide Graph;
    var x :| x in items && x.path == u;
    var i :| 0 <= i < |items| && items[i] == x;
    assert Followed(readings, items, items[i].path);
  }

  /** With nothing cut off, the items are closed under references and so hold all that is reachable. */
  lemma {:induction false} ClosedHoldsAll(readings: map<string, Reading>, root: string, items: seq<Item>, path: string, n: nat)
    requires Has(items, root) && AllFollowed(readings, items, 0) && Walk(Graph(readings), root, path, n)
    ensures Has(items, path)
    decreases n
  {
    hide Graph, Has, AllFollowed;
    if n > 0 {
      var graph := Graph(readings);
      var u :| u in graph && path in graph[u] && Walk(graph, root, u, n - 1);
      ClosedHoldsAll(readings, root, items, u, n - 1);
      FollowedHas(readings, items, u, path);
    }
  }

  /** The references of the first `k` nodes are among the items. */
  ghost predicate FollowedUpTo(items: seq<Item>, from: string, nodes: seq<Node>, k: nat)
    requires k <= |nodes|
  {
    forall i :: 0 <= i < k && RefersToCanvas(nodes[i]) && TargetOf(from, nodes[i]).Resolved? ==> Has(items, TargetOf(from, nodes[i]).path)
  }

  lemma {:induction false} FollowedNodes(readings: map<string, Reading>, items: seq<Item>, path: string)
    requires path in readings && readings[path].Parsed?
    requires readings[path].ready ==> FollowedUpTo(items, path, readings[path].nodes, |readings[path].nodes|)
    ensures Followed(readings, items, path)
  {
    if readings[path].ready {
      var nodes := readings[path].nodes;
      forall q | q in Targets(path, nodes) ensures Has(items, q) {
        var node :| node in nodes && RefersToCanvas(node) && TargetOf(path, node).Resolved? && q == TargetOf(path, node).path;
        var i :| 0 <= i < |nodes| && nodes[i] == node;
      }
    }
  }

  lemma {:induction false} StillFollowed(before: seq<Item>, items: seq<Item>, from: string, nodes: seq<Node>, k: nat)
    requires before <= items && k <= |nodes| && FollowedUpTo(before, from, nodes, k)
    ensures FollowedUpTo(items, from, nodes, k)
  {
    assert forall x :: x in before ==> x in items;
  }

  lemma ReferenceIsEdge(readings: map<string, Reading>, root: string, from: string, depth: nat, node: Node)
    requires from in readings && readings[from].Parsed? && readings[from].ready && node in readings[from].nodes
    requires RefersToCanvas(node) && TargetOf(from, node).Resolved? && Walk(Graph(readings), root, from, depth)
    ensures Walk(Graph(readings), root, TargetOf(from, node).path, depth + 1)
  {
    WalkStep(Graph(readings), root, from, TargetOf(from, node).path, depth);
  }

  // ---------- what nothing cuts off ----------

  function PathsOf(items: seq<Item>): seq<string> {
    if items == [] then [] else PathsOf(items[..|items| - 1]) + [items[|items| - 1].path]
  }

  /** The canvases that `path` unfolds to, in the order of the visits; None where something must be cut off. */
  ghost function Unfold(readings: map<string, Reading>, path: string, depth: nat, maxDepth: int): Option<seq<string>>
    decreases if depth <= maxDepth then maxDepth + 1 - depth else 0, 1, 0
  {
    if depth > maxDepth || path !in readings || !readings[path].Parsed? then None
    else if !readings[path].ready then Some([path])
    else
      var below := UnfoldNodes(readings, path, readings[path].nodes, |readings[path].nodes|, depth, maxDepth);
      if below.None? then None else Some([path] + below.value)
  }

  /** The same for the first `k` nodes of a canvas. */
  ghost function UnfoldNodes(readings: map<string, Reading>, from: string, nodes: seq<Node>, k: nat, depth: nat, maxDepth: int): Option<seq<string>>
    requires k <= |nodes| && depth <= maxDepth
    decreases maxDepth + 1 - depth, 0, k
  {
    if k == 0 then Some([])
    else
      var before, node := UnfoldNodes(readings, from, nodes, k - 1, depth, maxDepth), nodes[k - 1];
      if before.None? || !RefersToCanvas(node) then before
      else if depth >= maxDepth || !TargetOf(from, node).Resolved? then None
      else
        var below := Unfold(readings, TargetOf(from, node).path, depth + 1, maxDepth);
        if below.None? then None else Some(before.value + below.value)
  }

  ghost predicate Distinct(paths: seq<string>) {
    forall i, j :: 0 <= i < j < |paths| ==> paths[i] != paths[j]
  }

  /** No path comes twice or was visited before. */
  ghost predicate New(paths: seq<string>, visited: set<string>) {
    Distinct(paths) && forall p :: p in paths ==> p !in visited
  }

  /** All that a canvas unfolds to fits behind `shown` canvases: a single one may fill the list, more may not. */
  ghost predicate Fits(unfolded: Option<seq<string>>, visited: set<string>, shown: nat, maxCount: int) {
    && unfolded.Some? && New(unfolded.value, visited)
    && if |unfolded.value| == 1 then shown < maxCount else shown + |unfolded.value| < maxCount
  }

  /** The same for the nodes of a canvas that is shown already. */
  ghost predicate NodesFit(unfolded: Option<seq<string>>, visited: set<string>, shown: nat, maxCount: int) {
    unfolded.Some? && New(unfolded.value, visited) && (unfolded.value == [] || shown + |unfolded.value| < maxCount)
  }

  /** The list is `before` with `paths` added, and exactly these were visited since. */
  ghost predicate Added(before: seq<Item>, visitedBefore: set<string>, items: seq<Item>, visited: set<string>, paths: seq<string>) {
    PathsOf(items) == PathsOf(before) + paths && |items| == |before| + |paths| && visited == visitedBefore + set p | p in paths
  }

  lemma UnfoldStep(readings: map<string, Reading>, from: string, nodes: seq<Node>, k: nat, depth: nat, maxDepth: int)
    requires k < |nodes| && depth <= maxDepth
    ensures var some, all := UnfoldNodes(readings, from, nodes, k, depth, maxDepth), UnfoldNodes(readings, from, nodes, k + 1, depth, maxDepth);
            all.Some? ==> some.Some? && some.value <= all.value
  {
    hide Unfold, TargetOf, RefersToCanvas;
  }

  lemma {:induction false} UnfoldGrows(readings: map<string, Reading>, from: string, nodes: seq<Node>, k: nat, n: nat, depth: nat, maxDepth: int)
    requires k <= n <= |nodes| && depth <= maxDepth
    ensures var some, all := UnfoldNodes(readings, from, nodes, k, depth, maxDepth), UnfoldNodes(readings, from, nodes, n, depth, maxDepth);
            all.Some? ==> some.Some? && some.value <= all.value
    decreases n
  {
    hide UnfoldNodes;
    if k < n {
      UnfoldGrows(readings, from, nodes, k, n - 1, depth, maxDepth);
      UnfoldStep(readings, from, nodes, n - 1, depth, maxDepth);
    }
  }

  lemma {:induction false} FewerFit(some: Option<seq<string>>, all: Option<seq<string>>, visited: set<string>, shown: nat, maxCount: int)
    requires all.Some? ==> some.Some? && some.value <= all.value
    ensures NodesFit(all, visited, shown, maxCount) ==> NodesFit(some, visited, shown, maxCount)
  {
    if NodesFit(all, visited, shown, maxCount) {
      assert forall i :: 0 <= i < |some.value| ==> some.value[i] == all.value[i];
    }
  }

  lemma {:induction false} NewConcat(a: seq<string>, b: seq<string>, visited: set<string>)
    ensures New(a + b, visited) <==> New(a, visited) && New(b, visited + set p | p in a)
  {
    var all := a + b;
    if New(all, visited) {
      assert forall i :: 0 <= i < |a| ==> all[i] == a[i];
      assert forall i :: 0 <= i < |b| ==> all[|a| + i] == b[i];
      forall p | p in b ensures p !in visited + set p | p in a {
        var j :| 0 <= j < |b| && b[j] == p;
        assert all[|a| + j] == p;
      }
      assert forall p :: p in a ==> p in all;
    }
    if New(a, visited) && New(b, visited + set p | p in a) {
      forall i, j | 0 <= i < j < |all| ensures all[i] != all[j] {
        if i < |a| <= j {
          assert all[j] == b[j - |a|] && b[j - |a|] in b && all[i] == a[i] && a[i] in a;
        }
      }
    }
  }

  lemma {:induction false} AddedMore(before: seq<Item>, visitedBefore: set<string>, middle: seq<Item>, visitedMiddle: set<string>,
                                     items: seq<Item>, visited: set<string>, a: seq<string>, b: seq<string>)
    requires Added(before, visitedBefore, middle, visitedMiddle, a) && Added(middle, visitedMiddle, items, visited, b)
    ensures Added(before, visitedBefore, items, visited, a + b)
  {
    Associative(PathsOf(before), a, b);
    assert forall p :: p in a + b <==> p in a || p in b;
  }

  lemma PushPath(items: seq<Item>, x: Item, visited: set<string>)
    ensures Added(items, visited, items + [x], visited + {x.path}, [x.path])
    ensures Added(items, visited, items, visited, [])
  {
    assert (items + [x])[..|items|] == items;
    assert PathsOf(items) + [] == PathsOf(items);
  }

  /** The canvas itself and its nodes fit one after the other. */
  lemma {:induction false} FitsInTwo(path: string, below: Option<seq<string>>, visited: set<string>, shown: nat, maxCount: int)
    ensures Fits(if below.None? then None else Some([path] + below.value), visited, shown, maxCount) <==>
      path !in visited && shown < maxCount && NodesFit(below, visited + {path}, shown + 1, maxCount)
  {
    if below.Some? {
      NewConcat([path], below.value, visited);
      assert (set p | p in [path]) == {path};
    }
  }

  // ---------- what an expansion with room left has followed ----------

  /** What was visited but is not shown could not be read. */
  ghost predicate VisitedOk(readings: map<string, Reading>, items: seq<Item>, visited: set<string>) {
    forall p :: p in visited && p in readings && readings[p].Parsed? ==> Has(items, p)
  }

  /** Above the depth limit, everything that a canvas from `from` on refers to was visited. */
  ghost predicate Explored(readings: map<string, Reading>, items: seq<Item>, visited: set<string>, maxDepth: int, from: nat) {
    forall i :: from <= i < |items| && items[i].path in readings && items[i].depth < maxDepth ==> Graph(readings)[items[i].path] <= visited
  }

  class Expansion {
    var items: seq<Item>
    var visited: set<string>
    var truncated: bool
    const readings: map<string, Reading>
    const root: string
    const maxDepth: int
    const maxCount: int

    ghost predicate Valid() reads this {
      && ItemsOk(readings, root, maxDepth, items, visited) && (items == [] || |items| <= maxCount)
      && VisitedOk(readings, items, visited)
    }

    constructor (readings: map<string, Reading>, root: string, maxDepth: int, maxCount: int)
      ensures Valid() && items == [] && visited == {} && !truncated
      ensures this.readings == readings && this.root == root && this.maxDepth == maxDepth && this.maxCount == maxCount
    {
      this.readings, this.root, this.maxDepth, this.maxCount := readings, root, maxDepth, maxCount;
      items, visited, truncated := [], {}, false;
    }

    /**
     * Items are only added. Nothing is cut off exactly when all that `path` unfolds to fits, and then
     * exactly that is added; while there is room left, everything above the depth limit is followed.
     */
    method Visit(path: string, depth: nat)
      requires Valid() && Walk(Graph(readings), root, path, depth)
      modifies this
      ensures Valid() && old(items) <= items && old(visited) <= visited
      ensures !truncated <==> !old(truncated) && Fits(Unfold(readings, path, depth, maxDepth), old(visited), |old(items)|, maxCount)
      ensures !truncated ==> Added(old(items), old(visited), items, visited, Unfold(readings, path, depth, maxDepth).value)
      ensures !truncated ==> Has(items, path) && AllFollowed(readings, items, |old(items)|)
      ensures |items| < maxCount ==> (depth <= maxDepth ==> path in visited) && Explored(readings, items, visited, maxDepth, |old(items)|)
      decreases if depth <= maxDepth then maxDepth + 1 - depth else 0
    {
      hide ItemsOk, ItemOk, Walk, Has, AllFollowed, Graph, Followed, Fits, NodesFit, Added, Unfold, UnfoldNodes, VisitedOk, Explored, SoFar;
      NoneExplored(readings, items, visited, maxDepth);
      if |items| >= maxCount || depth > maxDepth || path in visited {
        CannotVisit(readings, path, depth, maxDepth, visited, |items|, maxCount);
        truncated := true;
        return;
      }
      if path !in readings || !readings[path].Parsed? {
        CannotRead(readings, path, depth, maxDepth, visited, |items|, maxCount);
        VisitedMore(readings, root, maxDepth, items, visited, path);
        visited := visited + {path};
        NoneExplored(readings, items, visited, maxDepth);
        truncated := true;
        return;
      }
      var read := readings[path];
      var item := Item(path, read.revision, depth, !read.ready);
      NewItemOk(readings, root, maxDepth, item);
      PushItem(readings, root, maxDepth, items, visited, item);
      PushPath(items, item, visited);
      PushVisited(readings, items, item, visited);
      UnfoldsInTwo(readings, path, depth, maxDepth, visited, |items|, maxCount);
      visited := visited + {path};
      items := items + [item];
      ghost var shown, seen, clean := items, visited, !truncated;
      if !read.ready {
        OneFollowed(readings, old(items), items, path);
        NoneExplored(readings, items, visited, maxDepth);
        MalformedLeadsNowhere(readings, path);
        ExploredAfter(readings, old(items), item, items, visited, maxDepth, maxCount);
        return;
      }
      FollowNodes(path, depth);
      FollowedAfter(readings, old(items), item, items, truncated);
      VisitEnds(readings, path, depth, maxDepth, maxCount, old(items), old(visited), shown, seen, items, visited, clean, truncated);
      ExploredAfter(readings, old(items), item, items, visited, maxDepth, maxCount);
    }

    /** The loop over the nodes of the canvas just added. */
    method FollowNodes(path: string, depth: nat)
      requires Valid() && Walk(Graph(readings), root, path, depth) && depth <= maxDepth
      requires path in readings && readings[path].Parsed? && readings[path].ready
      modifies this
      ensures Valid() && old(items) <= items && old(visited) <= visited
      ensures SoFar(readings, path, depth, maxDepth, maxCount, old(items), old(visited), |readings[path].nodes|, items, visited,
                    !old(truncated), truncated)
      ensures !truncated ==> Followed(readings, items, path) && AllFollowed(readings, items, |old(items)|)
      ensures |items| < maxCount ==>
        Explored(readings, items, visited, maxDepth, |old(items)|) && (depth < maxDepth ==> Graph(readings)[path] <= visited)
      decreases if depth <= maxDepth then maxDepth + 1 - depth else 0, 0
    {
      hide ItemsOk, ItemOk, Walk, Has, AllFollowed, Graph, Followed, Following, TargetOf, IsCanvasPath, Fits, Added, Unfold, SoFar, VisitedOk,
           Exploring, Explored;
      var nodes := readings[path].nodes;
      ghost var clean := !truncated;
      NothingToFollow(readings, items, path, nodes, truncated);
      SoFarStarts(readings, path, depth, maxDepth, maxCount, items, visited, clean);
      ExploringStarts(readings, path, depth, maxDepth, maxCount, items, visited);
      for k := 0 to |nodes|
        invariant Valid() && old(items) <= items && old(visited) <= visited
        invariant Following(readings, items, path, nodes, k, |old(items)|, truncated)
        invariant SoFar(readings, path, depth, maxDepth, maxCount, old(items), old(visited), k, items, visited, clean, truncated)
        invariant Exploring(readings, path, depth, maxDepth, maxCount, |old(items)|, k, items, visited)
      {
        if !RefersToCanvas(nodes[k]) {
          SkipNode(readings, items, path, nodes, k, |old(items)|, truncated);
          SoFarSkips(readings, path, depth, maxDepth, maxCount, old(items), old(visited), k, items, visited, clean, truncated);
          ExploringSkips(readings, path, depth, maxDepth, maxCount, |old(items)|, k, items, visited);
          continue;
        }
        if depth >= maxDepth {
          SoFarStops(readings, path, depth, maxDepth, maxCount, old(items), old(visited), k, items, visited, clean, truncated);
          CutShort(readings, path, depth, maxDepth, maxCount, old(items), old(visited), k + 1, items, visited, clean);
          ExploringEnds(readings, path, depth, maxDepth, maxCount, |old(items)|, k, items, visited);
          truncated := true;
          return;
        }
        if !TargetOf(path, nodes[k]).Resolved? {
          SoFarStops(readings, path, depth, maxDepth, maxCount, old(items), old(visited), k, items, visited, clean, truncated);
          ExploringSkips(readings, path, depth, maxDepth, maxCount, |old(items)|, k, items, visited);
          CutOff(readings, items, path, nodes, k + 1, |old(items)|);
          truncated := true;
          continue;
        }
        ReferenceIsEdge(readings, root, path, depth, nodes[k]);
        ghost var before, seen, earlier := items, visited, truncated;
        Visit(TargetOf(path, nodes[k]).path, depth + 1);
        SoFarVisits(readings, path, depth, maxDepth, maxCount, old(items), old(visited), k, before, seen, items, visited, clean, earlier, truncated);
        if |items| >= maxCount {
          CutShort(readings, path, depth, maxDepth, maxCount, old(items), old(visited), k + 1, items, visited, clean);
          truncated := true;
          return;
        }
        NodeVisited(readings, before, items, path, nodes, k, |old(items)|, earlier, truncated);
        ExploringVisits(readings, path, depth, maxDepth, maxCount, |old(items)|, k, before, seen, items, visited);
      }
      FollowingEnds(readings, items, path, |old(items)|, truncated);
      ExploringEnds(readings, path, depth, maxDepth, maxCount, |old(items)|, |nodes|, items, visited);
    }
  }

  // ---------- the loop and what the canvas unfolds to ----------

  /** Nothing was cut off so far exactly when what the first `k` nodes unfold to fits; then exactly that was added. */
  ghost predicate SoFar(readings: map<string, Reading>, path: string, depth: nat, maxDepth: int, maxCount: int, before: seq<Item>,
                        visitedBefore: set<string>, k: nat, items: seq<Item>, visited: set<string>, clean: bool, truncated: bool)
    requires path in readings && readings[path].Parsed? && k <= |readings[path].nodes| && depth <= maxDepth
  {
    var unfolded := UnfoldNodes(readings, path, readings[path].nodes, k, depth, maxDepth);
    && (!truncated <==> clean && NodesFit(unfolded, visitedBefore, |before|, maxCount))
    && (!truncated ==> Added(before, visitedBefore, items, visited, unfolded.value))
  }

  lemma SoFarStarts(readings: map<string, Reading>, path: string, depth: nat, maxDepth: int, maxCount: int, items: seq<Item>,
                    visited: set<string>, clean: bool)
    requires path in readings && readings[path].Parsed? && depth <= maxDepth
    ensures SoFar(readings, path, depth, maxDepth, maxCount, items, visited, 0, items, visited, clean, !clean)
  {
    PushPath(items, Item("", "", 0, false), visited);
    hide PathsOf;
  }

  lemma SoFarSkips(readings: map<string, Reading>, path: string, depth: nat, maxDepth: int, maxCount: int, before: seq<Item>,
                   visitedBefore: set<string>, k: nat, items: seq<Item>, visited: set<string>, clean: bool, truncated: bool)
    requires path in readings && readings[path].Parsed? && k < |readings[path].nodes| && depth <= maxDepth
    requires SoFar(readings, path, depth, maxDepth, maxCount, before, visitedBefore, k, items, visited, clean, truncated)
    requires !RefersToCanvas(readings[path].nodes[k])
    ensures SoFar(readings, path, depth, maxDepth, maxCount, before, visitedBefore, k + 1, items, visited, clean, truncated)
  {
    hide Added, NodesFit, TargetOf, Unfold;
  }

  /** A reference that is too deep or does not resolve cuts off. */
  lemma SoFarStops(readings: map<string, Reading>, path: string, depth: nat, maxDepth: int, maxCount: int, before: seq<Item>,
                   visitedBefore: set<string>, k: nat, items: seq<Item>, visited: set<string>, clean: bool, truncated: bool)
    requires path in readings && readings[path].Parsed? && k < |readings[path].nodes| && depth <= maxDepth
    requires SoFar(readings, path, depth, maxDepth, maxCount, before, visitedBefore, k, items, visited, clean, truncated)
    requires var node := readings[path].nodes[k]; RefersToCanvas(node) && (depth >= maxDepth || !TargetOf(path, node).Resolved?)
    ensures SoFar(readings, path, depth, maxDepth, maxCount, before, visitedBefore, k + 1, items, visited, clean, true)
  {
    FewerFit(UnfoldNodes(readings, path, readings[path].nodes, k, depth, maxDepth),
             UnfoldNodes(readings, path, readings[path].nodes, k + 1, depth, maxDepth), visitedBefore, |before|, maxCount);
    hide Added, New, TargetOf, Unfold;
  }

  lemma {:induction false} CutShort(readings: map<string, Reading>, path: string, depth: nat, maxDepth: int, maxCount: int, before: seq<Item>,
                                    visitedBefore: set<string>, k: nat, items: seq<Item>, visited: set<string>, clean: bool)
    requires path in readings && readings[path].Parsed? && k <= |readings[path].nodes| && depth <= maxDepth
    requires SoFar(readings, path, depth, maxDepth, maxCount, before, visitedBefore, k, items, visited, clean, true)
    ensures SoFar(readings, path, depth, maxDepth, maxCount, before, visitedBefore, |readings[path].nodes|, items, visited, clean, true)
  {
    var nodes := readings[path].nodes;
    UnfoldGrows(readings, path, nodes, k, |nodes|, depth, maxDepth);
    hide UnfoldNodes, Added;
    FewerFit(UnfoldNodes(readings, path, nodes, k, depth, maxDepth), UnfoldNodes(readings, path, nodes, |nodes|, depth, maxDepth),
             visitedBefore, |before|, maxCount);
  }

  /** One more reference was visited; reaching the count limit cuts off too. */
  lemma {:induction false} SoFarVisits(readings: map<string, Reading>, path: string, depth: nat, maxDepth: int, maxCount: int, before: seq<Item>,
                           visitedBefore: set<string>, k: nat, middle: seq<Item>, visitedMiddle: set<string>, items: seq<Item>,
                           visited: set<string>, clean: bool, earlier: bool, truncated: bool)
    requires path in readings && readings[path].Parsed? && k < |readings[path].nodes| && depth < maxDepth
    requires SoFar(readings, path, depth, maxDepth, maxCount, before, visitedBefore, k, middle, visitedMiddle, clean, earlier)
    requires RefersToCanvas(readings[path].nodes[k]) && TargetOf(path, readings[path].nodes[k]).Resolved?
    requires var below := Unfold(readings, TargetOf(path, readings[path].nodes[k]).path, depth + 1, maxDepth);
             && (!truncated <==> !earlier && Fits(below, visitedMiddle, |middle|, maxCount))
             && (!truncated ==> Added(middle, visitedMiddle, items, visited, below.value))
    requires middle <= items
    ensures SoFar(readings, path, depth, maxDepth, maxCount, before, visitedBefore, k + 1, items, visited, clean, truncated || |items| >= maxCount)
  {
    var nodes := readings[path].nodes;
    var above, all := UnfoldNodes(readings, path, nodes, k, depth, maxDepth), UnfoldNodes(readings, path, nodes, k + 1, depth, maxDepth);
    var below := Unfold(readings, TargetOf(path, nodes[k]).path, depth + 1, maxDepth);
    assert all == if above.None? || below.None? then None else Some(above.value + below.value);
    UnfoldGrows(readings, path, nodes, k, k + 1, depth, maxDepth);
    UnfoldIsSome(readings, TargetOf(path, nodes[k]).path, depth + 1, maxDepth);
    hide UnfoldNodes, Unfold, TargetOf;
    FewerFit(above, all, visitedBefore, |before|, maxCount);
    if !earlier && below.Some? {
      NewConcat(above.value, below.value, visitedBefore);
      VisitedIs(before, visitedBefore, middle, visitedMiddle, above.value);
      hide New, PathsOf;
      if !truncated {
        AddedMore(before, visitedBefore, middle, visitedMiddle, items, visited, above.value, below.value);
      }
    }
  }

  lemma VisitedIs(before: seq<Item>, visitedBefore: set<string>, items: seq<Item>, visited: set<string>, paths: seq<string>)
    requires Added(before, visitedBefore, items, visited, paths)
    ensures visited == visitedBefore + (set p | p in paths) && |items| == |before| + |paths|
  {
  }

  lemma UnfoldIsSome(readings: map<string, Reading>, path: string, depth: nat, maxDepth: int)
    ensures var unfolded := Unfold(readings, path, depth, maxDepth); unfolded.Some? ==> |unfolded.value| >= 1
  {
    hide UnfoldNodes;
  }

  /** What the canvas at `path` unfolds to, seen from its visit. */
  lemma {:induction false} UnfoldsInTwo(readings: map<string, Reading>, path: string, depth: nat, maxDepth: int, visited: set<string>, shown: nat,
                                        maxCount: int)
    requires path in readings && readings[path].Parsed? && depth <= maxDepth && path !in visited && shown < maxCount
    ensures !readings[path].ready ==>
      Unfold(readings, path, depth, maxDepth) == Some([path]) && Fits(Unfold(readings, path, depth, maxDepth), visited, shown, maxCount)
    ensures readings[path].ready ==>
      var below := UnfoldNodes(readings, path, readings[path].nodes, |readings[path].nodes|, depth, maxDepth);
      && Unfold(readings, path, depth, maxDepth) == (if below.None? then None else Some([path] + below.value))
      && (Fits(Unfold(readings, path, depth, maxDepth), visited, shown, maxCount) <==> NodesFit(below, visited + {path}, shown + 1, maxCount))
  {
    var below := UnfoldNodes(readings, path, readings[path].nodes, |readings[path].nodes|, depth, maxDepth);
    hide UnfoldNodes;
    FitsInTwo(path, below, visited, shown, maxCount);
  }

  lemma {:induction false} VisitEnds(readings: map<string, Reading>, path: string, depth: nat, maxDepth: int, maxCount: int, before: seq<Item>,
                           visitedBefore: set<string>, middle: seq<Item>, visitedMiddle: set<string>, items: seq<Item>, visited: set<string>,
                           clean: bool, truncated: bool)
    requires path in readings && readings[path].Parsed? && readings[path].ready && depth <= maxDepth
    requires path !in visitedBefore && |before| < maxCount
    requires Added(before, visitedBefore, middle, visitedMiddle, [path])
    requires SoFar(readings, path, depth, maxDepth, maxCount, middle, visitedMiddle, |readings[path].nodes|, items, visited, clean, truncated)
    ensures !truncated <==> clean && Fits(Unfold(readings, path, depth, maxDepth), visitedBefore, |before|, maxCount)
    ensures !truncated ==> Added(before, visitedBefore, items, visited, Unfold(readings, path, depth, maxDepth).value)
  {
    UnfoldsInTwo(readings, path, depth, maxDepth, visitedBefore, |before|, maxCount);
    VisitedIs(before, visitedBefore, middle, visitedMiddle, [path]);
    assert visitedMiddle == visitedBefore + {path};
    hide Added, Fits, NodesFit, Unfold, UnfoldNodes;
    if !truncated {
      AddedMore(before, visitedBefore, middle, visitedMiddle, items, visited, [path],
                UnfoldNodes(readings, path, readings[path].nodes, |readings[path].nodes|, depth, maxDepth).value);
    }
  }

  lemma MalformedLeadsNowhere(readings: map<string, Reading>, path: string)
    requires path in readings && readings[path].Parsed? && !readings[path].ready
    ensures Graph(readings)[path] == {}
  {
  }

  /** What is visited already, too deep, or behind a full list does not fit. */
  lemma {:induction false} CannotVisit(readings: map<string, Reading>, path: string, depth: nat, maxDepth: int, visited: set<string>, shown: nat,
                                       maxCount: int)
    requires shown >= maxCount || depth > maxDepth || path in visited
    ensures !Fits(Unfold(readings, path, depth, maxDepth), visited, shown, maxCount)
  {
    UnfoldIsSome(readings, path, depth, maxDepth);
    var unfolded := Unfold(readings, path, depth, maxDepth);
    if unfolded.Some? {
      assert unfolded.value[0] == path && unfolded.value[0] in unfolded.value by { hide UnfoldNodes; }
    }
    hide UnfoldNodes, Unfold;
  }

  lemma CannotRead(readings: map<string, Reading>, path: string, depth: nat, maxDepth: int, visited: set<string>, shown: nat, maxCount: int)
    requires path !in readings || !readings[path].Parsed?
    ensures !Fits(Unfold(readings, path, depth, maxDepth), visited, shown, maxCount)
  {
  }

  // ---------- the loop and what it explores ----------

  /** While there is room, the first `k` nodes were visited, and the items added were explored. */
  ghost predicate Exploring(readings: map<string, Reading>, path: string, depth: nat, maxDepth: int, maxCount: int, from: nat, k: nat,
                            items: seq<Item>, visited: set<string>)
    requires path in readings && readings[path].Parsed? && k <= |readings[path].nodes|
  {
    var nodes := readings[path].nodes;
    |items| < maxCount ==>
      && Explored(readings, items, visited, maxDepth, from)
      && (depth < maxDepth ==> forall i :: 0 <= i < k && RefersToCanvas(nodes[i]) && TargetOf(path, nodes[i]).Resolved? ==>
            TargetOf(path, nodes[i]).path in visited)
  }

  lemma ExploringStarts(readings: map<string, Reading>, path: string, depth: nat, maxDepth: int, maxCount: int, items: seq<Item>, visited: set<string>)
    requires path in readings && readings[path].Parsed?
    ensures Exploring(readings, path, depth, maxDepth, maxCount, |items|, 0, items, visited)
  {
  }

  lemma ExploringSkips(readings: map<string, Reading>, path: string, depth: nat, maxDepth: int, maxCount: int, from: nat, k: nat,
                       items: seq<Item>, visited: set<string>)
    requires path in readings && readings[path].Parsed? && k < |readings[path].nodes|
    requires Exploring(readings, path, depth, maxDepth, maxCount, from, k, items, visited)
    requires var node := readings[path].nodes[k]; !RefersToCanvas(node) || !TargetOf(path, node).Resolved?
    ensures Exploring(readings, path, depth, maxDepth, maxCount, from, k + 1, items, visited)
  {
    hide Explored;
  }

  lemma {:induction false} ExploredMore(readings: map<string, Reading>, before: seq<Item>, visitedBefore: set<string>, items: seq<Item>,
                                        visited: set<string>, maxDepth: int, from: nat)
    requires before <= items && visitedBefore <= visited && Explored(readings, before, visitedBefore, maxDepth, from)
    requires Explored(readings, items, visited, maxDepth, |before|)
    ensures Explored(readings, items, visited, maxDepth, from)
  {
    forall i | from <= i < |items| && items[i].path in readings && items[i].depth < maxDepth
      ensures Graph(readings)[items[i].path] <= visited
    {
      if i < |before| {
        assert items[i] == before[i];
      }
    }
  }

  lemma {:induction false} ExploringVisits(readings: map<string, Reading>, path: string, depth: nat, maxDepth: int, maxCount: int, from: nat, k: nat,
                           before: seq<Item>, visitedBefore: set<string>, items: seq<Item>, visited: set<string>)
    requires path in readings && readings[path].Parsed? && k < |readings[path].nodes| && before <= items && visitedBefore <= visited
    requires Exploring(readings, path, depth, maxDepth, maxCount, from, k, before, visitedBefore)
    requires RefersToCanvas(readings[path].nodes[k]) && TargetOf(path, readings[path].nodes[k]).Resolved?
    requires |items| < maxCount ==>
      && (depth + 1 <= maxDepth ==> TargetOf(path, readings[path].nodes[k]).path in visited)
      && Explored(readings, items, visited, maxDepth, |before|)
    ensures Exploring(readings, path, depth, maxDepth, maxCount, from, k + 1, items, visited)
  {
    hide Explored, TargetOf;
    if |items| < maxCount {
      ExploredMore(readings, before, visitedBefore, items, visited, maxDepth, from);
    }
  }

  lemma {:induction false} ExploringEnds(readings: map<string, Reading>, path: string, depth: nat, maxDepth: int, maxCount: int, from: nat, k: nat,
                                         items: seq<Item>, visited: set<string>)
    requires path in readings && readings[path].Parsed? && readings[path].ready && k <= |readings[path].nodes|
    requires k == |readings[path].nodes| || depth >= maxDepth
    requires Exploring(readings, path, depth, maxDepth, maxCount, from, k, items, visited)
    ensures |items| < maxCount ==>
      Explored(readings, items, visited, maxDepth, from) && (depth < maxDepth ==> Graph(readings)[path] <= visited)
  {
    hide Explored, TargetOf;
    if |items| < maxCount && depth < maxDepth {
      var nodes := readings[path].nodes;
      forall q | q in Targets(path, nodes) ensures q in visited {
        var node :| node in nodes && RefersToCanvas(node) && TargetOf(path, node).Resolved? && q == TargetOf(path, node).path;
        var i :| 0 <= i < |nodes| && nodes[i] == node;
      }
    }
  }

  lemma NoneExplored(readings: map<string, Reading>, items: seq<Item>, visited: set<string>, maxDepth: int)
    ensures Explored(readings, items, visited, maxDepth, |items|)
  {
  }

  /** The canvas itself comes first; what it refers to was visited, unless it is malformed or too deep. */
  lemma {:induction false} ExploredAfter(readings: map<string, Reading>, before: seq<Item>, item: Item, items: seq<Item>, visited: set<string>,
                                         maxDepth: int, maxCount: int)
    requires before + [item] <= items && item.path in readings
    requires |items| < maxCount ==>
      Explored(readings, items, visited, maxDepth, |before| + 1) && (item.depth < maxDepth ==> Graph(readings)[item.path] <= visited)
    ensures |items| < maxCount ==> Explored(readings, items, visited, maxDepth, |before|)
  {
    assert items[|before|] == (before + [item])[|before|] == item;
    hide Graph;
  }

  lemma {:induction false} PushVisited(readings: map<string, Reading>, items: seq<Item>, x: Item, visited: set<string>)
    requires VisitedOk(readings, items, visited)
    ensures VisitedOk(readings, items + [x], visited + {x.path})
  {
    assert x in items + [x] && forall y :: y in items ==> y in items + [x];
  }

  /** The loop invariant: unless something was cut off, the first `k` nodes are followed, and the items added from `from` on. */
  ghost predicate Following(readings: map<string, Reading>, items: seq<Item>, path: string, nodes: seq<Node>, k: nat, from: nat, truncated: bool)
    requires k <= |nodes|
  {
    !truncated ==> FollowedUpTo(items, path, nodes, k) && AllFollowed(readings, items, from)
  }

  lemma NothingToFollow(readings: map<string, Reading>, items: seq<Item>, path: string, nodes: seq<Node>, truncated: bool)
    ensures Following(readings, items, path, nodes, 0, |items|, truncated)
  {
  }

  lemma SkipNode(readings: map<string, Reading>, items: seq<Item>, path: string, nodes: seq<Node>, k: nat, from: nat, truncated: bool)
    requires k < |nodes| && Following(readings, items, path, nodes, k, from, truncated) && !RefersToCanvas(nodes[k])
    ensures Following(readings, items, path, nodes, k + 1, from, truncated)
  {
  }

  lemma CutOff(readings: map<string, Reading>, items: seq<Item>, path: string, nodes: seq<Node>, k: nat, from: nat)
    requires k <= |nodes|
    ensures Following(readings, items, path, nodes, k, from, true)
  {
  }

  lemma {:induction false} NodeVisited(readings: map<string, Reading>, before: seq<Item>, items: seq<Item>, path: string, nodes: seq<Node>,
                       k: nat, from: nat, earlier: bool, truncated: bool)
    requires k < |nodes| && before <= items && (earlier ==> truncated)
    requires RefersToCanvas(nodes[k]) && TargetOf(path, nodes[k]).Resolved?
    requires Following(readings, before, path, nodes, k, from, earlier)
    requires !truncated ==> Has(items, TargetOf(path, nodes[k]).path) && AllFollowed(readings, items, |before|)
    ensures Following(readings, items, path, nodes, k + 1, from, truncated)
  {
    hide Has, AllFollowed, TargetOf, Graph;
    if !truncated {
      StillFollowed(before, items, path, nodes, k);
      MoreItems(readings, before, items, from, path);
    }
  }

  lemma {:induction false} FollowingEnds(readings: map<string, Reading>, items: seq<Item>, path: string, from: nat, truncated: bool)
    requires path in readings && readings[path].Parsed? && readings[path].ready
    requires Following(readings, items, path, readings[path].nodes, |readings[path].nodes|, from, truncated)
    ensures !truncated ==> Followed(readings, items, path) && AllFollowed(readings, items, from)
  {
    hide AllFollowed, FollowedUpTo, Followed;
    if !truncated {
      FollowedNodes(readings, items, path);
    }
  }

  lemma VisitedMore(readings: map<string, Reading>, root: string, maxDepth: int, items: seq<Item>, visited: set<string>, path: string)
    requires ItemsOk(readings, root, maxDepth, items, visited) && VisitedOk(readings, items, visited)
    requires path !in readings || !readings[path].Parsed?
    ensures ItemsOk(readings, root, maxDepth, items, visited + {path}) && VisitedOk(readings, items, visited + {path})
  {
  }

  lemma NewItemOk(readings: map<string, Reading>, root: string, maxDepth: int, x: Item)
    requires x.depth <= maxDepth && Shown(readings, x) && Walk(Graph(readings), root, x.path, x.depth)
    ensures ItemOk(readings, root, maxDepth, x)
  {
  }

  lemma {:induction false} OneFollowed(readings: map<string, Reading>, before: seq<Item>, items: seq<Item>, path: string)
    requires path in readings && readings[path].Parsed? && !readings[path].ready
    requires |items| == |before| + 1 && items[|before|].path == path
    ensures Has(items, path) && AllFollowed(readings, items, |before|)
  {
    assert items[|before|] in items;
    FollowedNodes(readings, items, path);
  }

  lemma {:induction false} FollowedAfter(readings: map<string, Reading>, before: seq<Item>, item: Item, items: seq<Item>, truncated: bool)
    requires before + [item] <= items
    requires !truncated ==> Followed(readings, items, item.path) && AllFollowed(readings, items, |before| + 1)
    ensures before <= items
    ensures !truncated ==> Has(items, item.path) && AllFollowed(readings, items, |before|)
  {
    assert items[|before|] == (before + [item])[|before|] == item && items[|before|] in items;
    assert before <= before + [item];
    forall i | |before| <= i < |items| && !truncated ensures Followed(readings, items, items[i].path) {
    }
  }

  function Min(a: int, b: int): int {
    if a < b then a else b
  }

  /** The list is full, or shows the root and whatever a shown canvas above the depth limit refers to, as far as it can be read. */
  ghost predicate FullOrClosed(readings: map<string, Reading>, root: string, items: seq<Item>, maxDepth: int, maxCount: int) {
    |items| < maxCount ==>
      && (maxDepth >= 0 && root in readings && readings[root].Parsed? ==> Has(items, root))
      && forall x, q ::
           (x in items && x.path in readings && x.depth < maxDepth && q in Graph(readings)[x.path] && q in readings && readings[q].Parsed?
            ==> Has(items, q))
  }

  /**
   * The expansion ends whatever cycles the canvases form. It shows at most the allowed number of
   * distinct canvases, each at the length of a walk from the root. It is not truncated exactly when
   * all that the root unfolds to fits; then it shows just that, which is what can be reached from the
   * root. Truncated or not, it leaves out what it could show only when the list is full.
   */
  method ExpandCanvasEmbeds(readings: map<string, Reading>, rootPath: string, staleVault: bool, requestedDepth: int, requestedCount: int)
      returns (r: Outcome)
    ensures r.Ready? <==> !staleVault && IsCanvasPath(rootPath) && NormalizeVaultPath(rootPath).Some?
    ensures r.Ready? ==>
      var maxDepth, maxCount := Min(requestedDepth, MAX_CANVAS_EMBED_DEPTH), Min(requestedCount, MAX_CANVAS_EMBED_COUNT);
      && Some(r.rootPath) == NormalizeVaultPath(rootPath)
      && (r.items == [] || |r.items| <= maxCount)
      && (forall i, j :: 0 <= i < j < |r.items| ==> r.items[i].path != r.items[j].path)
      && (forall x :: x in r.items ==>
            Shown(readings, x) && x.depth <= maxDepth && Walk(Graph(readings), r.rootPath, x.path, x.depth))
      && FullOrClosed(readings, r.rootPath, r.items, maxDepth, maxCount)
      && (!r.truncated <==> Fits(Unfold(readings, r.rootPath, 0, maxDepth), {}, 0, maxCount))
      && (!r.truncated ==> PathsOf(r.items) == Unfold(readings, r.rootPath, 0, maxDepth).value)
      && (!r.truncated ==> forall path :: Has(r.items, path) <==> Reachable(readings, r.rootPath, path))
  {
    if staleVault || !IsCanvasPath(rootPath) {
      return Unavailable;
    }
    var root := NormalizeVaultPath(rootPath);
    if root.None? {
      return Unavailable;
    }
    hide Graph, AllFollowed, Unfold, Fits, Explored, VisitedOk;
    var expansion := new Expansion(readings, root.value, Min(requestedDepth, MAX_CANVAS_EMBED_DEPTH), Min(requestedCount, MAX_CANVAS_EMBED_COUNT));
    assert VisitedOk(readings, [], {}) by { NothingVisited(readings); }
    expansion.Visit(root.value, 0);
    Closed(readings, root.value, expansion.items, expansion.visited, expansion.maxDepth, expansion.maxCount);
    if !expansion.truncated {
      assert PathsOf([]) + Unfold(readings, root.value, 0, expansion.maxDepth).value == Unfold(readings, root.value, 0, expansion.maxDepth).value;
      ExactlyReachable(readings, root.value, expansion.maxDepth, expansion.items, expansion.visited);
    }
    r := Ready(root.value, expansion.items, expansion.truncated);
  }

  lemma NothingVisited(readings: map<string, Reading>)
    ensures VisitedOk(readings, [], {})
  {
  }

  lemma {:induction false} Closed(readings: map<string, Reading>, root: string, items: seq<Item>, visited: set<string>, maxDepth: int, maxCount: int)
    requires VisitedOk(readings, items, visited)
    requires |items| < maxCount ==> (0 <= maxDepth ==> root in visited) && Explored(readings, items, visited, maxDepth, 0)
    ensures FullOrClosed(readings, root, items, maxDepth, maxCount)
  {
    if |items| < maxCount {
      forall x, q | x in items && x.path in readings && x.depth < maxDepth && q in Graph(readings)[x.path]
           && q in readings && readings[q].Parsed? ensures Has(items, q) {
        var i :| 0 <= i < |items| && items[i] == x;
      }
    }
  }

  lemma {:induction false} ExactlyReachable(readings: map<string, Reading>, root: string, maxDepth: int, items: seq<Item>, visited: set<string>)
    requires ItemsOk(readings, root, maxDepth, items, visited) && Has(items, root) && AllFollowed(readings, items, 0)
    ensures forall path :: Has(items, path) <==> Reachable(readings, root, path)
  {
    hide Graph, Walk, AllFollowed, Shown;
    forall path ensures Has(items, path) <==> Reachable(readings, root, path) {
      if Reachable(readings, root, path) {
        var n: nat :| Walk(Graph(readings), root, path, n);
        ClosedHoldsAll(readings, root, items, path, n);
      }
      if Has(items, path) {
        var x :| x in items && x.path == path;
        assert ItemOk(readings, root, maxDepth, x);
      }
    }
  }
}
