/** Walks in a finite graph given by its adjacency. */
module Reachability {
  /** `v` is reached from `root` by a walk of exactly `n` edges. */
  ghost predicate Walk<V(!new)>(graph: map<V, set<V>>, root: V, v: V, n: nat) {
    if n == 0 then v == root
    else exists u :: u in graph && v in graph[u] && Walk(graph, root, u, n - 1)
  }

  lemma {:induction false} WalkStep<V(!new)>(graph: map<V, set<V>>, root: V, u: V, v: V, n: nat)
    requires Walk(graph, root, u, n) && u in graph && v in graph[u]
    ensures Walk(graph, root, v, n + 1)
  {
  }
}
