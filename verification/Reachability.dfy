/** What is reached from a set of roots in a directed graph. Node `p` has an edge to each node in `edges[p]`. */
module Reachability {

  type Edges = seq<set<nat>>

  ghost predicate Path(edges: Edges, roots: set<nat>, path: seq<nat>) {
    && path != [] && path[0] in roots
    && (forall i | 0 <= i < |path| :: path[i] < |edges|)
    && (forall i | 0 <= i < |path| - 1 :: path[i + 1] in edges[path[i]])
  }

  ghost predicate Reached(edges: Edges, roots: set<nat>, p: nat) {
    exists path :: Path(edges, roots, path) && path[|path| - 1] == p
  }

  lemma RootReached(edges: Edges, roots: set<nat>, p: nat)
    requires p in roots && p < |edges|
    ensures Reached(edges, roots, p)
  {
    assert Path(edges, roots, [p]);
  }

  lemma EdgeReached(edges: Edges, roots: set<nat>, p: nat, q: nat)
    requires Reached(edges, roots, p) && p < |edges| && q in edges[p] && q < |edges|
    ensures Reached(edges, roots, q)
  {
    var path :| Path(edges, roots, path) && path[|path| - 1] == p;
    var path' := path + [q];
    forall i | 0 <= i < |path'| - 1 ensures path'[i + 1] in edges[path'[i]] {
      if i == |path| - 1 { assert path'[i] == p; }
    }
    assert Path(edges, roots, path') && path'[|path'| - 1] == q;
  }

  /** A set of nodes that no edge leaves. */
  ghost predicate Closed(edges: Edges, live: set<nat>) {
    forall p, q | p in live && p < |edges| && q in edges[p] :: q in live
  }

  /** A closed set that holds the roots holds all that is reached. */
  lemma ClosedHolds(edges: Edges, roots: set<nat>, p: nat, live: set<nat>)
    requires Reached(edges, roots, p) && Closed(edges, live)
    requires forall r | r in roots && r < |edges| :: r in live
    ensures p in live
  {
    var path :| Path(edges, roots, path) && path[|path| - 1] == p;
    ClosedHoldsPath(edges, roots, path, live);
  }

  lemma {:induction false} ClosedHoldsPath(edges: Edges, roots: set<nat>, path: seq<nat>, live: set<nat>)
    requires Path(edges, roots, path) && Closed(edges, live)
    requires forall r | r in roots && r < |edges| :: r in live
    ensures path[|path| - 1] in live
    decreases |path|
  {
    if |path| > 1 {
      var init := path[..|path| - 1];
      assert Path(edges, roots, init);
      ClosedHoldsPath(edges, roots, init, live);
      assert path[|path| - 1] in edges[path[|path| - 2]];
    }
  }

  lemma MoreRoots(edges: Edges, roots: set<nat>, more: set<nat>, p: nat)
    requires Reached(edges, roots, p) && roots <= more
    ensures Reached(edges, more, p)
  {
    var path :| Path(edges, roots, path) && path[|path| - 1] == p;
    assert Path(edges, more, path);
  }
}
