/**
 * Directed distances in a graph and what it means for a parent array to be a breadth-first
 * tree.  Depth is defined by growing reachable sets; DepthIsShortest relates it to paths.
 */
module BreadthFirstTree {
  import opened Graphs

  /** v is reachable from s along at most n edges. */
  ghost predicate Within(g: Graph, s: nat, n: nat, v: nat)
    decreases n, 0
  {
    if n == 0 then v == s
    else Within(g, s, n - 1, v) || HasPredecessor(g, s, n - 1, v)
  }

  ghost predicate HasPredecessor(g: Graph, s: nat, n: nat, v: nat)
    decreases n, 1
  {
    v < g.N() && exists u: nat :: u < g.N() && v in g.out[u] && Within(g, s, n, u)
  }

  ghost predicate AtDepth(g: Graph, s: nat, v: nat, n: nat) {
    Within(g, s, n, v) && (n > 0 ==> !Within(g, s, n - 1, v))
  }

  ghost predicate Reachable(g: Graph, s: nat, v: nat) {
    exists n: nat :: Within(g, s, n, v)
  }

  /** v's parent p is one level nearer the source and has an edge to v; the source is its own. */
  ghost predicate GoodParent(g: Graph, s: nat, v: nat, p: int) {
    if v == s then p == s
    else 0 <= p < g.N() && v in g.out[p] && exists n: nat :: AtDepth(g, s, p, n) && AtDepth(g, s, v, n + 1)
  }

  ghost predicate BreadthFirst(g: Graph, s: nat, parent: seq<int>) {
    && |parent| == g.N()
    && forall v: nat :: v < g.N() ==>
         if Reachable(g, s, v) then GoodParent(g, s, v, parent[v]) else parent[v] == -1
  }

  // ---- paths ----

  ghost predicate Path(g: Graph, p: seq<nat>) {
    && |p| > 0 && (forall i :: 0 <= i < |p| ==> p[i] < g.N())
    && forall i :: 0 <= i < |p| - 1 ==> p[i + 1] in g.out[p[i]]
  }

  ghost predicate PathTo(g: Graph, s: nat, v: nat, p: seq<nat>) {
    Path(g, p) && p[0] == s && p[|p| - 1] == v
  }

  lemma {:induction false} PathStaysWithin(g: Graph, s: nat, v: nat, p: seq<nat>)
    requires PathTo(g, s, v, p)
    ensures Within(g, s, |p| - 1, v)
    decreases |p|
  {
    if |p| > 1 {
      var q := p[..|p| - 1];
      PathStaysWithin(g, s, q[|q| - 1], q);
      assert p[|p| - 2 + 1] in g.out[p[|p| - 2]];
      assert HasPredecessor(g, s, |p| - 2, v);
    }
  }

  lemma {:induction false} WithinHasPath(g: Graph, s: nat, v: nat, n: nat) returns (p: seq<nat>)
    requires g.Valid() && s < g.N() && Within(g, s, n, v)
    ensures PathTo(g, s, v, p) && |p| <= n + 1
    decreases n
  {
    if n == 0 {
      p := [s];
    } else if Within(g, s, n - 1, v) {
      p := WithinHasPath(g, s, v, n - 1);
    } else {
      var u: nat :| u < g.N() && v in g.out[u] && Within(g, s, n - 1, u);
      var q := WithinHasPath(g, s, u, n - 1);
      p := q + [v];
    }
  }

  /** Depth n means: some path has exactly n edges and none has fewer. */
  lemma DepthIsShortest(g: Graph, s: nat, v: nat, n: nat)
    requires g.Valid() && s < g.N()
    ensures AtDepth(g, s, v, n) <==>
              && (exists p :: PathTo(g, s, v, p) && |p| == n + 1)
              && (forall p :: PathTo(g, s, v, p) ==> |p| >= n + 1)
  {
    if AtDepth(g, s, v, n) {
      var p := WithinHasPath(g, s, v, n);
      forall q | PathTo(g, s, v, q)
        ensures |q| >= n + 1
      {
        PathStaysWithin(g, s, v, q);
        if |q| <= n {
          WithinGrows(g, s, |q| - 1, n - 1, v);
        }
      }
    }
    if exists p :: PathTo(g, s, v, p) && |p| == n + 1 {
      var p :| PathTo(g, s, v, p) && |p| == n + 1;
      PathStaysWithin(g, s, v, p);
      if n > 0 && Within(g, s, n - 1, v) {
        var q := WithinHasPath(g, s, v, n - 1);
      }
    }
  }

  lemma {:induction false} WithinGrows(g: Graph, s: nat, m: nat, n: nat, v: nat)
    requires m <= n && Within(g, s, m, v)
    ensures Within(g, s, n, v)
    decreases n
  {
    if m < n {
      WithinGrows(g, s, m, n - 1, v);
    }
  }

  // ---- certificates ----

  /** A parent array together with the level each visited vertex was found on (-1: unvisited). */
  datatype Tree = Tree(parent: seq<int>, level: seq<int>)

  ghost predicate Visited(t: Tree, v: nat) { v < |t.level| && t.level[v] >= 0 }

  /** Before a vertex is visited its parent holds minus its degree, or -1. */
  function Unvisited(g: Graph, v: nat): (p: int)
    requires v < g.N()
    ensures p < 0
  {
    if |g.out[v]| != 0 then -|g.out[v]| else -1
  }

  ghost predicate TreeVertex(g: Graph, s: nat, t: Tree, v: nat)
    requires |t.parent| == |t.level| == g.N() && v < g.N()
  {
    var p := t.parent[v];
    if t.level[v] < 0 then t.level[v] == -1 && p == Unvisited(g, v) && v != s
    else if v == s then p == s && t.level[v] == 0
    else 0 <= p < g.N() && v in g.out[p] && t.level[v] == t.level[p] + 1 && t.level[p] >= 0
  }

  /** Tree edges go down one level, no edge goes down more than one, and all vertices above
      level d have only visited neighbours. */
  ghost predicate Levelled(g: Graph, s: nat, d: nat, t: Tree)
    requires g.Valid()
  {
    && s < g.N() && |t.parent| == |t.level| == g.N()
    && (forall v: nat :: v < g.N() ==> TreeVertex(g, s, t, v))
    && (forall u: nat, k: nat :: u < g.N() && k < |g.out[u]| && t.level[u] >= 0 ==>
          t.level[g.out[u][k]] <= t.level[u] + 1 && (t.level[u] < d ==> t.level[g.out[u][k]] >= 0))
  }

  lemma {:induction false} LevelIsWithin(g: Graph, s: nat, d: nat, t: Tree, v: nat)
    requires g.Valid() && Levelled(g, s, d, t) && Visited(t, v)
    ensures Within(g, s, t.level[v], v)
    decreases t.level[v]
  {
    assert TreeVertex(g, s, t, v);
    if v != s {
      LevelIsWithin(g, s, d, t, t.parent[v]);
      assert HasPredecessor(g, s, t.level[v] - 1, v);
    }
  }

  /** In a finished tree nothing within n edges is missed or placed too deep. */
  lemma {:induction false} WithinIsVisited(g: Graph, s: nat, d: nat, t: Tree, n: nat, v: nat)
    requires g.Valid() && Levelled(g, s, d, t) && (forall u: nat :: Visited(t, u) ==> t.level[u] < d)
    requires Within(g, s, n, v)
    ensures Visited(t, v) && t.level[v] <= n
    decreases n
  {
    if n == 0 {
      assert TreeVertex(g, s, t, s);
    } else if Within(g, s, n - 1, v) {
      WithinIsVisited(g, s, d, t, n - 1, v);
    } else {
      var u: nat :| u < g.N() && v in g.out[u] && Within(g, s, n - 1, u);
      WithinIsVisited(g, s, d, t, n - 1, u);
      var k :| 0 <= k < |g.out[u]| && g.out[u][k] == v;
    }
  }

  lemma LevelIsDepth(g: Graph, s: nat, d: nat, t: Tree, v: nat)
    requires g.Valid() && Levelled(g, s, d, t) && (forall u: nat :: Visited(t, u) ==> t.level[u] < d)
    requires Visited(t, v)
    ensures AtDepth(g, s, v, t.level[v])
  {
    LevelIsWithin(g, s, d, t, v);
    if t.level[v] > 0 && Within(g, s, t.level[v] - 1, v) {
      WithinIsVisited(g, s, d, t, t.level[v] - 1, v);
      assert false;
    }
  }

  /** A tree with no vertex left to expand is the breadth-first tree, once the degrees kept in
      unvisited entries are replaced by -1. */
  lemma CertificateSuffices(g: Graph, s: nat, d: nat, t: Tree, parent: seq<int>)
    requires g.Valid() && Levelled(g, s, d, t) && (forall u: nat :: Visited(t, u) ==> t.level[u] < d)
    requires |parent| == g.N()
    requires forall v :: 0 <= v < g.N() ==> parent[v] == if t.parent[v] < -1 then -1 else t.parent[v]
    ensures BreadthFirst(g, s, parent)
  {
    forall v: nat | v < g.N()
      ensures if Reachable(g, s, v) then GoodParent(g, s, v, parent[v]) else parent[v] == -1
    {
      assert TreeVertex(g, s, t, v);
      if Visited(t, v) {
        LevelIsDepth(g, s, d, t, v);
        if v != s {
          LevelIsDepth(g, s, d, t, t.parent[v]);
        }
      } else if Reachable(g, s, v) {
        var n: nat :| Within(g, s, n, v);
        WithinIsVisited(g, s, d, t, n, v);
        assert false;
      }
    }
  }
}
