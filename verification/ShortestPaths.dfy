/**
 * Weighted graphs, walks and shortest distances, together with the one fact every relaxation
 * algorithm rests on: an attained labelling with no relaxable edge is the shortest one.
 */
module ShortestPaths {

  datatype WNode = WNode(v: nat, w: nat)
  type WGraph = seq<seq<WNode>>

  ghost predicate ValidGraph(g: WGraph) {
    forall u, k :: 0 <= u < |g| && 0 <= k < |g[u]| ==> g[u][k].v < |g|
  }

  datatype End = Stuck | At(v: nat, len: nat)

  /** Where a walk from s ends, and its length, when p lists the edge taken at each vertex. */
  ghost function Follow(g: WGraph, s: nat, p: seq<nat>): End {
    if p == [] then At(s, 0)
    else
      var prev := Follow(g, s, p[..|p| - 1]);
      var k := p[|p| - 1];
      if prev.At? && prev.v < |g| && k < |g[prev.v]|
      then At(g[prev.v][k].v, prev.len + g[prev.v][k].w) else Stuck
  }

  ghost predicate HasWalk(g: WGraph, s: nat, v: nat, len: nat) {
    exists p :: Follow(g, s, p) == At(v, len)
  }

  /** dist[v] is the length of a shortest walk from s to v, or inf if every walk is that long. */
  ghost predicate Shortest(g: WGraph, s: nat, inf: nat, dist: seq<nat>) {
    && |dist| == |g|
    && forall v :: 0 <= v < |dist| ==>
         && (dist[v] == inf || (dist[v] < inf && HasWalk(g, s, v, dist[v])))
         && forall len :: HasWalk(g, s, v, len) ==> dist[v] <= len
  }

  lemma ShortestUnique(g: WGraph, s: nat, inf: nat, a: seq<nat>, b: seq<nat>)
    requires Shortest(g, s, inf, a) && Shortest(g, s, inf, b)
    ensures a == b
  {
    forall v | 0 <= v < |a|
      ensures a[v] == b[v]
    {
      if a[v] < inf { assert HasWalk(g, s, v, a[v]); }
      if b[v] < inf { assert HasWalk(g, s, v, b[v]); }
    }
  }

  /** Labels are lengths of walks, or inf; the source has label 0. */
  ghost predicate Attained(g: WGraph, s: nat, inf: nat, dist: seq<nat>) {
    && |dist| == |g| && s < |g| && dist[s] == 0
    && forall v :: 0 <= v < |dist| ==> dist[v] == inf || (dist[v] < inf && HasWalk(g, s, v, dist[v]))
  }

  /** Some edge of u could still lower a label. */
  ghost predicate Relaxable(g: WGraph, dist: seq<nat>, u: nat)
    requires ValidGraph(g) && |dist| == |g|
  {
    u < |g| && exists k :: 0 <= k < |g[u]| && dist[u] + g[u][k].w < dist[g[u][k].v]
  }

  lemma {:induction false} WalkBound(g: WGraph, s: nat, inf: nat, dist: seq<nat>, p: seq<nat>)
    requires ValidGraph(g) && Attained(g, s, inf, dist)
    requires forall u: nat :: !Relaxable(g, dist, u)
    requires Follow(g, s, p).At?
    ensures Follow(g, s, p).v < |g| && dist[Follow(g, s, p).v] <= Follow(g, s, p).len
    decreases |p|
  {
    if p != [] {
      WalkBound(g, s, inf, dist, p[..|p| - 1]);
      var prev := Follow(g, s, p[..|p| - 1]);
      assert !Relaxable(g, dist, prev.v);
    }
  }

  lemma RelaxedIsShortest(g: WGraph, s: nat, inf: nat, dist: seq<nat>)
    requires ValidGraph(g) && Attained(g, s, inf, dist)
    requires forall u: nat :: !Relaxable(g, dist, u)
    ensures Shortest(g, s, inf, dist)
  {
    forall v, len | 0 <= v < |dist| && HasWalk(g, s, v, len)
      ensures dist[v] <= len
    {
      var p :| Follow(g, s, p) == At(v, len);
      WalkBound(g, s, inf, dist, p);
    }
  }

  lemma WalkExtends(g: WGraph, s: nat, u: nat, len: nat, k: nat)
    requires HasWalk(g, s, u, len) && u < |g| && k < |g[u]|
    ensures HasWalk(g, s, g[u][k].v, len + g[u][k].w)
  {
    var p :| Follow(g, s, p) == At(u, len);
    assert (p + [k])[..|p|] == p;
    assert Follow(g, s, p + [k]) == At(g[u][k].v, len + g[u][k].w);
  }

  lemma AttainedLower(g: WGraph, s: nat, inf: nat, dist: seq<nat>, u: nat, k: nat)
    requires ValidGraph(g) && Attained(g, s, inf, dist) && u < |g| && k < |g[u]|
    requires dist[u] + g[u][k].w < dist[g[u][k].v]
    ensures Attained(g, s, inf, dist[g[u][k].v := dist[u] + g[u][k].w])
  {
    WalkExtends(g, s, u, dist[u], k);
  }
}
