/**
 * The CSR graph every kernel reads, as the value its accessors expose: for each vertex the
 * sequence its out-range holds and the sequence its in-range holds.  An undirected graph
 * stores one set of ranges and answers both questions from it.
 */
module Graphs {

  datatype Graph = Graph(directed: bool, out: seq<seq<nat>>, inn: seq<seq<nat>>) {

    function N(): nat { |out| }

    /** In-lists are the inverse of out-lists; undirected graphs share one array. */
    ghost predicate Valid() {
      && |inn| == |out|
      && (forall u, k :: 0 <= u < N() && 0 <= k < |out[u]| ==> out[u][k] < N())
      && (forall u, k :: 0 <= u < N() && 0 <= k < |inn[u]| ==> inn[u][k] < N())
      && (forall u, v :: 0 <= u < N() && 0 <= v < N() ==> (v in out[u] <==> u in inn[v]))
      && (!directed ==> inn == out)
    }

    /** Weak adjacency: an edge in either direction. */
    ghost predicate Adjacent(u: nat, v: nat) {
      u < |out| && v < |out| && (v in out[u] || u in out[v])
    }

    ghost predicate Walk(p: seq<nat>) {
      && |p| > 0
      && (forall i :: 0 <= i < |p| ==> p[i] < N())
      && forall i :: 0 <= i < |p| - 1 ==> Adjacent(p[i], p[i + 1])
    }

    ghost predicate WalkBetween(p: seq<nat>, u: nat, v: nat) {
      Walk(p) && p[0] == u && p[|p| - 1] == v
    }

    /** u and v lie in the same weakly connected component. */
    ghost predicate Connected(u: nat, v: nat) {
      exists p :: WalkBetween(p, u, v)
    }

    /** m is the smallest id in v's weakly connected component. */
    ghost predicate SmallestInComponent(v: nat, m: nat) {
      Connected(v, m) && forall w :: Connected(v, w) ==> m <= w
    }

    lemma ConnectedRefl(u: nat)
      requires u < N()
      ensures Connected(u, u)
    {
      assert WalkBetween([u], u, u);
    }

    lemma ConnectedEdge(u: nat, v: nat)
      requires Adjacent(u, v)
      ensures Connected(u, v)
    {
      assert WalkBetween([u, v], u, v);
    }

    lemma ConnectedSym(u: nat, v: nat)
      requires Connected(u, v)
      ensures Connected(v, u)
    {
      var p :| WalkBetween(p, u, v);
      var q := seq(|p|, i requires 0 <= i < |p| => p[|p| - 1 - i]);
      forall i | 0 <= i < |q| - 1
        ensures Adjacent(q[i], q[i + 1])
      {
        assert Adjacent(p[|p| - 2 - i], p[|p| - 2 - i + 1]);
      }
      assert WalkBetween(q, v, u);
    }

    lemma ConnectedTrans(u: nat, v: nat, w: nat)
      requires Connected(u, v) && Connected(v, w)
      ensures Connected(u, w)
    {
      var p :| WalkBetween(p, u, v);
      var q :| WalkBetween(q, v, w);
      var r := p + q[1..];
      forall i | 0 <= i < |r| - 1
        ensures Adjacent(r[i], r[i + 1])
      {
        if i >= |p| - 1 {
          assert r[i] == q[i - |p| + 1] && r[i + 1] == q[i - |p| + 2];
          assert Adjacent(q[i - |p| + 1], q[i - |p| + 1 + 1]);
        }
      }
      assert WalkBetween(r, u, w);
    }
  }
}
