/**
 * The array `comp` both component kernels work on, read as a forest: every entry points to a
 * vertex that is not larger, so following entries ends at a self-pointing root.
 */
module Forest {
  import opened Basics
  import opened Graphs

  ghost predicate IsForest(comp: seq<nat>) {
    forall x :: 0 <= x < |comp| ==> comp[x] <= x
  }

  ghost function Root(comp: seq<nat>, x: nat): (r: nat)
    requires IsForest(comp) && x < |comp|
    ensures r <= comp[x] <= x && comp[r] == r
  {
    if comp[x] == x then x else Root(comp, comp[x])
  }

  /** The branch-free minimum and maximum of the linking code. */
  function High(p1: nat, p2: nat): nat { if p1 > p2 then p1 else p2 }

  function Low(p1: nat, p2: nat): (low: nat)
    ensures p1 != p2 ==> low < High(p1, p2) && {low, High(p1, p2)} == {p1, p2}
  {
    p1 + (p2 - High(p1, p2))
  }

  ghost predicate Joined(comp: seq<nat>, x: nat, y: nat) {
    IsForest(comp) && x < |comp| && y < |comp| && Root(comp, x) == Root(comp, y)
  }

  /** Everything joined before is still joined. */
  ghost predicate Coarsens(before: seq<nat>, after: seq<nat>) {
    |before| == |after| && forall x, y :: Joined(before, x, y) ==> Joined(after, x, y)
  }

  /** Every tree stays inside one component of the graph. */
  ghost predicate WithinComponents(g: Graph, comp: seq<nat>) {
    IsForest(comp) && |comp| == g.N() && forall x :: 0 <= x < |comp| ==> g.Connected(x, comp[x])
  }

  /** Trees of depth one: every entry is a root. */
  ghost predicate Stars(comp: seq<nat>) {
    IsForest(comp) && forall x :: 0 <= x < |comp| ==> comp[comp[x]] == comp[x]
  }

  ghost predicate AllEdgesJoined(g: Graph, comp: seq<nat>) {
    forall u, v :: g.Adjacent(u, v) ==> Joined(comp, u, v)
  }

  /** The label array a component kernel must return. */
  ghost predicate LabelsComponents(g: Graph, comp: seq<nat>) {
    |comp| == g.N() && forall v :: 0 <= v < |comp| ==> g.SmallestInComponent(v, comp[v])
  }

  /** Hanging a root below a smaller vertex redirects exactly the trees of that root. */
  lemma {:induction false} HookRoot(comp: seq<nat>, high: nat, low: nat, x: nat)
    requires IsForest(comp) && low < high < |comp| && comp[high] == high && x < |comp|
    ensures IsForest(comp[high := low])
    ensures Root(comp[high := low], x) == if Root(comp, x) == high then Root(comp, low) else Root(comp, x)
    decreases x
  {
    var after := comp[high := low];
    if x == high {
      HookRoot(comp, high, low, low);
    } else if comp[x] != x {
      HookRoot(comp, high, low, comp[x]);
    }
  }

  lemma HookJoins(comp: seq<nat>, high: nat, low: nat)
    requires IsForest(comp) && low < high < |comp| && comp[high] == high
    ensures IsForest(comp[high := low]) && Coarsens(comp, comp[high := low])
    ensures Joined(comp[high := low], high, low)
  {
    var after := comp[high := low];
    forall x | 0 <= x < |comp|
      ensures Root(after, x) == if Root(comp, x) == high then Root(comp, low) else Root(comp, x)
    {
      HookRoot(comp, high, low, x);
    }
  }

  /** Pointing an entry at any smaller vertex of its own tree moves no root. */
  lemma {:induction false} ShortcutRoot(comp: seq<nat>, n: nat, q: nat, x: nat)
    requires IsForest(comp) && n < |comp| && x < |comp|
    requires q <= n && Root(comp, q) == Root(comp, n) && (q == n ==> comp[n] == n)
    ensures IsForest(comp[n := q])
    ensures Root(comp[n := q], x) == Root(comp, x)
    decreases x
  {
    if x == n {
      if q < n {
        ShortcutRoot(comp, n, q, q);
      }
    } else if comp[x] != x {
      ShortcutRoot(comp, n, q, comp[x]);
    }
  }

  lemma {:induction false} RootConnected(g: Graph, comp: seq<nat>, x: nat)
    requires WithinComponents(g, comp) && x < |comp|
    ensures g.Connected(x, Root(comp, x))
    decreases x
  {
    if comp[x] == x {
      g.ConnectedRefl(x);
    } else {
      RootConnected(g, comp, comp[x]);
      g.ConnectedTrans(x, comp[x], Root(comp, x));
    }
  }

  lemma JoinedConnected(g: Graph, comp: seq<nat>, x: nat, y: nat)
    requires WithinComponents(g, comp) && Joined(comp, x, y)
    ensures g.Connected(x, y)
  {
    RootConnected(g, comp, x);
    RootConnected(g, comp, y);
    g.ConnectedSym(y, Root(comp, y));
    g.ConnectedTrans(x, Root(comp, x), y);
  }

  lemma {:induction false} WalkJoined(g: Graph, comp: seq<nat>, p: seq<nat>)
    requires IsForest(comp) && |comp| == g.N() && AllEdgesJoined(g, comp) && g.Walk(p)
    ensures Joined(comp, p[0], p[|p| - 1])
  {
    if |p| > 1 {
      var q := p[..|p| - 1];
      forall i | 0 <= i < |q| - 1
        ensures g.Adjacent(q[i], q[i + 1])
      {
        assert g.Adjacent(p[i], p[i + 1]);
      }
      WalkJoined(g, comp, q);
      assert g.Adjacent(p[|p| - 2], p[|p| - 2 + 1]);
    }
  }

  /** A forest that joins every edge and nothing more labels each vertex, once flattened,
      with the smallest id of its component. */
  lemma RootIsSmallest(g: Graph, comp: seq<nat>, v: nat)
    requires WithinComponents(g, comp) && AllEdgesJoined(g, comp) && v < |comp|
    ensures g.SmallestInComponent(v, Root(comp, v))
  {
    RootConnected(g, comp, v);
    forall w | g.Connected(v, w)
      ensures Root(comp, v) <= w
    {
      var p :| g.WalkBetween(p, v, w);
      WalkJoined(g, comp, p);
    }
  }

  lemma StarsLabel(g: Graph, comp: seq<nat>)
    requires WithinComponents(g, comp) && AllEdgesJoined(g, comp) && Stars(comp)
    ensures LabelsComponents(g, comp)
  {
    forall v | 0 <= v < |comp|
      ensures g.SmallestInComponent(v, comp[v])
    {
      RootIsSmallest(g, comp, v);
      StarRoot(comp, v);
    }
  }

  lemma StarRoot(comp: seq<nat>, x: nat)
    requires Stars(comp) && x < |comp|
    ensures Root(comp, x) == comp[x]
  {
    assert comp[comp[x]] == comp[x];
  }

  lemma EqualLabelsJoin(g: Graph, s0: seq<nat>)
    requires g.Valid() && Stars(s0) && |s0| == g.N()
    requires forall u, k :: 0 <= u < g.N() && 0 <= k < |g.out[u]| ==> s0[u] == s0[g.out[u][k]]
    ensures AllEdgesJoined(g, s0)
  {
    forall u: nat, v: nat | g.Adjacent(u, v)
      ensures Joined(s0, u, v)
    {
      StarRoot(s0, u);
      StarRoot(s0, v);
    }
  }

  /** There is only one such array, so any two kernels that meet the description agree. */
  lemma LabelsUnique(g: Graph, a: seq<nat>, b: seq<nat>)
    requires LabelsComponents(g, a) && LabelsComponents(g, b)
    ensures a == b
  {
    forall v | 0 <= v < |a|
      ensures a[v] == b[v]
    {
      assert g.SmallestInComponent(v, a[v]) && g.SmallestInComponent(v, b[v]);
    }
  }

  // ---- progress measure ----

  ghost predicate Below(s0: seq<nat>, comp: seq<nat>) {
    |comp| == |s0| && forall x :: 0 <= x < |s0| ==> comp[x] <= s0[x]
  }

  ghost predicate Fell(s0: seq<nat>, comp: seq<nat>) {
    |comp| == |s0| && exists x :: 0 <= x < |s0| && comp[x] < s0[x]
  }

  lemma {:induction false} SumBelow(s0: seq<nat>, comp: seq<nat>)
    requires Below(s0, comp)
    ensures Sum(comp) <= Sum(s0) && (Fell(s0, comp) ==> Sum(comp) < Sum(s0))
  {
    if s0 != [] {
      assert Below(s0[1..], comp[1..]);
      SumBelow(s0[1..], comp[1..]);
      if Fell(s0, comp) && comp[0] == s0[0] {
        var x :| 0 <= x < |s0| && comp[x] < s0[x];
        assert comp[1..][x - 1] < s0[1..][x - 1];
      }
    }
  }

  lemma StarsFixed(before: seq<nat>, after: seq<nat>)
    requires Stars(before) && |after| == |before|
    requires forall x :: 0 <= x < |after| ==> after[x] == Root(before, x)
    ensures after == before
  {
    forall x | 0 <= x < |after|
      ensures after[x] == before[x]
    {
      StarRoot(before, x);
    }
  }
}
