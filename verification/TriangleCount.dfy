/** Triangle counting: the ordered merge, the serial checker, and the relabelling beforehand. */
module TriangleCount {
  import opened Sorting
  import opened TriangleSpec

  // ---- the set of triangles the loops have counted so far ----

  /** Triangles with greatest vertex u and middle vertex v whose least vertex is among list. */
  ghost function WithLeast(g: seq<seq<nat>>, u: nat, v: nat, list: seq<nat>): set<Triple> {
    set t | t in Triangles(g) && t.a == u && t.b == v && t.c in list
  }

  ghost function WithMiddle(g: seq<seq<nat>>, u: nat, list: seq<nat>): set<Triple> {
    set t | t in Triangles(g) && t.a == u && t.b in list
  }

  ghost function WithGreatestBelow(g: seq<seq<nat>>, u: nat): set<Triple> {
    set t | t in Triangles(g) && t.a < u
  }

  lemma LeastNext(g: seq<seq<nat>>, u: nat, v: nat, l: nat)
    requires Simple(g) && v < |g| && l < |g[v]|
    ensures var w, t := g[v][l], Triple(u, v, g[v][l]);
            |WithLeast(g, u, v, g[v][..l + 1])| == |WithLeast(g, u, v, g[v][..l])| + if t in Triangles(g) then 1 else 0
  {
    var t := Triple(u, v, g[v][l]);
    assert g[v][..l + 1] == g[v][..l] + [g[v][l]];
    assert g[v][l] !in g[v][..l];
    if t in Triangles(g) {
      assert WithLeast(g, u, v, g[v][..l + 1]) == WithLeast(g, u, v, g[v][..l]) + {t};
    } else {
      assert WithLeast(g, u, v, g[v][..l + 1]) == WithLeast(g, u, v, g[v][..l]);
    }
  }

  /** Neighbours above v are never the least vertex, so the scan of v's list may stop there. */
  lemma LeastDone(g: seq<seq<nat>>, u: nat, v: nat, l: nat)
    requires Simple(g) && v < |g| && l <= |g[v]| && (l < |g[v]| ==> g[v][l] > v)
    ensures WithLeast(g, u, v, g[v][..l]) == WithMiddle(g, u, [v])
  {
    forall t | t in WithMiddle(g, u, [v])
      ensures t.c in g[v][..l]
    {
      var i :| 0 <= i < |g[v]| && g[v][i] == t.c;
      assert g[v][..l][i] == t.c;
    }
  }

  lemma MiddleNext(g: seq<seq<nat>>, u: nat, k: nat)
    requires Simple(g) && u < |g| && k < |g[u]|
    ensures |WithMiddle(g, u, g[u][..k + 1])| == |WithMiddle(g, u, g[u][..k])| + |WithMiddle(g, u, [g[u][k]])|
  {
    assert g[u][..k + 1] == g[u][..k] + [g[u][k]];
    assert g[u][k] !in g[u][..k];
    assert WithMiddle(g, u, g[u][..k + 1]) == WithMiddle(g, u, g[u][..k]) + WithMiddle(g, u, [g[u][k]]);
    assert WithMiddle(g, u, g[u][..k]) !! WithMiddle(g, u, [g[u][k]]);
  }

  lemma MiddleDone(g: seq<seq<nat>>, u: nat, k: nat)
    requires Simple(g) && u < |g| && k <= |g[u]| && (k < |g[u]| ==> g[u][k] > u)
    ensures |WithGreatestBelow(g, u + 1)| == |WithGreatestBelow(g, u)| + |WithMiddle(g, u, g[u][..k])|
  {
    forall t | t in Triangles(g) && t.a == u
      ensures t.b in g[u][..k]
    {
      var i :| 0 <= i < |g[u]| && g[u][i] == t.b;
      assert g[u][..k][i] == t.b;
    }
    assert WithGreatestBelow(g, u + 1) == WithGreatestBelow(g, u) + WithMiddle(g, u, g[u][..k]);
    assert WithGreatestBelow(g, u) !! WithMiddle(g, u, g[u][..k]);
  }

  // ---- the ordered count ----

  /**
   * The inner merge for one edge u, v with v below u.  The pointer into u's list needs no end
   * check: it stops at v at the latest.
   */
  method CountForEdge(g: seq<seq<nat>>, u: nat, k: nat) returns (count: nat)
    requires Simple(g) && u < |g| && k < |g[u]| && g[u][k] <= u
    ensures count == |WithMiddle(g, u, [g[u][k]])|
  {
    var v := g[u][k];
    assert v < |g|;
    count := 0;
    var it, l := 0, 0;
    assert WithLeast(g, u, v, g[v][..0]) == {};
    while l < |g[v]| && g[v][l] <= v
      invariant l <= |g[v]| && it <= k
      invariant forall i :: 0 <= i < it && l < |g[v]| ==> g[u][i] < g[v][l]
      invariant count == |WithLeast(g, u, v, g[v][..l])|
    {
      var w := g[v][l];
      while g[u][it] < w
        invariant it <= k && forall i :: 0 <= i < it ==> g[u][i] < w
        decreases k - it
      {
        it := it + 1;
      }
      LeastNext(g, u, v, l);
      MergeFinds(g, u, k, it, l);
      if w == g[u][it] {
        count := count + 1;
      }
      assert l + 1 < |g[v]| ==> NatLess(g[v][l], g[v][l + 1]);
      l := l + 1;
    }
    LeastDone(g, u, v, l);
  }

  /** Where the pointer stops decides membership. */
  lemma MergeFinds(g: seq<seq<nat>>, u: nat, k: nat, it: nat, l: nat)
    requires Simple(g) && u < |g| && k < |g[u]| && g[u][k] <= u && it <= k
    requires var v := g[u][k]; v < |g| && l < |g[v]| && g[v][l] <= v
    requires g[u][it] >= g[g[u][k]][l] && forall i :: 0 <= i < it ==> g[u][i] < g[g[u][k]][l]
    ensures Triple(u, g[u][k], g[g[u][k]][l]) in Triangles(g) <==> g[u][it] == g[g[u][k]][l]
  {
    var v := g[u][k];
    var w := g[v][l];
    if w in g[u] {
      var i :| 0 <= i < |g[u]| && g[u][i] == w;
    }
    assert v in g[u] && w in g[v];
    assert v != u && w != v;
  }

  method OrderedCount(g: seq<seq<nat>>) returns (total: nat)
    requires Simple(g)
    ensures total == |Triangles(g)|
  {
    total := 0;
    assert WithGreatestBelow(g, 0) == {};
    for u := 0 to |g|
      invariant total == |WithGreatestBelow(g, u)|
    {
      total := CountForVertex(g, u, total);
    }
    assert WithGreatestBelow(g, |g|) == Triangles(g);
  }

  /** The triangles whose greatest vertex is u are added. */
  method CountForVertex(g: seq<seq<nat>>, u: nat, before: nat) returns (total: nat)
    requires Simple(g) && u < |g| && before == |WithGreatestBelow(g, u)|
    ensures total == |WithGreatestBelow(g, u + 1)|
  {
    total := before;
    var k := 0;
    NoMiddle(g, u);
    hide WithMiddle, WithGreatestBelow, MiddleCount;
    while k < |g[u]| && g[u][k] <= u
      invariant k <= |g[u]| && total == before + MiddleCount(g, u, k)
    {
      var c := CountForEdge(g, u, k);
      OneMoreMiddle(g, u, k);
      total := total + c;
      k := k + 1;
    }
    AllMiddle(g, u, k);
  }

  /** The triangles with greatest vertex u whose middle vertex is among the first k neighbours of u. */
  ghost function MiddleCount(g: seq<seq<nat>>, u: nat, k: nat): nat
    requires u < |g| && k <= |g[u]|
  {
    |WithMiddle(g, u, g[u][..k])|
  }

  lemma NoMiddle(g: seq<seq<nat>>, u: nat)
    requires u < |g|
    ensures MiddleCount(g, u, 0) == 0
  {
    assert WithMiddle(g, u, g[u][..0]) == {};
  }

  lemma OneMoreMiddle(g: seq<seq<nat>>, u: nat, k: nat)
    requires Simple(g) && u < |g| && k < |g[u]|
    ensures MiddleCount(g, u, k + 1) == MiddleCount(g, u, k) + |WithMiddle(g, u, [g[u][k]])|
  {
    MiddleNext(g, u, k);
  }

  lemma AllMiddle(g: seq<seq<nat>>, u: nat, k: nat)
    requires Simple(g) && u < |g| && k <= |g[u]| && (k < |g[u]| ==> g[u][k] > u)
    ensures |WithGreatestBelow(g, u + 1)| == |WithGreatestBelow(g, u)| + MiddleCount(g, u, k)
  {
    MiddleDone(g, u, k);
  }

  // ---- the serial checker ----

  ghost function ClosedFrom(g: seq<seq<nat>>, u: nat, list: seq<nat>): set<Triple> {
    set t | t in ClosedTriples(g) && t.a == u && t.b in list
  }

  ghost function ClosedBelow(g: seq<seq<nat>>, u: nat): set<Triple> {
    set t | t in ClosedTriples(g) && t.a < u
  }

  /** Common elements of two ascending lists, as set_intersection writes them. */
  method SetIntersection(a: seq<nat>, b: seq<nat>) returns (r: seq<nat>)
    requires StrictlySorted(a, NatLess) && StrictlySorted(b, NatLess)
    ensures StrictlySorted(r, NatLess)
    ensures forall x: nat :: x in r <==> x in a && x in b
  {
    r := [];
    var i, j := 0, 0;
    while i < |a| && j < |b|
      invariant i <= |a| && j <= |b| && StrictlySorted(r, NatLess)
      invariant Above(r, a, i) && Above(r, b, j)
      invariant forall x: nat :: x in a && x in b <==> x in r || (x in a[i..] && x in b[j..])
    {
      assert a[i..] == [a[i]] + a[i + 1..] && b[j..] == [b[j]] + b[j + 1..];
      if a[i] < b[j] {
        SmallestOut(a[i], b, j);
        i := i + 1;
      } else if b[j] < a[i] {
        SmallestOut(b[j], a, i);
        j := j + 1;
      } else {
        assert forall k :: 0 <= k < |r| ==> r[k] in r && NatLess(r[k], a[i]);
        r := r + [a[i]];
        i, j := i + 1, j + 1;
      }
    }
  }

  /** Everything in r is below what is left of the list. */
  ghost predicate Above(r: seq<nat>, list: seq<nat>, i: nat) {
    forall x, k :: x in r && i <= k < |list| ==> x < list[k]
  }

  lemma SmallestOut(x: nat, list: seq<nat>, j: nat)
    requires StrictlySorted(list, NatLess) && j < |list| && x < list[j]
    ensures x !in list[j..]
  {
    forall k | j <= k < |list|
      ensures list[k] != x
    {
      if j < k {
        assert NatLess(list[j], list[k]);
      }
    }
  }

  /** The closed triples at u, v are as many as the lists' common elements. */
  lemma {:induction false} CommonCount(g: seq<seq<nat>>, u: nat, v: nat, r: seq<nat>)
    requires StrictlySorted(r, NatLess) && forall x :: x in r ==> Closed(g, Triple(u, v, x))
    ensures |ClosedAmong(g, u, v, r)| == |r|
  {
    if r == [] {
      assert ClosedAmong(g, u, v, r) == {};
    } else {
      var k := |r| - 1;
      assert r == r[..k] + [r[k]];
      CommonCount(g, u, v, r[..k]);
      assert r[k] !in r[..k];
      assert Triple(u, v, r[k]) in ClosedTriples(g);
      hide ClosedTriples, Closed, StrictlySorted;
      assert ClosedAmong(g, u, v, r) == ClosedAmong(g, u, v, r[..k]) + {Triple(u, v, r[k])};
    }
  }

  ghost function ClosedAmong(g: seq<seq<nat>>, u: nat, v: nat, r: seq<nat>): set<Triple> {
    set t | t in ClosedTriples(g) && t.a == u && t.b == v && t.c in r
  }

  lemma ClosedNext(g: seq<seq<nat>>, u: nat, k: nat, r: seq<nat>)
    requires Simple(g) && u < |g| && k < |g[u]| && StrictlySorted(r, NatLess)
    requires g[u][k] < |g| && forall x: nat :: x in r <==> x in g[u] && x in g[g[u][k]]
    ensures |ClosedFrom(g, u, g[u][..k + 1])| == |ClosedFrom(g, u, g[u][..k])| + |r|
  {
    var v := g[u][k];
    forall x | x in r
      ensures Closed(g, Triple(u, v, x))
    {
      assert Returns(g, u, x);
    }
    CommonCount(g, u, v, r);
    assert g[u][..k + 1] == g[u][..k] + [v];
    assert v !in g[u][..k];
    assert ClosedFrom(g, u, g[u][..k + 1]) == ClosedFrom(g, u, g[u][..k]) + ClosedAmong(g, u, v, r);
    assert ClosedFrom(g, u, g[u][..k]) !! ClosedAmong(g, u, v, r);
  }

  lemma ClosedRow(g: seq<seq<nat>>, u: nat)
    requires u < |g|
    ensures |ClosedBelow(g, u + 1)| == |ClosedBelow(g, u)| + |ClosedFrom(g, u, g[u][..|g[u]|])|
  {
    assert g[u][..|g[u]|] == g[u];
    assert ClosedBelow(g, u + 1) == ClosedBelow(g, u) + ClosedFrom(g, u, g[u]);
    assert ClosedBelow(g, u) !! ClosedFrom(g, u, g[u]);
  }

  /** The checker's sum of intersections is six times the count, with no remainder. */
  method TCVerifier(g: seq<seq<nat>>, testTotal: nat) returns (ok: bool)
    requires Simple(g)
    ensures ok <==> testTotal == |Triangles(g)|
  {
    var total := 0;
    assert ClosedBelow(g, 0) == {};
    for u := 0 to |g|
      invariant total == |ClosedBelow(g, u)|
    {
      assert ClosedFrom(g, u, g[u][..0]) == {};
      for k := 0 to |g[u]|
        invariant total == |ClosedBelow(g, u)| + |ClosedFrom(g, u, g[u][..k])|
      {
        assert Returns(g, u, g[u][k]);
        var intersection := SetIntersection(g[u], g[g[u][k]]);
        ClosedNext(g, u, k, intersection);
        total := total + |intersection|;
      }
      ClosedRow(g, u);
    }
    assert ClosedBelow(g, |g|) == ClosedTriples(g);
    SixOrders(g);
    assert total % 6 == 0;
    total := total / 6;
    ok := total == testTotal;
  }
}
