/**
 * Triangles of a simple undirected graph: the ordered triples a counter visits, the triangles
 * themselves, and why neither counting all orders nor renaming vertices changes their number.
 */
module TriangleSpec {
  import opened Sorting

  /** Neighbour lists of a simple undirected graph: ascending, without self-loops, symmetric. */
  ghost predicate Simple(g: seq<seq<nat>>) {
    && (forall u: nat :: u < |g| ==> StrictlySorted(g[u], NatLess) && u !in g[u])
    && (forall u: nat, v: nat :: u < |g| && v in g[u] ==> Returns(g, u, v))
  }

  ghost predicate Returns(g: seq<seq<nat>>, u: nat, v: nat) { v < |g| && u in g[v] }

  ghost predicate Adj(g: seq<seq<nat>>, u: nat, v: nat) {
    u < |g| && v < |g| && v in g[u]
  }

  datatype Triple = Triple(a: nat, b: nat, c: nat)

  /** Three pairwise adjacent vertices, in any order. */
  ghost predicate Closed(g: seq<seq<nat>>, t: Triple) {
    Adj(g, t.a, t.b) && Adj(g, t.a, t.c) && Adj(g, t.b, t.c)
  }

  ghost predicate Descending(t: Triple) { t.a > t.b > t.c }

  ghost function AllTriples(n: nat): (s: set<Triple>)
    ensures forall t: Triple :: t in s <==> t.a < n && t.b < n && t.c < n
  {
    set a: nat, b: nat, c: nat | a < n && b < n && c < n :: Triple(a, b, c)
  }

  ghost function ClosedTriples(g: seq<seq<nat>>): (s: set<Triple>)
    ensures forall t: Triple :: t in s <==> Closed(g, t)
  {
    set t | t in AllTriples(|g|) && Closed(g, t)
  }

  /** One descending triple for each triangle. */
  ghost function Triangles(g: seq<seq<nat>>): (s: set<Triple>)
    ensures forall t: Triple :: t in s <==> Closed(g, t) && Descending(t)
  {
    set t | t in ClosedTriples(g) && Descending(t)
  }

  // ---- sets of the same size ----

  ghost predicate Into<T(!new)>(s: set<T>, t: set<T>, f: T -> T, back: T -> T) {
    forall x :: x in s ==> f(x) in t && back(f(x)) == x
  }

  lemma {:induction false} SameSize<T(!new)>(s: set<T>, t: set<T>, f: T -> T, back: T -> T)
    requires Into(s, t, f, back) && Into(t, s, back, f)
    ensures |s| == |t|
  {
    if s == {} {
      assert t == {};
    } else {
      var x :| x in s;
      forall y | y in t - {f(x)}
        ensures back(y) in s - {x} && f(back(y)) == y
      {
        assert back(y) in s && f(back(y)) == y;
      }
      forall z | z in s - {x}
        ensures f(z) in t - {f(x)} && back(f(z)) == z
      {
        assert f(z) in t && back(f(z)) == z && back(f(x)) == x;
      }
      SameSize(s - {x}, t - {f(x)}, f, back);
    }
  }

  // ---- every triangle has six orders ----

  function Rearrange(i: nat, t: Triple): Triple {
    match i
    case 0 => t
    case 1 => Triple(t.a, t.c, t.b)
    case 2 => Triple(t.b, t.a, t.c)
    case 3 => Triple(t.b, t.c, t.a)
    case 4 => Triple(t.c, t.a, t.b)
    case _ => Triple(t.c, t.b, t.a)
  }

  /** The inverse of each rearrangement. */
  function Inverse(i: nat): nat {
    if i == 3 then 4 else if i == 4 then 3 else i
  }

  /** Which rearrangement puts a triple in descending order. */
  ghost function Order(t: Triple): nat {
    if Descending(t) then 0
    else if Descending(Rearrange(1, t)) then 1
    else if Descending(Rearrange(2, t)) then 2
    else if Descending(Rearrange(3, t)) then 3
    else if Descending(Rearrange(4, t)) then 4
    else 5
  }

  lemma OrderIs(g: seq<seq<nat>>, t: Triple, i: nat)
    requires Simple(g) && i < 6 && Closed(g, t)
    ensures Closed(g, Rearrange(i, t))
    ensures Order(t) == i <==> Descending(Rearrange(i, t))
    ensures Rearrange(Inverse(i), Rearrange(i, t)) == t && Rearrange(i, Rearrange(Inverse(i), t)) == t
  {
  }

  ghost function WithOrder(g: seq<seq<nat>>, i: nat): set<Triple> {
    set t | t in ClosedTriples(g) && Order(t) == i
  }

  lemma OrderSize(g: seq<seq<nat>>, i: nat)
    requires Simple(g) && i < 6
    ensures |WithOrder(g, i)| == |Triangles(g)|
  {
    var f, back := t => Rearrange(i, t), t => Rearrange(Inverse(i), t);
    forall t | t in WithOrder(g, i)
      ensures f(t) in Triangles(g) && back(f(t)) == t
    {
      OrderIs(g, t, i);
    }
    forall t | t in Triangles(g)
      ensures back(t) in WithOrder(g, i) && f(back(t)) == t
    {
      OrderIs(g, t, Inverse(i));
      OrderIs(g, back(t), i);
    }
    SameSize(WithOrder(g, i), Triangles(g), f, back);
  }

  ghost function OrderBelow(g: seq<seq<nat>>, i: nat): set<Triple> {
    set t | t in ClosedTriples(g) && Order(t) < i
  }

  lemma OrderStep(g: seq<seq<nat>>, i: nat)
    requires Simple(g) && i < 6
    ensures |OrderBelow(g, i + 1)| == |OrderBelow(g, i)| + |Triangles(g)|
  {
    OrderSize(g, i);
    assert OrderBelow(g, i + 1) == OrderBelow(g, i) + WithOrder(g, i);
    assert OrderBelow(g, i) !! WithOrder(g, i);
  }

  lemma {:induction false} OrderBelowSize(g: seq<seq<nat>>, i: nat, n: nat)
    requires Simple(g) && i <= 6 && n == |Triangles(g)|
    ensures |OrderBelow(g, i)| == i * n
  {
    if i == 0 {
      assert OrderBelow(g, 0) == {};
    } else {
      OrderBelowSize(g, i - 1, n);
      OrderStep(g, i - 1);
      assert i * n == (i - 1) * n + n;
    }
  }

  lemma AllOrdersBelowSix(g: seq<seq<nat>>)
    ensures OrderBelow(g, 6) == ClosedTriples(g)
  {
  }

  /** The closed triples are the triangles six times over. */
  lemma SixOrders(g: seq<seq<nat>>)
    requires Simple(g)
    ensures |ClosedTriples(g)| == 6 * |Triangles(g)|
  {
    OrderBelowSize(g, 6, |Triangles(g)|);
    AllOrdersBelowSix(g);
  }

  // ---- renaming the vertices ----

  ghost predicate Permutation(p: seq<nat>, q: seq<nat>) {
    && |p| == |q|
    && (forall u :: 0 <= u < |p| ==> p[u] < |p| && q[p[u]] == u)
    && (forall x :: 0 <= x < |q| ==> q[x] < |q| && p[q[x]] == x)
  }

  /** h is g with vertex u renamed to p[u]; its lists are ascending again. */
  ghost predicate Renamed(g: seq<seq<nat>>, h: seq<seq<nat>>, p: seq<nat>) {
    && |h| == |g| == |p|
    && (forall u :: 0 <= u < |p| ==> p[u] < |p|)
    && (forall u :: 0 <= u < |g| ==> RenamedList(g[u], h[p[u]], p))
  }

  ghost predicate RenamedList(list: seq<nat>, list': seq<nat>, p: seq<nat>) {
    StrictlySorted(list', NatLess) && forall x: nat :: x in list' <==> IsName(list, p, x)
  }

  ghost predicate IsName(list: seq<nat>, p: seq<nat>, x: nat) {
    exists v :: v in list && v < |p| && p[v] == x
  }

  lemma RenamedAdj(g: seq<seq<nat>>, h: seq<seq<nat>>, p: seq<nat>, q: seq<nat>, u: nat, v: nat)
    requires Simple(g) && Permutation(p, q) && Renamed(g, h, p) && u < |g| && v < |g|
    ensures Adj(h, p[u], p[v]) <==> Adj(g, u, v)
  {
    assert RenamedList(g[u], h[p[u]], p);
    if Adj(g, u, v) {
      assert IsName(g[u], p, p[v]);
    }
    if Adj(h, p[u], p[v]) {
      var w :| w in g[u] && w < |p| && p[w] == p[v];
      assert q[p[w]] == w && q[p[v]] == v;
    }
  }

  ghost function Rename(p: seq<nat>, t: Triple): Triple {
    if t.a < |p| && t.b < |p| && t.c < |p| then Triple(p[t.a], p[t.b], p[t.c]) else t
  }

  lemma RenamedSize(g: seq<seq<nat>>, h: seq<seq<nat>>, p: seq<nat>, q: seq<nat>)
    requires Simple(g) && Permutation(p, q) && Renamed(g, h, p)
    ensures |ClosedTriples(g)| == |ClosedTriples(h)|
  {
    var f, back := t => Rename(p, t), t => Rename(q, t);
    forall t | t in ClosedTriples(g)
      ensures f(t) in ClosedTriples(h) && back(f(t)) == t
    {
      RenamedAdj(g, h, p, q, t.a, t.b);
      RenamedAdj(g, h, p, q, t.a, t.c);
      RenamedAdj(g, h, p, q, t.b, t.c);
    }
    forall t | t in ClosedTriples(h)
      ensures back(t) in ClosedTriples(g) && f(back(t)) == t
    {
      RenamedAdj(g, h, p, q, q[t.a], q[t.b]);
      RenamedAdj(g, h, p, q, q[t.a], q[t.c]);
      RenamedAdj(g, h, p, q, q[t.b], q[t.c]);
    }
    SameSize(ClosedTriples(g), ClosedTriples(h), f, back);
  }

  lemma RenamedNeighbour(g: seq<seq<nat>>, h: seq<seq<nat>>, p: seq<nat>, q: seq<nat>, x: nat, y: nat)
    requires Simple(g) && Permutation(p, q) && Renamed(g, h, p) && x < |h| && y in h[x]
    ensures Returns(h, x, y) && x != y
  {
    var u := q[x];
    assert p[u] == x && RenamedList(g[u], h[p[u]], p) && IsName(g[u], p, y);
    var v :| v in g[u] && v < |p| && p[v] == y;
    assert Returns(g, u, v) && RenamedList(g[v], h[p[v]], p);
    assert IsName(g[v], p, p[u]);
    assert q[p[u]] == u && q[p[v]] == v;
  }

  lemma RenamedSimple(g: seq<seq<nat>>, h: seq<seq<nat>>, p: seq<nat>, q: seq<nat>)
    requires Simple(g) && Permutation(p, q) && Renamed(g, h, p)
    ensures Simple(h)
  {
    forall u: nat, v: nat | u < |h| && v in h[u]
      ensures Returns(h, u, v)
    {
      RenamedNeighbour(g, h, p, q, u, v);
    }
    forall u: nat | u < |h|
      ensures StrictlySorted(h[u], NatLess) && u !in h[u]
    {
      assert p[q[u]] == u && RenamedList(g[q[u]], h[p[q[u]]], p);
      if u in h[u] {
        RenamedNeighbour(g, h, p, q, u, u);
      }
    }
  }

  /** Renaming the vertices keeps the number of triangles. */
  lemma RenamedTriangles(g: seq<seq<nat>>, h: seq<seq<nat>>, p: seq<nat>, q: seq<nat>)
    requires Simple(g) && Permutation(p, q) && Renamed(g, h, p)
    ensures Simple(h) && |Triangles(h)| == |Triangles(g)|
  {
    RenamedSimple(g, h, p, q);
    RenamedSize(g, h, p, q);
    SixOrders(g);
    SixOrders(h);
  }
}
