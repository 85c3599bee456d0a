/**
 * Delta-stepping with lazy bins and bucket fusion, and the serial oracle it is compared with.
 */
module DeltaStepping {
  import opened Basics
  import opened ShortestPaths
  import opened Arith

  type Bins = seq<seq<nat>>

  /** The bin of a distance: BinIsQuotient says it is the quotient by the bin width. */
  ghost function Bin(d: nat, delta: nat): (b: nat)
    requires delta > 0
    decreases d
  {
    if d < delta then 0 else 1 + Bin(d - delta, delta)
  }

  lemma {:induction false} BinIsQuotient(d: nat, delta: nat)
    requires delta > 0
    ensures Bin(d, delta) == d / delta
    decreases d
  {
    if d < delta {
      DivMod(d, delta, 0, d);
    } else {
      BinIsQuotient(d - delta, delta);
      assert d == delta * ((d - delta) / delta + 1) + (d - delta) % delta;
      DivMod(d, delta, (d - delta) / delta + 1, (d - delta) % delta);
    }
  }

  lemma {:induction false} BinMono(a: nat, b: nat, delta: nat)
    requires delta > 0 && a <= b
    ensures Bin(a, delta) <= Bin(b, delta)
    decreases b
  {
    if b >= delta && a >= delta {
      BinMono(a - delta, b - delta, delta);
    }
  }

  /** The filter on frontier entries compares bins. */
  lemma {:induction false} BinFilter(d: nat, delta: nat, curr: nat)
    requires delta > 0
    ensures d >= delta * curr <==> Bin(d, delta) >= curr
    decreases d
  {
    if curr > 0 {
      assert delta * curr == delta * (curr - 1) + delta;
      if d < delta {
        assert delta * curr >= delta;
      } else {
        BinFilter(d - delta, delta, curr - 1);
      }
    }
  }

  // ---- relaxing on values ----

  ghost predicate Has(bins: Bins, i: nat, x: nat) { i < |bins| && x in bins[i] }

  function Resize(bins: Bins, size: nat): (r: Bins)
    ensures |r| == (if size <= |bins| then |bins| else size)
    ensures forall i :: 0 <= i < |r| ==> r[i] == if i < |bins| then bins[i] else []
  {
    if size <= |bins| then bins else bins + seq(size - |bins|, i => [])
  }

  function Push(bins: Bins, dest: nat, v: nat): (r: Bins)
    ensures |r| > dest && |r| >= |bins|
  {
    var b := Resize(bins, dest + 1);
    b[dest := b[dest] + [v]]
  }

  /** Pushing adds one entry, growing the bins if needed, and removes none. */
  lemma PushHas(bins: Bins, dest: nat, v: nat, i: nat, x: nat)
    ensures Has(Push(bins, dest, v), i, x) <==> Has(bins, i, x) || (i == dest && x == v)
  {
    var b := Resize(bins, dest + 1);
    assert v in b[dest] + [v] by { assert (b[dest] + [v])[|b[dest]|] == v; }
    assert Push(bins, dest, v)[dest] == b[dest] + [v];
    assert forall j :: 0 <= j < |b| && j != dest ==> Push(bins, dest, v)[j] == b[j];
    assert x in b[dest] + [v] <==> x in b[dest] || x == v;
  }

  datatype Relaxed = Relaxed(dist: seq<nat>, bins: Bins)

  /** Distances and bins after relaxing one edge of u. */
  ghost function RelaxEdge(r: Relaxed, u: nat, e: WNode, delta: nat): (r': Relaxed)
    requires u < |r.dist| && e.v < |r.dist| && delta > 0
    ensures |r'.dist| == |r.dist|
  {
    var d := r.dist[u] + e.w;
    if d < r.dist[e.v] then Relaxed(r.dist[e.v := d], Push(r.bins, Bin(d, delta), e.v)) else r
  }

  /** ... and after relaxing the first k edges of u. */
  ghost function RelaxFirst(g: WGraph, u: nat, k: nat, delta: nat, r: Relaxed): (r': Relaxed)
    requires ValidGraph(g) && |r.dist| == |g| && u < |g| && k <= |g[u]| && delta > 0
    ensures |r'.dist| == |r.dist|
  {
    if k == 0 then r else RelaxEdge(RelaxFirst(g, u, k - 1, delta, r), u, g[u][k - 1], delta)
  }

  /** Everything a relaxation of u promises to the loops around it. */
  ghost predicate Improves(delta: nat, u: nat, r: Relaxed, r': Relaxed)
    requires delta > 0 && u < |r.dist|
  {
    && |r'.dist| == |r.dist| && |r'.bins| >= |r.bins|
    && r'.dist[u] == r.dist[u]
    && (forall x :: 0 <= x < |r.dist| ==> r'.dist[x] <= r.dist[x])
    && (forall x :: 0 <= x < |r.dist| && r'.dist[x] < r.dist[x] ==> Has(r'.bins, Bin(r'.dist[x], delta), x))
    && (forall i: nat, x: nat :: Has(r.bins, i, x) ==> Has(r'.bins, i, x))
    && (forall i: nat, x: nat :: Has(r'.bins, i, x) ==>
          Has(r.bins, i, x) || (i >= Bin(r.dist[u], delta) && x < |r.dist|))
    && (r' == r || Sum(r'.dist) < Sum(r.dist))
  }

  lemma EdgeImproves(delta: nat, u: nat, e: WNode, r: Relaxed)
    requires delta > 0 && u < |r.dist| && e.v < |r.dist|
    ensures Improves(delta, u, r, RelaxEdge(r, u, e, delta))
  {
    hide Push, Has, Bin, Sum;
    var d := r.dist[u] + e.w;
    if d < r.dist[e.v] {
      BinMono(r.dist[u], d, delta);
      SumLower(r.dist, e.v, d);
      forall i: nat, x: nat
        ensures Has(Push(r.bins, Bin(d, delta), e.v), i, x)
           <==> Has(r.bins, i, x) || (i == Bin(d, delta) && x == e.v)
      {
        PushHas(r.bins, Bin(d, delta), e.v, i, x);
      }
      PushImproves(delta, u, e.v, d, r, Push(r.bins, Bin(d, delta), e.v));
    }
  }

  lemma PushImproves(delta: nat, u: nat, v: nat, d: nat, r: Relaxed, b: Bins)
    requires delta > 0 && u < |r.dist| && v < |r.dist| && r.dist[u] <= d < r.dist[v] && |b| >= |r.bins|
    requires Bin(r.dist[u], delta) <= Bin(d, delta) && Sum(r.dist[v := d]) < Sum(r.dist)
    requires forall i: nat, x: nat :: Has(b, i, x) <==> Has(r.bins, i, x) || (i == Bin(d, delta) && x == v)
    ensures Improves(delta, u, r, Relaxed(r.dist[v := d], b))
  {
  }

  lemma ImprovesTrans(delta: nat, u: nat, r: Relaxed, r': Relaxed, r'': Relaxed)
    requires delta > 0 && u < |r.dist| && Improves(delta, u, r, r') && Improves(delta, u, r', r'')
    ensures Improves(delta, u, r, r'')
  {
    forall x | 0 <= x < |r.dist| && r''.dist[x] < r.dist[x]
      ensures Has(r''.bins, Bin(r''.dist[x], delta), x)
    {
      if r''.dist[x] == r'.dist[x] {
        assert Has(r'.bins, Bin(r'.dist[x], delta), x);
      }
    }
  }

  lemma StepImproves(delta: nat, u: nat, e: WNode, r: Relaxed, prev: Relaxed)
    requires delta > 0 && u < |r.dist| && e.v < |r.dist| && Improves(delta, u, r, prev)
    ensures Improves(delta, u, r, RelaxEdge(prev, u, e, delta))
  {
    EdgeImproves(delta, u, e, prev);
    ImprovesTrans(delta, u, r, prev, RelaxEdge(prev, u, e, delta));
  }

  lemma {:induction false} RelaxImproves(g: WGraph, u: nat, k: nat, delta: nat, r: Relaxed)
    requires ValidGraph(g) && |r.dist| == |g| && u < |g| && k <= |g[u]| && delta > 0
    ensures Improves(delta, u, r, RelaxFirst(g, u, k, delta, r))
    decreases k
  {
    if k > 0 {
      RelaxImproves(g, u, k - 1, delta, r);
      StepImproves(delta, u, g[u][k - 1], r, RelaxFirst(g, u, k - 1, delta, r));
    }
  }

  lemma EdgeAttained(g: WGraph, s: nat, inf: nat, u: nat, k: nat, delta: nat, r: Relaxed)
    requires ValidGraph(g) && Attained(g, s, inf, r.dist) && u < |g| && k < |g[u]| && delta > 0
    ensures Attained(g, s, inf, RelaxEdge(r, u, g[u][k], delta).dist)
  {
    if r.dist[u] + g[u][k].w < r.dist[g[u][k].v] {
      AttainedLower(g, s, inf, r.dist, u, k);
    }
  }

  lemma {:induction false} RelaxAttained(g: WGraph, s: nat, inf: nat, u: nat, k: nat, delta: nat, r: Relaxed)
    requires ValidGraph(g) && |r.dist| == |g| && Attained(g, s, inf, r.dist) && u < |g| && k <= |g[u]| && delta > 0
    ensures Attained(g, s, inf, RelaxFirst(g, u, k, delta, r).dist)
    decreases k
  {
    hide Attained, RelaxEdge, ValidGraph;
    if k > 0 {
      RelaxAttained(g, s, inf, u, k - 1, delta, r);
      EdgeAttained(g, s, inf, u, k - 1, delta, RelaxFirst(g, u, k - 1, delta, r));
    }
  }

  ghost predicate Settled(g: WGraph, u: nat, k: nat, r: Relaxed)
    requires ValidGraph(g) && |r.dist| == |g| && u < |g| && k <= |g[u]|
  {
    forall j :: 0 <= j < k ==> r.dist[g[u][j].v] <= r.dist[u] + g[u][j].w
  }

  lemma StepSettles(g: WGraph, u: nat, k: nat, delta: nat, r: Relaxed)
    requires ValidGraph(g) && |r.dist| == |g| && u < |g| && k < |g[u]| && delta > 0
    requires Settled(g, u, k, r)
    ensures Settled(g, u, k + 1, RelaxEdge(r, u, g[u][k], delta))
  {
  }

  /** The edges already visited stay relaxed while the rest are processed. */
  lemma {:induction false} RelaxSettles(g: WGraph, u: nat, k: nat, delta: nat, r: Relaxed)
    requires ValidGraph(g) && |r.dist| == |g| && u < |g| && k <= |g[u]| && delta > 0
    ensures Settled(g, u, k, RelaxFirst(g, u, k, delta, r))
    decreases k
  {
    if k > 0 {
      RelaxSettles(g, u, k - 1, delta, r);
      StepSettles(g, u, k - 1, delta, RelaxFirst(g, u, k - 1, delta, r));
    }
  }

  lemma {:induction false} RelaxNothing(g: WGraph, u: nat, k: nat, delta: nat, r: Relaxed)
    requires ValidGraph(g) && |r.dist| == |g| && u < |g| && k <= |g[u]| && delta > 0
    requires !Relaxable(g, r.dist, u)
    ensures RelaxFirst(g, u, k, delta, r) == r
    decreases k
  {
    hide Push, Resize, Bin;
    if k > 0 {
      RelaxNothing(g, u, k - 1, delta, r);
      assert r.dist[u] + g[u][k - 1].w >= r.dist[g[u][k - 1].v];
    }
  }

  // ---- what the loops keep ----

  /** Every vertex with an unrelaxed edge waits in the bin of its current distance, or is one of
      the entries still to be taken from the current frontier or fused bin. */
  ghost predicate Waiting(g: WGraph, delta: nat, dist: seq<nat>, bins: Bins, rest: seq<nat>, curr: nat)
    requires ValidGraph(g) && |dist| == |g| && delta > 0
  {
    forall u: nat :: Relaxable(g, dist, u) ==>
                       Has(bins, Bin(dist[u], delta), u) || (u in rest && Bin(dist[u], delta) >= curr)
  }

  ghost predicate LowBinsEmpty(bins: Bins, curr: nat) {
    forall i: nat, x: nat :: Has(bins, i, x) ==> i >= curr
  }

  ghost predicate InRange(n: nat, bins: Bins, rest: seq<nat>) {
    && (forall i: nat, x: nat :: Has(bins, i, x) ==> x < n)
    && forall i :: 0 <= i < |rest| ==> rest[i] < n
  }

  ghost predicate Inv(g: WGraph, s: nat, inf: nat, delta: nat, dist: seq<nat>, bins: Bins, rest: seq<nat>, curr: nat) {
    && ValidGraph(g) && delta > 0 && Attained(g, s, inf, dist)
    && InRange(|g|, bins, rest)
    && Waiting(g, delta, dist, bins, rest, curr)
    && LowBinsEmpty(bins, curr)
  }

  /** An entry below the current bin is stale: its vertex has nothing left to relax. */
  lemma StaleIsSettled(g: WGraph, s: nat, inf: nat, delta: nat, dist: seq<nat>, bins: Bins, rest: seq<nat>, curr: nat, u: nat)
    requires Inv(g, s, inf, delta, dist, bins, rest, curr) && u < |g| && Bin(dist[u], delta) < curr
    ensures !Relaxable(g, dist, u)
  {
  }

  ghost function RelaxAll(g: WGraph, u: nat, delta: nat, dist: seq<nat>, bins: Bins): (r: Relaxed)
    requires ValidGraph(g) && |dist| == |g| && u < |g| && delta > 0
    ensures |r.dist| == |dist|
  {
    RelaxFirst(g, u, |g[u]|, delta, Relaxed(dist, bins))
  }

  /** Relaxing the next entry, stale or not, keeps the invariant without that entry. */
  lemma TakeEntry(g: WGraph, s: nat, inf: nat, delta: nat, dist: seq<nat>, bins: Bins, rest: seq<nat>, curr: nat)
    requires Inv(g, s, inf, delta, dist, bins, rest, curr) && rest != []
    ensures var r := RelaxAll(g, rest[0], delta, dist, bins);
            && Inv(g, s, inf, delta, r.dist, r.bins, rest[1..], curr)
            && (r == Relaxed(dist, bins) || Sum(r.dist) < Sum(dist))
  {
    var u := rest[0];
    var r0 := Relaxed(dist, bins);
    var r := RelaxAll(g, u, delta, dist, bins);
    RelaxImproves(g, u, |g[u]|, delta, r0);
    RelaxAttained(g, s, inf, u, |g[u]|, delta, r0);
    RelaxSettles(g, u, |g[u]|, delta, r0);
    if Bin(dist[u], delta) < curr {
      StaleIsSettled(g, s, inf, delta, dist, bins, rest, curr, u);
      RelaxNothing(g, u, |g[u]|, delta, r0);
    }
    TakeEntryWaiting(g, delta, rest, curr, r0, r);
    assert forall i :: 0 <= i < |rest[1..]| ==> rest[1..][i] == rest[i + 1];
  }

  lemma TakeEntryWaiting(g: WGraph, delta: nat, rest: seq<nat>, curr: nat, r: Relaxed, r': Relaxed)
    requires ValidGraph(g) && |r.dist| == |g| && delta > 0 && rest != [] && rest[0] < |g|
    requires Waiting(g, delta, r.dist, r.bins, rest, curr)
    requires Improves(delta, rest[0], r, r') && !Relaxable(g, r'.dist, rest[0])
    ensures Waiting(g, delta, r'.dist, r'.bins, rest[1..], curr)
  {
    forall x: nat | Relaxable(g, r'.dist, x)
      ensures Has(r'.bins, Bin(r'.dist[x], delta), x) || (x in rest[1..] && Bin(r'.dist[x], delta) >= curr)
    {
      if r'.dist[x] == r.dist[x] {
        var k :| 0 <= k < |g[x]| && r'.dist[x] + g[x][k].w < r'.dist[g[x][k].v];
        assert r.dist[x] + g[x][k].w < r.dist[g[x][k].v];
        assert x in rest ==> x == rest[0] || x in rest[1..];
      }
    }
  }

  /** A frontier entry below the current bin may also be dropped unrelaxed. */
  lemma SkipEntry(g: WGraph, s: nat, inf: nat, delta: nat, dist: seq<nat>, bins: Bins, rest: seq<nat>, curr: nat)
    requires Inv(g, s, inf, delta, dist, bins, rest, curr) && rest != [] && Bin(dist[rest[0]], delta) < curr
    ensures Inv(g, s, inf, delta, dist, bins, rest[1..], curr)
  {
    forall x: nat | Relaxable(g, dist, x)
      ensures Has(bins, Bin(dist[x], delta), x) || (x in rest[1..] && Bin(dist[x], delta) >= curr)
    {
      assert x in rest ==> x == rest[0] || x in rest[1..];
    }
  }

  ghost function Entries(bins: Bins): nat {
    if bins == [] then 0 else |bins[0]| + Entries(bins[1..])
  }

  lemma {:induction false} EmptyingBin(bins: Bins, i: nat)
    requires i < |bins|
    ensures Entries(bins[i := []]) == Entries(bins) - |bins[i]|
  {
    if i == 0 {
      assert bins[i := []][1..] == bins[1..];
    } else {
      assert bins[i := []][1..] == bins[1..][i - 1 := []];
      EmptyingBin(bins[1..], i - 1);
    }
  }

  /** Taking a whole bin as the next work list, when all bins below it are empty. */
  lemma TakeBin(g: WGraph, s: nat, inf: nat, delta: nat, dist: seq<nat>, bins: Bins, curr: nat, next: nat)
    requires Inv(g, s, inf, delta, dist, bins, [], curr) && next < |bins| && LowBinsEmpty(bins, next)
    ensures Inv(g, s, inf, delta, dist, bins[next := []], bins[next], next)
    ensures Entries(bins[next := []]) + |bins[next]| == Entries(bins)
  {
    EmptyingBin(bins, next);
    var b := bins[next := []];
    forall u: nat | Relaxable(g, dist, u)
      ensures Has(b, Bin(dist[u], delta), u) || (u in bins[next] && Bin(dist[u], delta) >= next)
    {
      assert Has(bins, Bin(dist[u], delta), u);
    }
    forall i | 0 <= i < |bins[next]|
      ensures bins[next][i] < |g|
    {
      assert Has(bins, next, bins[next][i]);
    }
    forall i: nat, x: nat | Has(b, i, x)
      ensures i >= next && x < |g|
    {
      assert Has(bins, i, x);
    }
  }

  /** When no bin holds anything the labels are the shortest distances. */
  lemma NothingWaiting(g: WGraph, s: nat, inf: nat, delta: nat, dist: seq<nat>, bins: Bins, curr: nat)
    requires Inv(g, s, inf, delta, dist, bins, [], curr)
    requires forall i, x :: !Has(bins, i, x)
    ensures Shortest(g, s, inf, dist)
  {
    RelaxedIsShortest(g, s, inf, dist);
  }

  // ---- the algorithm ----

  lemma {:induction false} BinBound(d: nat, delta: nat)
    requires delta > 0
    ensures Bin(d, delta) <= d
    decreases d
  {
    if d >= delta {
      BinBound(d - delta, delta);
    }
  }

  lemma AttainedBound(g: WGraph, s: nat, inf: nat, dist: seq<nat>, v: nat)
    requires Attained(g, s, inf, dist) && v < |dist|
    ensures dist[v] <= inf
  {
  }

  lemma EdgeSize(r: Relaxed, u: nat, e: WNode, delta: nat, inf: nat)
    requires u < |r.dist| && e.v < |r.dist| && delta > 0 && r.dist[e.v] <= inf && |r.bins| <= inf
    ensures |RelaxEdge(r, u, e, delta).bins| <= inf
  {
    BinBound(r.dist[u] + e.w, delta);
  }

  /** Bins are only ever created for distances below inf. */
  lemma {:induction false} RelaxSize(g: WGraph, s: nat, inf: nat, u: nat, k: nat, delta: nat, r: Relaxed)
    requires ValidGraph(g) && |r.dist| == |g| && Attained(g, s, inf, r.dist) && u < |g| && k <= |g[u]| && delta > 0
    requires |r.bins| <= inf
    ensures |RelaxFirst(g, u, k, delta, r).bins| <= inf
    decreases k
  {
    hide Attained, RelaxEdge;
    if k > 0 {
      RelaxSize(g, s, inf, u, k - 1, delta, r);
      RelaxAttained(g, s, inf, u, k - 1, delta, r);
      AttainedBound(g, s, inf, RelaxFirst(g, u, k - 1, delta, r).dist, g[u][k - 1].v);
      EdgeSize(RelaxFirst(g, u, k - 1, delta, r), u, g[u][k - 1], delta, inf);
    }
  }

  method RelaxEdges(g: WGraph, u: nat, delta: nat, dist: array<nat>, bins: Bins) returns (localBins: Bins)
    requires ValidGraph(g) && dist.Length == |g| && u < |g| && delta > 0
    modifies dist
    ensures Relaxed(dist[..], localBins) == RelaxAll(g, u, delta, old(dist[..]), bins)
  {
    localBins := bins;
    ghost var r0 := Relaxed(dist[..], bins);
    for k := 0 to |g[u]|
      invariant Relaxed(dist[..], localBins) == RelaxFirst(g, u, k, delta, r0)
    {
      localBins := RelaxNeighbour(u, g[u][k], delta, dist, localBins);
    }
  }

  /** The swap of one neighbour's distance; for a single thread it succeeds at once. */
  method RelaxNeighbour(u: nat, wn: WNode, delta: nat, dist: array<nat>, bins: Bins) returns (localBins: Bins)
    requires u < dist.Length && wn.v < dist.Length && delta > 0
    modifies dist
    ensures Relaxed(dist[..], localBins) == RelaxEdge(Relaxed(old(dist[..]), bins), u, wn, delta)
  {
    localBins := bins;
    var newDist := dist[u] + wn.w;
    if newDist < dist[wn.v] {
      dist[wn.v] := newDist;
      BinIsQuotient(newDist, delta);
      localBins := Push(localBins, newDist / delta, wn.v);
    }
  }

  /** State between the steps of an iteration, with the entries still to be taken. */
  ghost predicate Ready(g: WGraph, s: nat, inf: nat, delta: nat, dist: seq<nat>, bins: Bins, rest: seq<nat>, curr: nat) {
    Inv(g, s, inf, delta, dist, bins, rest, curr) && |bins| <= inf
  }

  /** Either something was improved, or nothing at all has changed. */
  ghost predicate Advanced(dist0: seq<nat>, bins0: Bins, dist: seq<nat>, bins: Bins) {
    Sum(dist) < Sum(dist0) || (dist == dist0 && bins == bins0)
  }

  lemma EntryStep(g: WGraph, s: nat, inf: nat, delta: nat, dist: seq<nat>, bins: Bins, rest: seq<nat>, curr: nat)
    requires Ready(g, s, inf, delta, dist, bins, rest, curr) && rest != []
    ensures var r := RelaxAll(g, rest[0], delta, dist, bins);
            Ready(g, s, inf, delta, r.dist, r.bins, rest[1..], curr) && Advanced(dist, bins, r.dist, r.bins)
  {
    TakeEntry(g, s, inf, delta, dist, bins, rest, curr);
    RelaxSize(g, s, inf, rest[0], |g[rest[0]]|, delta, Relaxed(dist, bins));
  }

  /** First loop of an iteration: relax the frontier entries that are not below the bin. */
  method ProcessFrontier(g: WGraph, ghost s: nat, ghost inf: nat, delta: nat, dist: array<nat>, bins: Bins,
                         frontier: seq<nat>, curr: nat) returns (localBins: Bins)
    requires Ready(g, s, inf, delta, dist[..], bins, frontier, curr)
    modifies dist
    ensures Ready(g, s, inf, delta, dist[..], localBins, [], curr)
    ensures Advanced(old(dist[..]), bins, dist[..], localBins)
  {
    localBins := bins;
    assert frontier[0..] == frontier;
    for i := 0 to |frontier|
      invariant Ready(g, s, inf, delta, dist[..], localBins, frontier[i..], curr)
      invariant Advanced(old(dist[..]), bins, dist[..], localBins)
    {
      var u := frontier[i];
      assert frontier[i..][0] == u && frontier[i..][1..] == frontier[i + 1..];
      BinFilter(dist[u], delta, curr);
      if dist[u] >= delta * curr {
        EntryStep(g, s, inf, delta, dist[..], localBins, frontier[i..], curr);
        localBins := RelaxEdges(g, u, delta, dist, localBins);
      } else {
        SkipEntry(g, s, inf, delta, dist[..], localBins, frontier[i..], curr);
      }
    }
  }

  /** One pass of the fusion loop: the whole current bin is taken and relaxed, stale or not. */
  method FuseOnce(g: WGraph, ghost s: nat, ghost inf: nat, delta: nat, dist: array<nat>, bins: Bins, curr: nat)
    returns (localBins: Bins)
    requires Ready(g, s, inf, delta, dist[..], bins, [], curr) && curr < |bins|
    modifies dist
    ensures Ready(g, s, inf, delta, dist[..], localBins, [], curr)
    ensures Advanced(old(dist[..]), bins[curr := []], dist[..], localBins)
  {
    TakeBin(g, s, inf, delta, dist[..], bins, curr, curr);
    var currBinCopy := bins[curr];
    localBins := bins[curr := []];
    assert currBinCopy[0..] == currBinCopy;
    for i := 0 to |currBinCopy|
      invariant Ready(g, s, inf, delta, dist[..], localBins, currBinCopy[i..], curr)
      invariant Advanced(old(dist[..]), bins[curr := []], dist[..], localBins)
    {
      var u := currBinCopy[i];
      assert currBinCopy[i..][0] == u && currBinCopy[i..][1..] == currBinCopy[i + 1..];
      EntryStep(g, s, inf, delta, dist[..], localBins, currBinCopy[i..], curr);
      localBins := RelaxEdges(g, u, delta, dist, localBins);
    }
  }

  /** Lexicographic measure: distances only fall, and without a fall the entries do. */
  ghost predicate NotLater(dist0: seq<nat>, bins0: Bins, dist: seq<nat>, bins: Bins) {
    Sum(dist) < Sum(dist0) || (Sum(dist) == Sum(dist0) && Entries(bins) <= Entries(bins0))
  }

  method Fuse(g: WGraph, ghost s: nat, ghost inf: nat, delta: nat, threshold: nat, dist: array<nat>, bins: Bins, curr: nat)
    returns (localBins: Bins)
    requires Ready(g, s, inf, delta, dist[..], bins, [], curr)
    modifies dist
    ensures Ready(g, s, inf, delta, dist[..], localBins, [], curr)
    ensures NotLater(old(dist[..]), bins, dist[..], localBins)
  {
    localBins := bins;
    while curr < |localBins| && localBins[curr] != [] && |localBins[curr]| < threshold
      invariant Ready(g, s, inf, delta, dist[..], localBins, [], curr)
      invariant NotLater(old(dist[..]), bins, dist[..], localBins)
      decreases Sum(dist[..]), Entries(localBins)
    {
      EmptyingBin(localBins, curr);
      localBins := FuseOnce(g, s, inf, delta, dist, localBins, curr);
    }
  }

  /** The vote for the next bin: the first non-empty one from the current one on. */
  method NextBin(bins: Bins, curr: nat, kMaxBin: nat) returns (next: nat)
    requires |bins| <= kMaxBin && LowBinsEmpty(bins, curr)
    ensures next < |bins| ==> bins[next] != [] && LowBinsEmpty(bins, next)
    ensures next >= |bins| ==> next == kMaxBin && forall i: nat, x: nat :: !Has(bins, i, x)
  {
    next := kMaxBin;
    var i := curr;
    while i < |bins|
      invariant forall j :: curr <= j < i && j < |bins| ==> bins[j] == []
      decreases |bins| - i
    {
      if bins[i] != [] {
        next := Min(next, i);
        return;
      }
      i := i + 1;
    }
  }

  /** Ready for the iteration of bin curr; kMaxBin stands for "no bin left". */
  ghost predicate Scheduled(g: WGraph, s: nat, inf: nat, delta: nat, dist: seq<nat>, bins: Bins,
                            frontier: seq<nat>, curr: nat, kMaxBin: nat) {
    && Ready(g, s, inf, delta, dist, bins, frontier, curr)
    && (if curr == kMaxBin then frontier == [] && forall i: nat, x: nat :: !Has(bins, i, x) else frontier != [])
  }

  /** Both phases of one iteration; `next` is the bin the following one works on. */
  method Iterate(g: WGraph, ghost s: nat, ghost inf: nat, delta: nat, kMaxBin: nat, threshold: nat,
                 dist: array<nat>, bins: Bins, frontier: seq<nat>, curr: nat)
    returns (localBins: Bins, frontier': seq<nat>, next: nat)
    requires Ready(g, s, inf, delta, dist[..], bins, frontier, curr) && frontier != [] && inf < kMaxBin
    modifies dist
    ensures Scheduled(g, s, inf, delta, dist[..], localBins, frontier', next, kMaxBin)
    ensures Sum(dist[..]) < Sum(old(dist[..]))
         || (Sum(dist[..]) == Sum(old(dist[..])) && Entries(localBins) + |frontier'| < Entries(bins) + |frontier|)
  {
    localBins := ProcessFrontier(g, s, inf, delta, dist, bins, frontier, curr);
    localBins := Fuse(g, s, inf, delta, threshold, dist, localBins, curr);
    assert NotLater(old(dist[..]), bins, dist[..], localBins);
    next := NextBin(localBins, curr, kMaxBin);
    if next < |localBins| {
      TakeBin(g, s, inf, delta, dist[..], localBins, curr, next);
      frontier' := localBins[next];
      localBins := localBins[next := []];
    } else {
      NoBin(g, s, inf, delta, dist[..], localBins, curr, next);
      frontier' := [];
    }
  }

  method DeltaStep(g: WGraph, source: nat, delta: nat, kDistInf: nat, kMaxBin: nat, kBinSizeThreshold: nat)
    returns (dist: array<nat>)
    requires ValidGraph(g) && source < |g| && delta > 0 && 0 < kDistInf < kMaxBin
    ensures fresh(dist) && Shortest(g, source, kDistInf, dist[..])
  {
    dist := new nat[|g|](i => kDistInf);
    dist[source] := 0;
    var localBins: Bins := [];
    var frontier := [source];
    var curr, next := 0, kMaxBin;  // the two shared indexes, swapped at every barrier
    Initially(g, source, kDistInf, delta, dist[..]);
    while curr != kMaxBin
      invariant Scheduled(g, source, kDistInf, delta, dist[..], localBins, frontier, curr, kMaxBin)
      decreases Sum(dist[..]), Entries(localBins) + |frontier|
    {
      localBins, frontier, next :=
        Iterate(g, source, kDistInf, delta, kMaxBin, kBinSizeThreshold, dist, localBins, frontier, curr);
      curr, next := next, kMaxBin;
    }
    NothingWaiting(g, source, kDistInf, delta, dist[..], localBins, kMaxBin);
  }

  lemma Initially(g: WGraph, s: nat, inf: nat, delta: nat, dist: seq<nat>)
    requires ValidGraph(g) && s < |g| && |dist| == |g| && delta > 0 && inf > 0
    requires dist[s] == 0 && forall v :: 0 <= v < |g| && v != s ==> dist[v] == inf
    ensures Ready(g, s, inf, delta, dist, [], [s], 0)
  {
    assert Follow(g, s, []) == At(s, 0);
    forall u: nat | Relaxable(g, dist, u)
      ensures u == s
    {
      var k :| 0 <= k < |g[u]| && dist[u] + g[u][k].w < dist[g[u][k].v];
    }
  }

  lemma NoBin(g: WGraph, s: nat, inf: nat, delta: nat, dist: seq<nat>, bins: Bins, curr: nat, next: nat)
    requires Ready(g, s, inf, delta, dist, bins, [], curr) && forall i: nat, x: nat :: !Has(bins, i, x)
    ensures Ready(g, s, inf, delta, dist, bins, [], next)
  {
  }

  // ---- the oracle ----

  datatype Queued = Queued(d: nat, v: nat)

  /** Queue entries of vertices that may still lower a label. */
  ghost predicate QueueCovers(g: WGraph, dist: seq<nat>, mq: seq<Queued>)
    requires ValidGraph(g) && |dist| == |g|
  {
    forall u: nat :: Relaxable(g, dist, u) ==> Queued(dist[u], u) in mq
  }

  ghost predicate QueueCoversOthers(g: WGraph, dist: seq<nat>, mq: seq<Queued>, u: nat)
    requires ValidGraph(g) && |dist| == |g|
  {
    forall x: nat :: x != u && Relaxable(g, dist, x) ==> Queued(dist[x], x) in mq
  }

  lemma OracleEdge(g: WGraph, dist: seq<nat>, mq: seq<Queued>, u: nat, v: nat, d: nat)
    requires ValidGraph(g) && |dist| == |g| && QueueCoversOthers(g, dist, mq, u)
    requires v < |g| && d < dist[v]
    ensures QueueCoversOthers(g, dist[v := d], mq + [Queued(d, v)], u)
  {
    var dist' := dist[v := d];
    forall x: nat | x != u && Relaxable(g, dist', x)
      ensures Queued(dist'[x], x) in mq + [Queued(d, v)]
    {
      if x != v {
        var k :| 0 <= k < |g[x]| && dist'[x] + g[x][k].w < dist'[g[x][k].v];
        assert dist[x] + g[x][k].w < dist[g[x][k].v];
        assert Relaxable(g, dist, x);
      }
    }
  }

  /** The first k edges of u are settled, and what else may lower a label is queued. */
  ghost predicate OracleInv(g: WGraph, s: nat, inf: nat, u: nat, k: nat, dist: seq<nat>, mq: seq<Queued>) {
    && ValidGraph(g) && Attained(g, s, inf, dist) && u < |g| && k <= |g[u]|
    && QueueCoversOthers(g, dist, mq, u) && Settled(g, u, k, Relaxed(dist, []))
    && forall i :: 0 <= i < |mq| ==> mq[i].v < |g|
  }

  lemma OracleLower(g: WGraph, s: nat, inf: nat, u: nat, k: nat, dist: seq<nat>, mq: seq<Queued>, v: nat, d: nat)
    requires OracleInv(g, s, inf, u, k, dist, mq) && k < |g[u]|
    requires v == g[u][k].v && d == dist[u] + g[u][k].w && v < |dist| && d < dist[v]
    ensures OracleInv(g, s, inf, u, k + 1, dist[v := d], mq + [Queued(d, v)])
    ensures Sum(dist[v := d]) < Sum(dist) && dist[v := d][u] == dist[u]
  {
    OracleEdge(g, dist, mq, u, v, d);
    AttainedLower(g, s, inf, dist, u, k);
    SumLower(dist, v, d);
  }

  lemma OracleEnd(g: WGraph, s: nat, inf: nat, u: nat, dist: seq<nat>, mq: seq<Queued>)
    requires u < |g| && OracleInv(g, s, inf, u, |g[u]|, dist, mq)
    ensures Attained(g, s, inf, dist) && QueueCovers(g, dist, mq)
  {
    assert !Relaxable(g, dist, u);
  }

  method OracleRelax(g: WGraph, ghost s: nat, ghost inf: nat, u: nat, dist: array<nat>, mq: seq<Queued>)
    returns (mq': seq<Queued>)
    requires ValidGraph(g) && u < |g| == dist.Length && OracleInv(g, s, inf, u, 0, dist[..], mq)
    modifies dist
    ensures OracleInv(g, s, inf, u, |g[u]|, dist[..], mq')
    ensures Sum(dist[..]) < Sum(old(dist[..])) || (dist[..] == old(dist[..]) && mq' == mq)
  {
    hide Attained, QueueCoversOthers, Sum;
    mq' := mq;
    var td: nat := dist[u];
    for k := 0 to |g[u]|
      invariant OracleInv(g, s, inf, u, k, dist[..], mq') && dist[u] == td
      invariant Sum(dist[..]) < Sum(old(dist[..])) || (dist[..] == old(dist[..]) && mq' == mq)
    {
      var wn := g[u][k];
      var newDist: nat := td + wn.w;
      if newDist < dist[wn.v] {
        ghost var d0 := dist[..];
        OracleLower(g, s, inf, u, k, d0, mq', wn.v, newDist);
        dist[wn.v] := newDist;
        assert dist[..] == d0[wn.v := newDist];
        mq' := mq' + [Queued(newDist, wn.v)];
      }
    }
  }

  /** The serial oracle.  Which entry the priority queue yields first does not affect the answer,
      so any entry may be popped. */
  method OracleDistances(g: WGraph, source: nat, kDistInf: nat) returns (oracleDist: array<nat>)
    requires ValidGraph(g) && source < |g| && 0 < kDistInf
    ensures fresh(oracleDist) && Shortest(g, source, kDistInf, oracleDist[..])
  {
    oracleDist := new nat[|g|](i => kDistInf);
    oracleDist[source] := 0;
    var mq := [Queued(0, source)];
    Initially(g, source, kDistInf, 1, oracleDist[..]);
    assert mq[0] == Queued(0, source);
    while mq != []
      invariant Attained(g, source, kDistInf, oracleDist[..])
      invariant QueueCovers(g, oracleDist[..], mq)
      invariant forall i :: 0 <= i < |mq| ==> mq[i].v < |g|
      decreases Sum(oracleDist[..]), |mq|
    {
      var k: nat :| k < |mq|;
      var top := mq[k];
      ghost var before := mq;
      mq := mq[..k] + mq[k + 1..];
      forall q | q in before && q != top
        ensures q in mq
      {
        var i :| 0 <= i < |before| && before[i] == q;
        assert mq[if i < k then i else i - 1] == q;
      }
      if top.d == oracleDist[top.v] {
        mq := OracleRelax(g, source, kDistInf, top.v, oracleDist, mq);
        OracleEnd(g, source, kDistInf, top.v, oracleDist[..], mq);
      }
    }
    RelaxedIsShortest(g, source, kDistInf, oracleDist[..]);
  }
}
