/** Renaming the vertices in order of decreasing degree, and the count that may do so first. */
module Relabelling {
  import opened Sorting
  import opened CsrSpec
  import opened BuildSteps
  import opened BuildOrdinary
  import opened TriangleSpec
  import opened TriangleCount

  datatype DegreeNode = DegreeNode(degree: nat, node: nat)

  predicate Greater(a: DegreeNode, b: DegreeNode) {
    if a.degree == b.degree then a.node > b.node else a.degree > b.degree
  }

  lemma GreaterIsOrder()
    ensures StrictOrder(Greater)
  {
  }

  function Pairs(g: seq<seq<nat>>): (r: seq<DegreeNode>)
    ensures |r| == |g| && forall n :: 0 <= n < |g| ==> r[n] == DegreeNode(|g[n]|, n)
  {
    seq(|g|, n requires 0 <= n < |g| => DegreeNode(|g[n]|, n))
  }

  // ---- the new names are a permutation ----

  lemma {:induction false} OnceInPairs(ps: seq<DegreeNode>, x: DegreeNode)
    requires forall n :: 0 <= n < |ps| ==> ps[n].node == n
    ensures multiset(ps)[x] <= 1
    ensures multiset(ps)[x] == 1 ==> x.node < |ps|
  {
    if ps != [] {
      var k := |ps| - 1;
      OnceInPairs(ps[..k], x);
      assert ps == ps[..k] + [ps[k]];
    }
  }

  lemma TwiceCounts<T>(s: seq<T>, i: nat, j: nat)
    requires i < j < |s| && s[i] == s[j]
    ensures multiset(s)[s[i]] >= 2
  {
    assert s == s[..i] + ([s[i]] + (s[i + 1..j] + ([s[j]] + s[j + 1..])));
  }

  /** The sorted pairs hold every vertex exactly once. */
  ghost predicate Ranked(g: seq<seq<nat>>, sorted: seq<DegreeNode>) {
    && |sorted| == |g|
    && (forall n :: 0 <= n < |g| ==> sorted[n].node < |g| && sorted[n].degree == |g[sorted[n].node]|)
    && (forall i, j :: 0 <= i < j < |g| ==> sorted[i].node != sorted[j].node)
    && (forall u: nat :: u < |g| ==> Appears(sorted, u))
  }

  ghost predicate Appears(sorted: seq<DegreeNode>, u: nat) {
    exists n :: 0 <= n < |sorted| && sorted[n].node == u
  }

  lemma SortedPairs(g: seq<seq<nat>>, sorted: seq<DegreeNode>)
    requires sorted == Sort(Pairs(g), Greater)
    ensures |sorted| == |g| && multiset(sorted) == multiset(Pairs(g)) && Sorted(sorted, Greater)
    ensures forall n :: 0 <= n < |g| ==> sorted[n].node < |g| && sorted[n].degree == |g[sorted[n].node]|
    ensures forall u: nat :: u < |g| ==> Appears(sorted, u)
  {
    GreaterIsOrder();
    SortSorts(Pairs(g), Greater);
    SortMembers(Pairs(g), Greater);
    forall n | 0 <= n < |g|
      ensures sorted[n].node < |g| && sorted[n].degree == |g[sorted[n].node]|
    {
      assert sorted[n] in Pairs(g);
    }
    forall u: nat | u < |g|
      ensures Appears(sorted, u)
    {
      assert Pairs(g)[u] in sorted;
    }
  }

  lemma SortRanks(g: seq<seq<nat>>, sorted: seq<DegreeNode>)
    requires sorted == Sort(Pairs(g), Greater)
    ensures Ranked(g, sorted) && Ranking(g, sorted)
    ensures forall i, j :: 0 <= i < j < |g| ==>
              sorted[i].degree > sorted[j].degree || (sorted[i].degree == sorted[j].degree && sorted[i].node > sorted[j].node)
  {
    SortedPairs(g, sorted);
    forall i, j | 0 <= i < j < |g|
      ensures sorted[i].node != sorted[j].node && RanksBefore(g, sorted[i].node, sorted[j].node)
    {
      assert !Greater(sorted[j], sorted[i]);
      if sorted[i].node == sorted[j].node {
        TwiceCounts(sorted, i, j);
        OnceInPairs(Pairs(g), sorted[i]);
      }
    }
  }

  /** Higher degrees come first, and among equal degrees larger ids. */
  ghost predicate RanksBefore(g: seq<seq<nat>>, u: nat, v: nat)
    requires u < |g| && v < |g|
  {
    |g[u]| > |g[v]| || (|g[u]| == |g[v]| && u > v)
  }

  ghost predicate Ranking(g: seq<seq<nat>>, sorted: seq<DegreeNode>)
    requires Ranked(g, sorted)
  {
    forall i, j :: 0 <= i < j < |g| ==> RanksBefore(g, sorted[i].node, sorted[j].node)
  }

  /** So the new ids order the vertices by degree and, where degrees are equal, by old id, both falling. */
  lemma NewIdsRank(g: seq<seq<nat>>, sorted: seq<DegreeNode>, p: seq<nat>, u: nat, v: nat)
    requires Ranked(g, sorted) && Ranking(g, sorted) && Permutation(p, Nodes(sorted)) && |p| == |g| && u < |g| && v < |g|
    ensures p[u] < p[v] <==> |g[u]| > |g[v]| || (|g[u]| == |g[v]| && u > v)
  {
    assert sorted[p[u]].node == Nodes(sorted)[p[u]] == u && sorted[p[v]].node == Nodes(sorted)[p[v]] == v;
    if p[u] == p[v] {
      assert u == v;
    }
  }

  ghost function Nodes(sorted: seq<DegreeNode>): (q: seq<nat>)
    ensures |q| == |sorted| && forall n :: 0 <= n < |q| ==> q[n] == sorted[n].node
  {
    seq(|sorted|, n requires 0 <= n < |sorted| => sorted[n].node)
  }

  /** new_ids and the degrees of the new vertices. */
  method AssignIds(g: seq<seq<nat>>, sorted: seq<DegreeNode>) returns (degrees: array<nat>, newIds: array<nat>)
    requires Ranked(g, sorted)
    ensures fresh(degrees) && fresh(newIds) && degrees != newIds
    ensures Permutation(newIds[..], Nodes(sorted)) && newIds.Length == |g|
    ensures degrees.Length == |g| && forall u :: 0 <= u < |g| ==> degrees[newIds[u]] == |g[u]|
    ensures forall n :: 0 <= n < |g| ==> degrees[n] == sorted[n].degree
  {
    degrees := new nat[|g|];
    newIds := new nat[|g|];
    for n := 0 to |g|
      invariant forall i :: 0 <= i < n ==> degrees[i] == sorted[i].degree && newIds[sorted[i].node] == i
    {
      degrees[n] := sorted[n].degree;
      newIds[sorted[n].node] := n;
    }
    forall u: nat | u < |g|
      ensures newIds[u] < |g| && sorted[newIds[u]].node == u && degrees[newIds[u]] == |g[u]|
    {
      assert Appears(sorted, u);
      var n :| 0 <= n < |g| && sorted[n].node == u;
    }
  }

  // ---- the renamed lists ----

  ghost function NewNames(list: seq<nat>, p: seq<nat>): (r: seq<nat>)
    requires forall k :: 0 <= k < |list| ==> list[k] < |p|
    ensures |r| == |list| && forall k :: 0 <= k < |r| ==> r[k] == p[list[k]]
  {
    seq(|list|, k requires 0 <= k < |list| => p[list[k]])
  }

  ghost predicate InLists(g: seq<seq<nat>>, n: nat) {
    forall u, k :: 0 <= u < |g| && 0 <= k < |g[u]| ==> g[u][k] < n
  }

  lemma SimpleInLists(g: seq<seq<nat>>)
    requires Simple(g)
    ensures InLists(g, |g|)
  {
    forall u: nat, k: nat | u < |g| && k < |g[u]|
      ensures g[u][k] < |g|
    {
      assert Returns(g, u, g[u][k]);
    }
  }

  /** One vertex's list is appended under its new name and then sorted. */
  method FillRow(list: seq<nat>, x: nat, newIds: array<nat>, offsets: array<nat>, neighs: array<nat>)
    requires newIds != offsets && newIds != neighs && offsets != neighs
    requires x < offsets.Length && offsets[x] + |list| <= neighs.Length
    requires forall k :: 0 <= k < |list| ==> list[k] < newIds.Length
    modifies offsets, neighs
    ensures offsets[x] == old(offsets[x]) + |list|
    ensures forall y :: 0 <= y < offsets.Length && y != x ==> offsets[y] == old(offsets[y])
    ensures neighs[old(offsets[x])..old(offsets[x]) + |list|] == Sort(NewNames(list, newIds[..]), NatLess)
    ensures forall i :: 0 <= i < neighs.Length && !(old(offsets[x]) <= i < old(offsets[x]) + |list|) ==>
              neighs[i] == old(neighs[i])
  {
    ghost var p, start := newIds[..], offsets[x];
    for k := 0 to |list|
      invariant newIds[..] == p && offsets[x] == start + k
      invariant forall y :: 0 <= y < offsets.Length && y != x ==> offsets[y] == old(offsets[y])
      invariant forall i :: 0 <= i < k ==> neighs[start + i] == p[list[i]]
      invariant forall i :: 0 <= i < neighs.Length && !(start <= i < start + k) ==> neighs[i] == old(neighs[i])
    {
      neighs[offsets[x]] := newIds[list[k]];
      offsets[x] := offsets[x] + 1;
    }
    assert neighs[start..start + |list|] == NewNames(list, p);
    SortRange(neighs, offsets[x] - |list|, offsets[x]);
  }

  /** Rows written elsewhere leave a row alone. */
  lemma LaidElsewhere(lens: seq<nat>, x: nat, y: nat, out: seq<nat>, out': seq<nat>, list: seq<nat>)
    requires LaidAt(lens, x, out, list) && x != y && y < |lens| && |out'| == |out|
    requires forall i :: 0 <= i < |out| && !(SumTo(lens, y) <= i < SumTo(lens, y + 1)) ==> out'[i] == out[i]
    ensures LaidAt(lens, x, out', list)
  {
    if x < y {
      SumToMono(lens, x + 1, y);
    } else {
      SumToMono(lens, y + 1, x);
    }
  }

  ghost function RowOf(g: seq<seq<nat>>, p: seq<nat>, u: nat): seq<nat>
    requires u < |g| && InLists(g, |p|)
  {
    Sort(NewNames(g[u], p), NatLess)
  }

  ghost predicate RowsDone(g: seq<seq<nat>>, p: seq<nat>, degrees: seq<nat>, out: seq<nat>, k: nat)
    requires InLists(g, |p|) && |p| == |g|
  {
    k <= |g| && forall u: nat :: u < k ==> LaidAt(degrees, p[u], out, RowOf(g, p, u))
  }

  lemma RowsNext(g: seq<seq<nat>>, p: seq<nat>, q: seq<nat>, degrees: seq<nat>, out: seq<nat>, out': seq<nat>, k: nat)
    requires InLists(g, |p|) && Permutation(p, q) && |p| == |g| == |degrees| && k < |g|
    requires RowsDone(g, p, degrees, out, k) && |out'| == |out|
    requires LaidAt(degrees, p[k], out', RowOf(g, p, k))
    requires forall i :: 0 <= i < |out| && !(SumTo(degrees, p[k]) <= i < SumTo(degrees, p[k] + 1)) ==> out'[i] == out[i]
    ensures RowsDone(g, p, degrees, out', k + 1)
  {
    hide LaidAt, RowOf, NewNames, SumTo;
    forall u: nat | u < k
      ensures LaidAt(degrees, p[u], out', RowOf(g, p, u))
    {
      assert q[p[u]] == u && q[p[k]] == k;
      LaidElsewhere(degrees, p[u], p[k], out, out', RowOf(g, p, u));
    }
  }

  lemma RowsWellFormed(n: nat, degrees: seq<nat>, index: seq<nat>, out: seq<nat>)
    requires n == |degrees| && IsPrefixSum(index, degrees) && |out| == SumTo(degrees, n)
    ensures WellFormed(Csr(index, out), n)
    ensures forall x :: 0 <= x < n ==> |Rows(index, out, n)[x]| == degrees[x]
  {
    forall i: nat | i < n
      ensures StepUp(index, i)
    {
      SumToMono(degrees, i, i + 1);
    }
    forall x | 0 <= x < n
      ensures |Rows(index, out, n)[x]| == degrees[x]
    {
      OffsetsMono(Csr(index, out), n, x, x + 1);
    }
  }

  /** With all rows in place the lists are the old ones under the new names. */
  lemma RowsAreRenamed(g: seq<seq<nat>>, p: seq<nat>, q: seq<nat>, degrees: seq<nat>, index: seq<nat>, out: seq<nat>)
    requires Simple(g) && InLists(g, |p|) && Permutation(p, q) && |p| == |g| == |degrees|
    requires IsPrefixSum(index, degrees) && WellFormed(Csr(index, out), |g|) && RowsDone(g, p, degrees, out, |g|)
    ensures Renamed(g, Rows(index, out, |g|), p)
  {
    var h := Rows(index, out, |g|);
    forall u: nat | u < |g|
      ensures RenamedList(g[u], h[p[u]], p)
    {
      assert LaidAt(degrees, p[u], out, RowOf(g, p, u));
      assert h[p[u]] == RowOf(g, p, u);
      RowIsRenamed(g, p, q, u);
    }
  }

  lemma RowIsRenamed(g: seq<seq<nat>>, p: seq<nat>, q: seq<nat>, u: nat)
    requires Simple(g) && InLists(g, |p|) && Permutation(p, q) && |p| == |g| && u < |g|
    ensures RenamedList(g[u], RowOf(g, p, u), p)
  {
    var names, row := NewNames(g[u], p), RowOf(g, p, u);
    NatLessIsOrder();
    SortSorts(names, NatLess);
    SortMembers(names, NatLess);
    forall i, j | 0 <= i < j < |row|
      ensures NatLess(row[i], row[j])
    {
      if row[i] == row[j] {
        TwiceCounts(row, i, j);
        OnceInNames(g[u], p, q, row[i]);
      }
    }
    forall x: nat
      ensures x in row <==> IsName(g[u], p, x)
    {
      if x in row {
        var k :| 0 <= k < |names| && names[k] == x;
        assert g[u][k] in g[u] && p[g[u][k]] == x;
      }
      if IsName(g[u], p, x) {
        var v :| v in g[u] && v < |p| && p[v] == x;
        var k :| 0 <= k < |g[u]| && g[u][k] == v;
        assert names[k] == x;
      }
    }
  }

  lemma {:induction false} OnceInNames(list: seq<nat>, p: seq<nat>, q: seq<nat>, x: nat)
    requires StrictlySorted(list, NatLess) && Permutation(p, q)
    requires forall k :: 0 <= k < |list| ==> list[k] < |p|
    ensures multiset(NewNames(list, p))[x] <= 1
    ensures multiset(NewNames(list, p))[x] == 1 ==> x < |q| && q[x] in list
  {
    if list != [] {
      var k := |list| - 1;
      OnceInNames(list[..k], p, q, x);
      assert NewNames(list, p) == NewNames(list[..k], p) + [p[list[k]]];
      assert list == list[..k] + [list[k]];
      assert list[k] !in list[..k];
    }
  }

  /** The lists a CSR holds, one per vertex. */
  function Rows(index: seq<nat>, neighs: seq<nat>, n: nat): (r: seq<seq<nat>>)
    requires WellFormed(Csr(index, neighs), n)
    ensures |r| == n && forall u :: 0 <= u < n ==> r[u] == List(Csr(index, neighs), n, u)
  {
    var c := Csr(index, neighs);
    seq(n, u requires 0 <= u < n => OffsetsMono(c, n, u, u + 1); neighs[index[u]..index[u + 1]])
  }

  // ---- the whole relabelling ----

  /** Fills all rows, vertex by vertex, each under its new name. */
  method FillRows(g: seq<seq<nat>>, newIds: array<nat>, offsets: array<nat>, neighs: array<nat>,
                  ghost degrees: seq<nat>, ghost q: seq<nat>)
    requires newIds != offsets && newIds != neighs && offsets != neighs
    requires newIds.Length == |g| == |degrees| && InLists(g, |g|) && Permutation(newIds[..], q)
    requires forall u :: 0 <= u < |g| ==> degrees[newIds[u]] == |g[u]|
    requires IsPrefixSum(offsets[..], degrees) && neighs.Length == SumTo(degrees, |g|)
    modifies offsets, neighs
    ensures RowsDone(g, newIds[..], degrees, neighs[..], |g|)
  {
    ghost var p := newIds[..];
    for u := 0 to |g|
      invariant newIds[..] == p
      invariant forall v :: u <= v < |g| ==> offsets[p[v]] == SumTo(degrees, p[v])
      invariant RowsDone(g, p, degrees, neighs[..], u)
    {
      ghost var before, x := neighs[..], p[u];
      SumToMono(degrees, x + 1, |g|);
      FillRow(g[u], newIds[u], newIds, offsets, neighs);
      RowsNext(g, p, q, degrees, before, neighs[..], u);
      forall v | u < v < |g|
        ensures p[v] != x
      {
        assert q[p[v]] == v && q[p[u]] == u;
      }
    }
  }

  ghost predicate Falling(degrees: seq<nat>) {
    forall x, y :: 0 <= x < y < |degrees| ==> degrees[x] >= degrees[y]
  }

  ghost function Lengths(h: seq<seq<nat>>): (r: seq<nat>)
    ensures |r| == |h| && forall x :: 0 <= x < |h| ==> r[x] == |h[x]|
  {
    seq(|h|, x requires 0 <= x < |h| => |h[x]|)
  }

  method BuildRenamed(g: seq<seq<nat>>, degrees: array<nat>, newIds: array<nat>, blockSize: nat, ghost q: seq<nat>)
    returns (index: seq<nat>, neighs: array<nat>)
    requires Simple(g) && blockSize > 0 && degrees != newIds
    requires newIds.Length == |g| == degrees.Length && Permutation(newIds[..], q)
    requires forall u :: 0 <= u < |g| ==> degrees[newIds[u]] == |g[u]|
    ensures fresh(neighs) && WellFormed(Csr(index, neighs[..]), |g|)
    ensures Renamed(g, Rows(index, neighs[..], |g|), newIds[..])
    ensures Lengths(Rows(index, neighs[..], |g|)) == degrees[..]
  {
    var offsets := ParallelPrefixSum(degrees, blockSize);
    index := offsets[..];
    neighs := new nat[offsets[|g|]];
    SimpleInLists(g);
    FillRows(g, newIds, offsets, neighs, degrees[..], q);
    RowsWellFormed(|g|, degrees[..], index, neighs[..]);
    RowsAreRenamed(g, newIds[..], q, degrees[..], index, neighs[..]);
  }

  /** The graph with its vertices renamed by decreasing degree. */
  method RelabelByDegree(g: seq<seq<nat>>, blockSize: nat)
    returns (index: seq<nat>, neighs: array<nat>, ghost p: seq<nat>, ghost q: seq<nat>)
    requires Simple(g) && blockSize > 0
    ensures WellFormed(Csr(index, neighs[..]), |g|)
    ensures Permutation(p, q) && Renamed(g, Rows(index, neighs[..], |g|), p)
    ensures Falling(Lengths(Rows(index, neighs[..], |g|)))
    ensures forall u: nat, v: nat :: u < |g| && v < |g| ==>
              (p[u] < p[v] <==> |g[u]| > |g[v]| || (|g[u]| == |g[v]| && u > v))
  {
    var sorted := Sort(Pairs(g), Greater);
    SortRanks(g, sorted);
    var degrees, newIds := AssignIds(g, sorted);
    p, q := newIds[..], Nodes(sorted);
    assert Falling(degrees[..]);
    forall u: nat, v: nat | u < |g| && v < |g|
      ensures p[u] < p[v] <==> |g[u]| > |g[v]| || (|g[u]| == |g[v]| && u > v)
    {
      NewIdsRank(g, sorted, p, u, v);
    }
    index, neighs := BuildRenamed(g, degrees, newIds, blockSize, q);
  }

  /** The count is the same whether or not the vertices are renamed first. */
  method Hybrid(g: seq<seq<nat>>, worthRelabelling: bool, blockSize: nat) returns (total: nat)
    requires Simple(g) && blockSize > 0
    ensures total == |Triangles(g)|
  {
    if worthRelabelling {
      var index, neighs, p, q := RelabelByDegree(g, blockSize);
      var h := Rows(index, neighs[..], |g|);
      RenamedTriangles(g, h, p, q);
      total := OrderedCount(h);
    } else {
      total := OrderedCount(g);
    }
  }
}
