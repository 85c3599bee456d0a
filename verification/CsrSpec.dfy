/**
 * What a CSR graph of an edge list is, and the counting-sort view shared by every loop that
 * scatters values into it: a list of (key, value) insertions, the values selected for one key,
 * and the running sum of their counts.
 */
module CsrSpec {
  import opened Sorting

  datatype Edge = Edge(u: nat, v: nat)

  predicate EdgeLess(a: Edge, b: Edge) {
    if a.u == b.u then a.v < b.v else a.u < b.u
  }

  ghost predicate InRange(el: seq<Edge>, n: nat) {
    forall i :: 0 <= i < |el| ==> el[i].u < n && el[i].v < n
  }

  /** Neighbour sets of the graph an edge list stands for: no self-loops, duplicates merged. */
  ghost function OutSet(el: seq<Edge>, u: nat): set<nat> {
    set e | e in el && e.u == u && e.v != u :: e.v
  }

  ghost function InSet(el: seq<Edge>, v: nat): set<nat> {
    set e | e in el && e.v == v && e.u != v :: e.u
  }

  /** The neighbour sets of all vertices, along the edges, against them, or both. */
  ghost function Adjacency(el: seq<Edge>, n: nat, fwd: bool, bwd: bool): (adj: seq<set<nat>>)
    ensures |adj| == n
  {
    seq(n, u requires 0 <= u < n => (if fwd then OutSet(el, u) else {}) + if bwd then InSet(el, u) else {})
  }

  lemma AdjacencyMembers(el: seq<Edge>, n: nat, fwd: bool, bwd: bool, u: nat, x: nat)
    requires u < n
    ensures x in Adjacency(el, n, fwd, bwd)[u] <==>
              x != u && ((fwd && Edge(u, x) in el) || (bwd && Edge(x, u) in el))
  {
    if x in OutSet(el, u) {
      var e :| e in el && e.u == u && e.v != u && e.v == x;
      assert e == Edge(u, x);
    }
    if x in InSet(el, u) {
      var e :| e in el && e.v == u && e.u != u && e.u == x;
      assert e == Edge(x, u);
    }
  }

  /** Offsets and neighbour array; list(u) is the range between consecutive offsets. */
  datatype Csr = Csr(offsets: seq<nat>, neighs: seq<nat>)

  ghost predicate WellFormed(c: Csr, n: nat) {
    && |c.offsets| == n + 1 && c.offsets[0] == 0 && c.offsets[n] == |c.neighs|
    && forall i: nat :: i < n ==> StepUp(c.offsets, i)
  }

  ghost predicate StepUp(offsets: seq<nat>, i: nat) {
    i + 1 < |offsets| && offsets[i] <= offsets[i + 1]
  }

  lemma {:induction false} OffsetsAscend(c: Csr, n: nat, i: nat, j: nat)
    requires WellFormed(c, n) && i <= j <= n
    ensures c.offsets[i] <= c.offsets[j]
    decreases j
  {
    if i < j {
      OffsetsAscend(c, n, i, j - 1);
      assert StepUp(c.offsets, j - 1);
    }
  }

  lemma OffsetsMono(c: Csr, n: nat, i: nat, j: nat)
    requires WellFormed(c, n) && i <= j <= n
    ensures c.offsets[i] <= c.offsets[j] <= |c.neighs|
  {
    OffsetsAscend(c, n, i, j);
    OffsetsAscend(c, n, j, n);
  }

  ghost function List(c: Csr, n: nat, u: nat): seq<nat>
    requires WellFormed(c, n) && u < n
  {
    OffsetsMono(c, n, u, u + 1);
    OffsetsMono(c, n, u + 1, n);
    c.neighs[c.offsets[u]..c.offsets[u + 1]]
  }

  ghost predicate Holds(list: seq<nat>, adj: set<nat>) {
    StrictlySorted(list, NatLess) && forall x: nat :: x in list <==> x in adj
  }

  /** Every list is the ascending listing of the wanted neighbour set. */
  ghost predicate IsCsrOf(c: Csr, adj: seq<set<nat>>) {
    WellFormed(c, |adj|) && forall u :: 0 <= u < |adj| ==> Holds(List(c, |adj|, u), adj[u])
  }

  lemma {:induction false} SameOffsets(a: Csr, b: Csr, n: nat, k: nat)
    requires WellFormed(a, n) && WellFormed(b, n) && k <= n
    requires forall u :: 0 <= u < n ==> List(a, n, u) == List(b, n, u)
    ensures a.offsets[k] == b.offsets[k]
    decreases k
  {
    if k > 0 {
      SameOffsets(a, b, n, k - 1);
      OffsetsMono(a, n, k, n);
      OffsetsMono(b, n, k, n);
      assert StepUp(a.offsets, k - 1) && StepUp(b.offsets, k - 1);
      assert |List(a, n, k - 1)| == a.offsets[k] - a.offsets[k - 1];
      assert |List(b, n, k - 1)| == b.offsets[k] - b.offsets[k - 1];
      assert List(a, n, k - 1) == List(b, n, k - 1);
    }
  }

  lemma {:induction false} SamePrefix(a: Csr, b: Csr, n: nat, k: nat)
    requires WellFormed(a, n) && WellFormed(b, n) && k <= n
    requires forall u :: 0 <= u < n ==> List(a, n, u) == List(b, n, u)
    ensures a.offsets[k] == b.offsets[k] <= |a.neighs| && a.offsets[k] <= |b.neighs|
    ensures a.neighs[..a.offsets[k]] == b.neighs[..a.offsets[k]]
    decreases k
  {
    SameOffsets(a, b, n, k);
    OffsetsMono(a, n, k, n);
    OffsetsMono(b, n, k, n);
    if k > 0 {
      SamePrefix(a, b, n, k - 1);
      assert StepUp(a.offsets, k - 1) && StepUp(b.offsets, k - 1);
      assert List(a, n, k - 1) == List(b, n, k - 1);
      var o := a.offsets[k - 1];
      assert a.neighs[..a.offsets[k]] == a.neighs[..o] + List(a, n, k - 1);
      assert b.neighs[..a.offsets[k]] == b.neighs[..o] + List(b, n, k - 1);
    }
  }

  /** The description leaves no freedom: two CSR graphs of the same neighbour sets are the same
      offsets and the same neighbour array. */
  lemma CsrUnique(a: Csr, b: Csr, adj: seq<set<nat>>)
    requires IsCsrOf(a, adj) && IsCsrOf(b, adj)
    ensures a == b
  {
    var n := |adj|;
    forall u | 0 <= u < n
      ensures List(a, n, u) == List(b, n, u)
    {
      AscendingUnique(List(a, n, u), List(b, n, u));
    }
    forall k | 0 <= k <= n
      ensures a.offsets[k] == b.offsets[k]
    {
      SameOffsets(a, b, n, k);
    }
    SamePrefix(a, b, n, n);
  }

  // ---- sums and selections ----

  ghost function SumTo(d: seq<nat>, k: nat): nat
    requires k <= |d|
  {
    if k == 0 then 0 else SumTo(d, k - 1) + d[k - 1]
  }

  lemma {:induction false} SumToMono(d: seq<nat>, i: nat, j: nat)
    requires i <= j <= |d|
    ensures SumTo(d, i) <= SumTo(d, j)
    decreases j
  {
    if i < j {
      SumToMono(d, i, j - 1);
    }
  }

  ghost predicate IsPrefixSum(sums: seq<nat>, d: seq<nat>) {
    |sums| == |d| + 1 && forall k :: 0 <= k <= |d| ==> sums[k] == SumTo(d, k)
  }

  datatype Op = Op(key: nat, val: nat)

  /** The values inserted under key x, in the order of the insertions. */
  ghost function Select(ops: seq<Op>, x: nat): seq<nat> {
    if ops == [] then []
    else Select(ops[..|ops| - 1], x) + if ops[|ops| - 1].key == x then [ops[|ops| - 1].val] else []
  }

  lemma SelectSnoc(ops: seq<Op>, op: Op, x: nat)
    ensures Select(ops + [op], x) == Select(ops, x) + if op.key == x then [op.val] else []
  {
    assert (ops + [op])[..|ops|] == ops;
  }

  lemma {:induction false} SelectPrefix(ops: seq<Op>, k: nat, x: nat)
    requires k <= |ops|
    ensures Select(ops[..k], x) <= Select(ops, x)
    decreases |ops|
  {
    if k == |ops| {
      assert ops[..k] == ops;
    } else {
      assert ops[..|ops| - 1][..k] == ops[..k];
      SelectPrefix(ops[..|ops| - 1], k, x);
    }
  }

  lemma {:induction false} SelectMembers(ops: seq<Op>, x: nat, y: nat)
    ensures y in Select(ops, x) <==> Op(x, y) in ops
  {
    if ops != [] {
      var p := ops[..|ops| - 1];
      SelectMembers(p, x, y);
      assert ops == p + [ops[|ops| - 1]];
    }
  }

  ghost function Degrees(ops: seq<Op>, n: nat): (d: seq<nat>)
    ensures |d| == n
  {
    seq(n, x requires 0 <= x < n => |Select(ops, x)|)
  }

  lemma {:induction false} DegreesSnoc(ops: seq<Op>, op: Op, n: nat, k: nat)
    requires k <= n
    ensures SumTo(Degrees(ops + [op], n), k) == SumTo(Degrees(ops, n), k) + if op.key < k then 1 else 0
    decreases k
  {
    if k > 0 {
      DegreesSnoc(ops, op, n, k - 1);
      SelectSnoc(ops, op, k - 1);
    }
  }

  lemma {:induction false} DegreesTotal(ops: seq<Op>, n: nat)
    requires forall i :: 0 <= i < |ops| ==> ops[i].key < n
    ensures SumTo(Degrees(ops, n), n) == |ops|
  {
    if ops == [] {
      SumToZero(Degrees(ops, n), n);
    } else {
      var p := ops[..|ops| - 1];
      DegreesTotal(p, n);
      assert ops == p + [ops[|ops| - 1]];
      DegreesSnoc(p, ops[|ops| - 1], n, n);
    }
  }

  lemma {:induction false} SumToZero(d: seq<nat>, k: nat)
    requires k <= |d| && forall i :: 0 <= i < k ==> d[i] == 0
    ensures SumTo(d, k) == 0
    decreases k
  {
    if k > 0 {
      SumToZero(d, k - 1);
    }
  }

  // ---- scattering ----

  /** The first k insertions have gone to the slots their keys reserve. */
  ghost predicate Scattered(ops: seq<Op>, k: nat, n: nat, offs: seq<nat>, out: seq<nat>)
    requires k <= |ops|
  {
    var d := Degrees(ops, n);
    && |offs| >= n && |out| >= SumTo(d, n)
    && forall x :: 0 <= x < n ==>
         && offs[x] == SumTo(d, x) + |Select(ops[..k], x)|
         && SumTo(d, x) <= offs[x] <= |out|
         && out[SumTo(d, x)..offs[x]] == Select(ops[..k], x)
  }

  lemma ScatterStart(ops: seq<Op>, n: nat, offs: seq<nat>, out: seq<nat>)
    requires IsPrefixSum(offs, Degrees(ops, n)) && |out| >= SumTo(Degrees(ops, n), n)
    ensures Scattered(ops, 0, n, offs, out)
  {
    forall x: nat | x < n
      ensures SumTo(Degrees(ops, n), x) <= |out|
    {
      SumToMono(Degrees(ops, n), x, n);
    }
  }

  /** The next insertion's slot is free and inside its key's range. */
  lemma ScatterSlot(ops: seq<Op>, k: nat, n: nat, offs: seq<nat>, out: seq<nat>)
    requires k < |ops| && ops[k].key < n && Scattered(ops, k, n, offs, out)
    ensures offs[ops[k].key] < SumTo(Degrees(ops, n), ops[k].key + 1) <= |out|
  {
    var x := ops[k].key;
    assert ops[..k + 1][..k] == ops[..k] && ops[..k + 1] == ops[..k] + [ops[k]];
    SelectSnoc(ops[..k], ops[k], x);
    SelectPrefix(ops, k + 1, x);
    SumToMono(Degrees(ops, n), x + 1, n);
  }

  /** A write into another key's range leaves this key's alone. */
  lemma ScatterOther(d: seq<nat>, out: seq<nat>, x: nat, end: nat, slot: nat, y: nat, key: nat)
    requires x < |d| && key < |d| && x != key && SumTo(d, x) <= end <= SumTo(d, x + 1) && end <= |out|
    requires SumTo(d, key) <= slot < SumTo(d, key + 1) <= |out|
    ensures out[slot := y][SumTo(d, x)..end] == out[SumTo(d, x)..end]
  {
    if x < key {
      SumToMono(d, x + 1, key);
    } else {
      SumToMono(d, key + 1, x);
    }
    hide SumTo;
  }

  lemma OffsetBound(ops: seq<Op>, k: nat, n: nat, offs: seq<nat>, out: seq<nat>, x: nat)
    requires k <= |ops| && Scattered(ops, k, n, offs, out) && x < n
    ensures offs[x] <= SumTo(Degrees(ops, n), x + 1)
  {
    SelectPrefix(ops, k, x);
  }

  lemma ScatterStep(ops: seq<Op>, k: nat, n: nat, offs: seq<nat>, out: seq<nat>)
    requires k < |ops| && ops[k].key < n && Scattered(ops, k, n, offs, out)
    ensures offs[ops[k].key] < |out|
    ensures Scattered(ops, k + 1, n, offs[ops[k].key := offs[ops[k].key] + 1], out[offs[ops[k].key] := ops[k].val])
  {
    ScatterSlot(ops, k, n, offs, out);
    var key, slot, d := ops[k].key, offs[ops[k].key], Degrees(ops, n);
    var offs', out' := offs[key := slot + 1], out[slot := ops[k].val];
    forall x: nat | x < n
      ensures && offs'[x] == SumTo(d, x) + |Select(ops[..k + 1], x)|
              && SumTo(d, x) <= offs'[x] <= |out'|
              && out'[SumTo(d, x)..offs'[x]] == Select(ops[..k + 1], x)
    {
      ScatterStepAt(ops, k, n, offs, out, x);
    }
  }

  lemma ScatterStepAt(ops: seq<Op>, k: nat, n: nat, offs: seq<nat>, out: seq<nat>, x: nat)
    requires k < |ops| && ops[k].key < n && Scattered(ops, k, n, offs, out) && x < n
    ensures offs[ops[k].key] < |out|
    ensures var key, d := ops[k].key, Degrees(ops, n);
            var offs', out' := offs[key := offs[key] + 1], out[offs[key] := ops[k].val];
            && offs'[x] == SumTo(d, x) + |Select(ops[..k + 1], x)|
            && SumTo(d, x) <= offs'[x] <= |out'|
            && out'[SumTo(d, x)..offs'[x]] == Select(ops[..k + 1], x)
  {
    hide Scattered, SumTo, Degrees, Select;
    var key, d := ops[k].key, Degrees(ops, n);
    ScatteredHas(ops, k, n, offs, out, key);
    ScatteredHas(ops, k, n, offs, out, x);
    var slot := offs[key];
    ScatterSlot(ops, k, n, offs, out);
    SelectNext(ops, k, x);
    OffsetBound(ops, k, n, offs, out, x);
    if x == key {
      WriteEnd(out, SumTo(d, x), slot, ops[k].val);
    } else {
      ScatterOther(d, out, x, offs[x], slot, ops[k].val, key);
    }
  }

  lemma ScatteredHas(ops: seq<Op>, k: nat, n: nat, offs: seq<nat>, out: seq<nat>, x: nat)
    requires k <= |ops| && Scattered(ops, k, n, offs, out) && x < n
    ensures n <= |offs| && |Degrees(ops, n)| == n && SumTo(Degrees(ops, n), x) <= offs[x] <= |out|
    ensures offs[x] == SumTo(Degrees(ops, n), x) + |Select(ops[..k], x)|
    ensures out[SumTo(Degrees(ops, n), x)..offs[x]] == Select(ops[..k], x)
  {
  }

  lemma SelectNext(ops: seq<Op>, k: nat, x: nat)
    requires k < |ops|
    ensures Select(ops[..k + 1], x) == Select(ops[..k], x) + if ops[k].key == x then [ops[k].val] else []
  {
    assert ops[..k + 1] == ops[..k] + [ops[k]];
    SelectSnoc(ops[..k], ops[k], x);
  }

  lemma WriteEnd(out: seq<nat>, low: nat, slot: nat, v: nat)
    requires low <= slot < |out|
    ensures out[slot := v][low..slot + 1] == out[low..slot] + [v]
  {
  }

  /** When all insertions are in, every list is the selection of its key. */
  lemma ScatterEnd(ops: seq<Op>, n: nat, offs: seq<nat>, out: seq<nat>, x: nat)
    requires Scattered(ops, |ops|, n, offs, out) && x < n
    ensures SumTo(Degrees(ops, n), x) <= SumTo(Degrees(ops, n), x + 1) <= |out|
    ensures offs[x] == SumTo(Degrees(ops, n), x + 1)
    ensures out[SumTo(Degrees(ops, n), x)..SumTo(Degrees(ops, n), x + 1)] == Select(ops, x)
  {
    assert ops[..|ops|] == ops;
    SumToMono(Degrees(ops, n), x + 1, n);
  }
}
