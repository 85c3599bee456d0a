/**
 * The in-place builder, first half: squish the edge list, then let its own memory become the
 * neighbour array.  Edge j occupies the words 2j and 2j+1 of that memory.
 */
module BuildInPlace {
  import opened Sorting
  import opened CsrSpec
  import opened BuildSteps
  import opened BuildOrdinary

  lemma EdgeLessIsOrder()
    ensures StrictOrder(EdgeLess)
  {
  }

  function SelfLoop(): Edge -> bool { (e: Edge) => e.u == e.v }

  /** sort, unique, remove_if on the edge list. */
  function SquishedEdges(el: seq<Edge>): seq<Edge> {
    RemoveIf(Unique(Sort(el, EdgeLess)), SelfLoop())
  }

  /** Strictly ascending, no self-loops, ends in range. */
  ghost predicate CleanEdges(es: seq<Edge>, n: nat) {
    StrictlySorted(es, EdgeLess) && InRange(es, n) && forall i :: 0 <= i < |es| ==> es[i].u != es[i].v
  }

  lemma SquishedEdgesSpec(el: seq<Edge>, n: nat)
    requires InRange(el, n)
    ensures CleanEdges(SquishedEdges(el), n)
    ensures forall e :: e in SquishedEdges(el) <==> e in el && e.u != e.v
  {
    EdgeLessIsOrder();
    SortSorts(el, EdgeLess);
    SortMembers(el, EdgeLess);
    UniqueStrict(Sort(el, EdgeLess), EdgeLess);
    RemoveIfKeeps(Unique(Sort(el, EdgeLess)), SelfLoop(), EdgeLess);
    var es := SquishedEdges(el);
    forall i | 0 <= i < |es|
      ensures es[i].u < n && es[i].v < n && es[i].u != es[i].v
    {
      assert es[i] in es;
    }
  }

  // ---- sorted edges as insertions ----

  /** One insertion per edge: its target under its source. */
  ghost function OutOps(es: seq<Edge>): (ops: seq<Op>)
    ensures |ops| == |es|
  {
    seq(|es|, k requires 0 <= k < |es| => Op(es[k].u, es[k].v))
  }

  lemma {:induction false} OutOpsAreInsertions(es: seq<Edge>)
    ensures OutOps(es) == Insertions(es, true, false)
  {
    if es != [] {
      OutOpsAreInsertions(es[..|es| - 1]);
      assert OutOps(es) == OutOps(es[..|es| - 1]) + [Op(es[|es| - 1].u, es[|es| - 1].v)];
    }
  }

  lemma {:induction false} TotalBelow(ops: seq<Op>, n: nat, k: nat)
    requires k <= n && forall i :: 0 <= i < |ops| ==> ops[i].key < k
    ensures SumTo(Degrees(ops, n), k) == |ops|
    decreases |ops|
  {
    if ops == [] {
      SumToZero(Degrees(ops, n), k);
    } else {
      var p := ops[..|ops| - 1];
      TotalBelow(p, n, k);
      assert ops == p + [ops[|ops| - 1]];
      DegreesSnoc(p, ops[|ops| - 1], n, k);
    }
  }

  lemma {:induction false} LaterKeysDoNotCount(ops: seq<Op>, n: nat, k: nat, x: nat)
    requires k <= |ops| && x <= n && forall i :: k <= i < |ops| ==> ops[i].key >= x
    ensures SumTo(Degrees(ops, n), x) == SumTo(Degrees(ops[..k], n), x)
    decreases |ops|
  {
    if k == |ops| {
      assert ops[..k] == ops;
    } else {
      var p := ops[..|ops| - 1];
      assert p[..k] == ops[..k];
      LaterKeysDoNotCount(p, n, k, x);
      assert ops == p + [ops[|ops| - 1]];
      DegreesSnoc(p, ops[|ops| - 1], n, x);
    }
  }

  /** With sorted keys, insertion k goes to slot k: the writes never get ahead of the reads. */
  lemma SlotIsIndex(ops: seq<Op>, n: nat, k: nat)
    requires k < |ops| && (forall i :: 0 <= i < |ops| ==> ops[i].key < n)
    requires forall i, j :: 0 <= i <= j < |ops| ==> ops[i].key <= ops[j].key
    ensures SumTo(Degrees(ops, n), ops[k].key) + |Select(ops[..k], ops[k].key)| == k
  {
    var x := ops[k].key;
    LaterKeysDoNotCount(ops, n, k, x);
    TotalBelow(ops[..k], n, x + 1);
    assert SumTo(Degrees(ops[..k], n), x + 1) == SumTo(Degrees(ops[..k], n), x) + |Select(ops[..k], x)|;
  }

  lemma CleanKeysAscend(es: seq<Edge>, n: nat, i: nat, j: nat)
    requires CleanEdges(es, n) && i <= j < |es|
    ensures es[i].u <= es[j].u
  {
    if i < j {
      assert EdgeLess(es[i], es[j]);
    }
  }

  lemma KeysAscend(es: seq<Edge>, n: nat)
    requires CleanEdges(es, n)
    ensures forall i, j :: 0 <= i <= j < |es| ==> OutOps(es)[i].key <= OutOps(es)[j].key
  {
    forall i, j | 0 <= i <= j < |es|
      ensures es[i].u <= es[j].u
    {
      CleanKeysAscend(es, n, i, j);
    }
  }

  lemma OwnRange(ops: seq<Op>, n: nat, k: nat)
    requires k < |ops| && (forall i :: 0 <= i < |ops| ==> ops[i].key < n)
    requires forall i, j :: 0 <= i <= j < |ops| ==> ops[i].key <= ops[j].key
    ensures SumTo(Degrees(ops, n), ops[k].key) <= k < SumTo(Degrees(ops, n), ops[k].key + 1)
  {
    SlotIsIndex(ops, n, k);
    assert ops[..k + 1] == ops[..k] + [ops[k]];
    SelectSnoc(ops[..k], ops[k], ops[k].key);
    SelectPrefix(ops, k + 1, ops[k].key);
  }

  lemma OneRange(d: seq<nat>, k: nat, u: nat, x: nat)
    requires u < |d| && x < |d| && SumTo(d, u) <= k < SumTo(d, u + 1)
    ensures SumTo(d, x) <= k < SumTo(d, x + 1) <==> x == u
  {
    if x < u {
      SumToMono(d, x + 1, u);
    } else if u < x {
      SumToMono(d, u + 1, x);
    }
  }

  /** The k-th edge lies in the range its source reserves, and in no other. */
  lemma EdgeRange(es: seq<Edge>, n: nat, k: nat, x: nat)
    requires CleanEdges(es, n) && k < |es| && x < n
    ensures SumTo(Degrees(OutOps(es), n), x) <= k < SumTo(Degrees(OutOps(es), n), x + 1) <==> es[k].u == x
  {
    KeysAscend(es, n);
    OwnRange(OutOps(es), n, k);
    OneRange(Degrees(OutOps(es), n), k, es[k].u, x);
  }

  // ---- overwriting the edge list's own memory ----

  /** Words 2j and 2j+1 still hold edge j. */
  ghost predicate HoldsEdge(mem: seq<nat>, es: seq<Edge>, j: nat) {
    j < |es| && 2 * j + 1 < |mem| && mem[2 * j] == es[j].u && mem[2 * j + 1] == es[j].v
  }

  ghost predicate HoldsEdgesFrom(mem: seq<nat>, es: seq<Edge>, k: nat) {
    |mem| == 2 * |es| && forall j: nat :: k <= j < |es| ==> HoldsEdge(mem, es, j)
  }

  ghost predicate HoldsTargetsTo(mem: seq<nat>, es: seq<Edge>, k: nat)
    requires k <= |es| && |mem| >= |es|
  {
    forall j :: 0 <= j < k ==> mem[j] == es[j].v
  }

  /** Memory and offsets when the first k edges have been overwritten. */
  datatype Progress = Progress(es: seq<Edge>, n: nat, k: nat, offs: seq<nat>, mem: seq<nat>)

  ghost predicate IsOverwriting(p: Progress) {
    && CleanEdges(p.es, p.n) && p.k <= |p.es| && |p.offs| >= p.n
    && HoldsEdgesFrom(p.mem, p.es, p.k) && HoldsTargetsTo(p.mem, p.es, p.k)
    && Scattered(OutOps(p.es), p.k, p.n, p.offs, p.mem)
  }

  type Overwriting = p: Progress | IsOverwriting(p) ghost witness Progress([], 0, 0, [], [])

  /** Overwriting word k leaves the edges after k readable. */
  lemma WordKIsFree(es: seq<Edge>, k: nat, mem: seq<nat>)
    requires k < |es| && HoldsEdgesFrom(mem, es, k) && HoldsTargetsTo(mem, es, k)
    ensures HoldsEdgesFrom(mem[k := es[k].v], es, k + 1) && HoldsTargetsTo(mem[k := es[k].v], es, k + 1)
  {
    var mem' := mem[k := es[k].v];
    forall j: nat | k + 1 <= j < |es|
      ensures HoldsEdge(mem', es, j)
    {
      assert HoldsEdge(mem, es, j);
    }
  }

  /** The slot of edge k is word k, so the writes never get ahead of the reads. */
  lemma SlotIsWordK(es: seq<Edge>, n: nat, k: nat, offs: seq<nat>, mem: seq<nat>)
    requires CleanEdges(es, n) && k < |es| && Scattered(OutOps(es), k, n, offs, mem)
    ensures es[k].u < n <= |offs| && offs[es[k].u] == k < |mem|
    ensures Scattered(OutOps(es), k + 1, n, offs[es[k].u := k + 1], mem[k := es[k].v])
  {
    KeysAscend(es, n);
    SlotIsIndex(OutOps(es), n, k);
    ScatterStep(OutOps(es), k, n, offs, mem);
  }

  lemma OverwriteStep(p: Overwriting) returns (p': Overwriting)
    requires p.k < |p.es|
    ensures p.es[p.k].u < p.n <= |p.offs| && p.offs[p.es[p.k].u] == p.k && 2 * p.k + 1 < |p.mem|
    ensures p.mem[2 * p.k] == p.es[p.k].u && p.mem[2 * p.k + 1] == p.es[p.k].v
    ensures p'.es == p.es && p'.n == p.n && p'.k == p.k + 1
    ensures p'.offs == p.offs[p.es[p.k].u := p.k + 1] && p'.mem == p.mem[p.k := p.es[p.k].v]
  {
    OverwriteTo(p);
    hide IsOverwriting;
    p' := Progress(p.es, p.n, p.k + 1, p.offs[p.es[p.k].u := p.k + 1], p.mem[p.k := p.es[p.k].v]);
  }

  lemma OverwriteTo(p: Progress)
    requires IsOverwriting(p) && p.k < |p.es|
    ensures p.es[p.k].u < p.n <= |p.offs| && p.offs[p.es[p.k].u] == p.k && 2 * p.k + 1 < |p.mem|
    ensures p.mem[2 * p.k] == p.es[p.k].u && p.mem[2 * p.k + 1] == p.es[p.k].v
    ensures IsOverwriting(Progress(p.es, p.n, p.k + 1, p.offs[p.es[p.k].u := p.k + 1], p.mem[p.k := p.es[p.k].v]))
  {
    hide Scattered, CleanEdges;
    assert HoldsEdge(p.mem, p.es, p.k);
    SlotIsWordK(p.es, p.n, p.k, p.offs, p.mem);
    WordKIsFree(p.es, p.k, p.mem);
  }

  /** The copy loop over the edges, reading and writing the same memory. */
  method OverwriteWithTargets(mem: array<nat>, m: nat, offsets: array<nat>, ghost p0: Overwriting) returns (ghost p: Overwriting)
    requires p0.k == 0 && p0.offs == offsets[..] && p0.mem == mem[..] && m == |p0.es| && mem != offsets
    modifies mem, offsets
    ensures p.es == p0.es && p.n == p0.n && p.k == m && p.offs == offsets[..] && p.mem == mem[..]
    ensures forall x :: p.n <= x < offsets.Length ==> offsets[x] == old(offsets[x])
  {
    p := p0;
    for k := 0 to m
      invariant p.es == p0.es && p.n == p0.n && p.k == k && p.offs == offsets[..] && p.mem == mem[..]
      invariant forall x :: p.n <= x < offsets.Length ==> offsets[x] == old(offsets[x])
    {
      p := OverwriteOne(mem, k, offsets, p);
    }
  }

  /** One turn of the loop. */
  method OverwriteOne(mem: array<nat>, k: nat, offsets: array<nat>, ghost p: Overwriting) returns (ghost p': Overwriting)
    requires k == p.k < |p.es| && p.offs == offsets[..] && p.mem == mem[..] && mem != offsets
    modifies mem, offsets
    ensures p'.es == p.es && p'.n == p.n && p'.k == k + 1 && p'.offs == offsets[..] && p'.mem == mem[..]
    ensures forall x :: p.n <= x < offsets.Length ==> offsets[x] == old(offsets[x])
  {
    p' := OverwriteStep(p);
    var u := mem[2 * k];
    var v := mem[2 * k + 1];
    var slot := offsets[u];
    offsets[u] := slot + 1;
    mem[slot] := v;
  }

  lemma AdvancedOffsets(ops: seq<Op>, n: nat, sums: seq<nat>, offs: seq<nat>, mem: seq<nat>)
    requires IsPrefixSum(sums, Degrees(ops, n)) && Scattered(ops, |ops|, n, offs, mem)
    ensures forall x :: 0 <= x < n ==> offs[x] == sums[x + 1]
  {
    forall x: nat | x < n
      ensures offs[x] == sums[x + 1]
    {
      ScatterEnd(ops, n, offs, mem, x);
    }
  }

  /** Shifts the advanced offsets back down to where each range starts. */
  method RevertOffsets(offsets: array<nat>, n: nat, ghost sums: seq<nat>)
    requires offsets.Length == n + 1 == |sums| && sums[0] == 0 && offsets[n] == sums[n]
    requires forall x :: 0 <= x < n ==> offsets[x] == sums[x + 1]
    modifies offsets
    ensures offsets[..] == sums
  {
    var i := n + 1;
    while i > 0
      invariant 0 <= i <= n + 1
      invariant forall x :: i <= x <= n ==> offsets[x] == sums[x]
      invariant forall x :: 0 <= x < i && x < n ==> offsets[x] == sums[x + 1]
    {
      i := i - 1;
      offsets[i] := if i != 0 then offsets[i - 1] else 0;
    }
  }

  ghost function Targets(es: seq<Edge>): (r: seq<nat>)
    ensures |r| == |es|
  {
    seq(|es|, k requires 0 <= k < |es| => es[k].v)
  }

  /** The CSR graph of the squished edges, before any inverse is added. */
  ghost function BaseCsr(es: seq<Edge>, offs: seq<nat>): Csr {
    Csr(offs, Targets(es))
  }

  lemma {:induction false} SelectAscends(es: seq<Edge>, n: nat, x: nat)
    requires CleanEdges(es, n)
    ensures StrictlySorted(Select(OutOps(es), x), NatLess)
    ensures forall y :: y in Select(OutOps(es), x) <==> Edge(x, y) in es
  {
    forall y
      ensures y in Select(OutOps(es), x) <==> Edge(x, y) in es
    {
      OutOpsAreInsertions(es);
      InsertionsMembers(es, true, false, x, y);
      SelectMembers(OutOps(es), x, y);
    }
    if es != [] {
      var p, e := es[..|es| - 1], es[|es| - 1];
      SelectAscends(p, n, x);
      assert OutOps(es) == OutOps(p) + [Op(e.u, e.v)];
      SelectSnoc(OutOps(p), Op(e.u, e.v), x);
      if e.u == x {
        forall i | 0 <= i < |Select(OutOps(p), x)|
          ensures Select(OutOps(p), x)[i] < e.v
        {
          var y := Select(OutOps(p), x)[i];
          assert y in Select(OutOps(p), x);
          assert Edge(x, y) in p;
          var j :| 0 <= j < |p| && p[j] == Edge(x, y);
          assert EdgeLess(es[j], es[|es| - 1]);
        }
      }
    }
  }

  lemma TargetsSlice(mem: seq<nat>, es: seq<Edge>, a: nat, b: nat)
    requires |mem| >= |es| && HoldsTargetsTo(mem, es, |es|) && a <= b <= |es|
    ensures mem[a..b] == Targets(es)[a..b]
  {
  }

  ghost predicate BaseListIs(es: seq<Edge>, offs: seq<nat>, u: nat) {
    && u + 1 < |offs| && offs[u] <= offs[u + 1] <= |es|
    && Targets(es)[offs[u]..offs[u + 1]] == Select(OutOps(es), u)
  }

  lemma BaseList(es: seq<Edge>, n: nat, offs: seq<nat>, mem: seq<nat>, offs': seq<nat>, u: nat)
    requires |mem| == 2 * |es| && HoldsTargetsTo(mem, es, |es|) && u < n
    requires Scattered(OutOps(es), |es|, n, offs', mem) && IsPrefixSum(offs, Degrees(OutOps(es), n)) && offs[n] == |es|
    ensures BaseListIs(es, offs, u)
  {
    ScatterEnd(OutOps(es), n, offs', mem, u);
    SumToMono(Degrees(OutOps(es), n), u + 1, n);
    TargetsSlice(mem, es, offs[u], offs[u + 1]);
  }

  lemma BaseListsAre(es: seq<Edge>, n: nat, offs: seq<nat>)
    requires |offs| == n + 1 && offs[0] == 0 && offs[n] == |es| && forall u: nat :: u < n ==> BaseListIs(es, offs, u)
    ensures WellFormed(BaseCsr(es, offs), n)
    ensures forall u: nat :: u < n ==> List(BaseCsr(es, offs), n, u) == Select(OutOps(es), u)
  {
    forall u: nat | u < n
      ensures StepUp(offs, u)
    {
      assert BaseListIs(es, offs, u);
    }
    forall u: nat | u < n
      ensures List(BaseCsr(es, offs), n, u) == Select(OutOps(es), u)
    {
      assert BaseListIs(es, offs, u);
    }
  }

  lemma BaseLists(es: seq<Edge>, n: nat, offs: seq<nat>, mem: seq<nat>, offs': seq<nat>)
    requires CleanEdges(es, n) && |mem| == 2 * |es| && HoldsTargetsTo(mem, es, |es|)
    requires Scattered(OutOps(es), |es|, n, offs', mem) && IsPrefixSum(offs, Degrees(OutOps(es), n))
    ensures WellFormed(BaseCsr(es, offs), n)
    ensures forall u: nat :: u < n ==> List(BaseCsr(es, offs), n, u) == Select(OutOps(es), u)
  {
    TotalBelow(OutOps(es), n, n);
    forall u: nat | u < n
      ensures BaseListIs(es, offs, u)
    {
      BaseList(es, n, offs, mem, offs', u);
    }
    BaseListsAre(es, n, offs);
  }

  lemma BaseIsCsr(el: seq<Edge>, es: seq<Edge>, n: nat, offs: seq<nat>)
    requires CleanEdges(es, n) && (forall e :: e in es <==> e in el && e.u != e.v)
    requires WellFormed(BaseCsr(es, offs), n)
    requires forall u: nat :: u < n ==> List(BaseCsr(es, offs), n, u) == Select(OutOps(es), u)
    ensures IsCsrOf(BaseCsr(es, offs), Adjacency(el, n, true, false))
  {
    forall u: nat | u < n
      ensures Holds(List(BaseCsr(es, offs), n, u), Adjacency(el, n, true, false)[u])
    {
      SelectAscends(es, n, u);
      forall x: nat
        ensures x in Adjacency(el, n, true, false)[u] <==> Edge(u, x) in es
      {
        AdjacencyMembers(el, n, true, false, u, x);
      }
    }
  }

  /** The words of the squished edge list. */
  method EdgeMemory(es: seq<Edge>) returns (mem: array<nat>)
    ensures fresh(mem) && HoldsEdgesFrom(mem[..], es, 0)
  {
    mem := new nat[2 * |es|];
    for k := 0 to |es|
      invariant forall j: nat :: j < k ==> HoldsEdge(mem[..], es, j)
    {
      ghost var m0 := mem[..];
      mem[2 * k] := es[k].u;
      mem[2 * k + 1] := es[k].v;
      forall j: nat | j < k
        ensures HoldsEdge(mem[..], es, j)
      {
        assert HoldsEdge(m0, es, j);
      }
    }
  }

  /** Squish, count, and turn the edge memory into the outgoing neighbour array. */
  method BuildBase(el: seq<Edge>, n: nat, symmetrize: bool, blockSize: nat)
    returns (es: seq<Edge>, offsets: array<nat>, mem: array<nat>)
    requires InRange(el, n) && blockSize > 0
    ensures fresh(offsets) && fresh(mem) && offsets != mem
    ensures es == SquishedEdges(el) && CleanEdges(es, n)
    ensures mem.Length == 2 * |es| && HoldsTargetsTo(mem[..], es, |es|)
    ensures IsPrefixSum(offsets[..], Degrees(OutOps(es), n))
    ensures WellFormed(BaseCsr(es, offsets[..]), n)
    ensures forall u: nat :: u < n ==> List(BaseCsr(es, offsets[..]), n, u) == Select(OutOps(es), u)
  {
    es := SquishedEdges(el);
    SquishedEdgesSpec(el, n);
    hide SquishedEdges, CleanEdges, WellFormed, List;
    OutOpsAreInsertions(es);
    var degrees := CountDegrees(es, n, symmetrize, true, false);
    offsets := ParallelPrefixSum(degrees, blockSize);
    mem := CopyTargets(es, n, offsets);
  }

  /** The edge memory, overwritten by the targets; the offsets move on and are moved back. */
  method CopyTargets(es: seq<Edge>, n: nat, offsets: array<nat>) returns (mem: array<nat>)
    requires CleanEdges(es, n) && IsPrefixSum(offsets[..], Degrees(OutOps(es), n))
    modifies offsets
    ensures fresh(mem) && mem.Length == 2 * |es| && HoldsTargetsTo(mem[..], es, |es|)
    ensures offsets[..] == old(offsets[..])
    ensures WellFormed(BaseCsr(es, offsets[..]), n)
    ensures forall u: nat :: u < n ==> List(BaseCsr(es, offsets[..]), n, u) == Select(OutOps(es), u)
  {
    ghost var sums := offsets[..];
    mem := EdgeMemory(es);
    TotalBelow(OutOps(es), n, n);
    ScatterStart(OutOps(es), n, offsets[..], mem[..]);
    ghost var p := OverwriteWithTargets(mem, |es|, offsets, Progress(es, n, 0, sums, mem[..]));
    ghost var advanced, m1 := offsets[..], mem[..];
    AdvancedOffsets(OutOps(es), n, sums, advanced, m1);
    RevertOffsets(offsets, n, sums);
    BaseLists(es, n, offsets[..], m1, advanced);
  }

  // ---- directed graphs: the incoming side ----

  /** realloc: the kept prefix moves to the new block. */
  method Realloc(a: array<nat>, newSize: nat) returns (b: array<nat>)
    requires newSize <= a.Length
    ensures fresh(b) && b[..] == a[..newSize]
  {
    b := new nat[newSize];
    for i := 0 to newSize
      invariant forall j :: 0 <= j < i ==> b[j] == a[j]
    {
      b[i] := a[i];
    }
  }

  ghost function InOps(es: seq<Edge>): (ops: seq<Op>)
    ensures |ops| == |es|
  {
    seq(|es|, k requires 0 <= k < |es| => Op(es[k].v, es[k].u))
  }

  lemma {:induction false} InOpsAreInsertions(es: seq<Edge>)
    ensures InOps(es) == Insertions(es, false, true)
  {
    if es != [] {
      InOpsAreInsertions(es[..|es| - 1]);
      assert InOps(es) == InOps(es[..|es| - 1]) + [Op(es[|es| - 1].v, es[|es| - 1].u)];
    }
  }

  lemma {:induction false} SelectInAscends(es: seq<Edge>, n: nat, x: nat)
    requires CleanEdges(es, n)
    ensures StrictlySorted(Select(InOps(es), x), NatLess)
    ensures forall y :: y in Select(InOps(es), x) <==> Edge(y, x) in es
  {
    forall y
      ensures y in Select(InOps(es), x) <==> Edge(y, x) in es
    {
      InOpsAreInsertions(es);
      InsertionsMembers(es, false, true, x, y);
      SelectMembers(InOps(es), x, y);
    }
    if es != [] {
      var p, e := es[..|es| - 1], es[|es| - 1];
      SelectInAscends(p, n, x);
      assert InOps(es) == InOps(p) + [Op(e.v, e.u)];
      SelectSnoc(InOps(p), Op(e.v, e.u), x);
      if e.v == x {
        forall i | 0 <= i < |Select(InOps(p), x)|
          ensures Select(InOps(p), x)[i] < e.u
        {
          var y := Select(InOps(p), x)[i];
          assert y in Select(InOps(p), x);
          assert Edge(y, x) in p;
          var j :| 0 <= j < |p| && p[j] == Edge(y, x);
          assert EdgeLess(es[j], es[|es| - 1]);
        }
      }
    }
  }

  lemma InIsCsr(el: seq<Edge>, es: seq<Edge>, n: nat, c: Csr)
    requires CleanEdges(es, n) && (forall e :: e in es <==> e in el && e.u != e.v)
    requires WellFormed(c, n) && forall u: nat :: u < n ==> List(c, n, u) == Select(InOps(es), u)
    ensures IsCsrOf(c, Adjacency(el, n, false, true))
  {
    forall u: nat | u < n
      ensures Holds(List(c, n, u), Adjacency(el, n, false, true)[u])
    {
      SelectInAscends(es, n, u);
      forall x: nat
        ensures x in Adjacency(el, n, false, true)[u] <==> Edge(x, u) in es
      {
        AdjacencyMembers(el, n, false, true, u, x);
      }
    }
  }

  /** The edges of u are the ones between its two offsets. */
  ghost predicate EdgesAt(es: seq<Edge>, offs: seq<nat>, u: nat) {
    && u + 1 < |offs| && offs[u] <= offs[u + 1] <= |es|
    && forall i :: offs[u] <= i < offs[u + 1] ==> es[i].u == u
  }

  lemma OffsetsSplitEdges(es: seq<Edge>, n: nat, offs: seq<nat>)
    requires CleanEdges(es, n) && IsPrefixSum(offs, Degrees(OutOps(es), n))
    ensures offs[0] == 0 && offs[n] == |es|
    ensures forall u: nat :: u < n ==> EdgesAt(es, offs, u)
  {
    var d := Degrees(OutOps(es), n);
    TotalBelow(OutOps(es), n, n);
    forall u: nat | u < n
      ensures EdgesAt(es, offs, u)
    {
      SumToMono(d, u, u + 1);
      SumToMono(d, u + 1, n);
      forall i | offs[u] <= i < offs[u + 1]
        ensures es[i].u == u
      {
        EdgeRange(es, n, i, u);
      }
    }
  }

  /** Inner loop: one source's list. */
  method ScatterSource(u: nat, from: nat, to: nat, neighs: array<nat>, inoffsets: array<nat>, invNeighs: array<nat>,
                       ghost es: seq<Edge>, ghost n: nat)
    requires CleanEdges(es, n) && neighs[..] == Targets(es) && from <= to <= |es|
    requires forall i :: from <= i < to ==> es[i].u == u
    requires inoffsets != invNeighs && neighs != inoffsets && neighs != invNeighs
    requires Scattered(InOps(es), from, n, inoffsets[..], invNeighs[..])
    modifies inoffsets, invNeighs
    ensures Scattered(InOps(es), to, n, inoffsets[..], invNeighs[..])
  {
    for i := from to to
      invariant Scattered(InOps(es), i, n, inoffsets[..], invNeighs[..])
    {
      assert neighs[i] == Targets(es)[i];
      ScatterOne(inoffsets, invNeighs, InOps(es), i, n, Op(neighs[i], u));
    }
  }

  /** Walks the outgoing lists in order and appends each source to its target's list. */
  method ScatterInverse(n: nat, index: seq<nat>, neighs: array<nat>, inoffsets: array<nat>, invNeighs: array<nat>,
                        ghost es: seq<Edge>)
    requires CleanEdges(es, n) && neighs[..] == Targets(es)
    requires |index| == n + 1 && index[0] == 0 && index[n] == |es| && forall u: nat :: u < n ==> EdgesAt(es, index, u)
    requires inoffsets != invNeighs && neighs != inoffsets && neighs != invNeighs
    requires Scattered(InOps(es), 0, n, inoffsets[..], invNeighs[..])
    modifies inoffsets, invNeighs
    ensures Scattered(InOps(es), |es|, n, inoffsets[..], invNeighs[..])
  {
    for u := 0 to n
      invariant index[u] <= |es|
      invariant Scattered(InOps(es), index[u], n, inoffsets[..], invNeighs[..])
    {
      assert EdgesAt(es, index, u);
      ScatterSource(u, index[u], index[u + 1], neighs, inoffsets, invNeighs, es, n);
    }
  }

  /** Offsets and lists of the incoming side, from the finished outgoing side. */
  method BuildInverse(es: seq<Edge>, n: nat, index: seq<nat>, neighs: array<nat>, blockSize: nat)
    returns (invIndex: seq<nat>, invNeighs: array<nat>)
    requires CleanEdges(es, n) && neighs[..] == Targets(es) && blockSize > 0
    requires IsPrefixSum(index, Degrees(OutOps(es), n))
    ensures fresh(invNeighs) && WellFormed(Csr(invIndex, invNeighs[..]), n)
    ensures forall u: nat :: u < n ==> List(Csr(invIndex, invNeighs[..]), n, u) == Select(InOps(es), u)
  {
    InOpsAreInsertions(es);
    var indegrees := CountDegrees(es, n, false, true, true);
    var inoffsets := ParallelPrefixSum(indegrees, blockSize);
    invIndex := inoffsets[..];
    invNeighs := new nat[inoffsets[n]];
    ScatterStart(InOps(es), n, inoffsets[..], invNeighs[..]);
    OffsetsSplitEdges(es, n, index);
    ScatterInverse(n, index, neighs, inoffsets, invNeighs, es);
    ScatteredIsCsr(InOps(es), n, inoffsets[..], invNeighs[..], invIndex);
  }

  /** The directed in-place build: both sides of the graph. */
  method MakeDirectedInPlace(el: seq<Edge>, n: nat, blockSize: nat)
    returns (index: seq<nat>, neighs: array<nat>, invIndex: seq<nat>, invNeighs: array<nat>)
    requires InRange(el, n) && blockSize > 0
    ensures IsCsrOf(Csr(index, neighs[..]), Adjacency(el, n, true, false))
    ensures IsCsrOf(Csr(invIndex, invNeighs[..]), Adjacency(el, n, false, true))
  {
    var es, offsets, mem := BuildBase(el, n, false, blockSize);
    SquishedEdgesSpec(el, n);
    neighs := Realloc(mem, |es|);
    assert neighs[..] == Targets(es);
    index := offsets[..];
    BaseIsCsr(el, es, n, index);
    invIndex, invNeighs := BuildInverse(es, n, index, neighs, blockSize);
    InIsCsr(el, es, n, Csr(invIndex, invNeighs[..]));
    assert neighs[..] == Targets(es);
  }
}
