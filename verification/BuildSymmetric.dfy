/**
 * The in-place builder, second half: count the inverses that are missing, make room for them by
 * spreading the lists backwards, and fill the room, searching lists that are not sorted.
 */
module BuildSymmetric {
  import opened Sorting
  import opened CsrSpec
  import opened BuildSteps
  import opened BuildOrdinary
  import opened BuildInPlace

  // ---- binary search ----

  /** What the library demands of the range: elements before the key come first, and so do the
      elements that are not after it.  The range need not be sorted. */
  ghost predicate PartitionedBy(s: seq<nat>, key: nat) {
    && (forall i, j :: 0 <= i < j < |s| && s[j] < key ==> s[i] < key)
    && (forall i, j :: 0 <= i < j < |s| && s[j] <= key ==> s[i] <= key)
  }

  /** The library search on a range, given by its contents. */
  method BinarySearch(s: seq<nat>, key: nat) returns (found: bool)
    requires PartitionedBy(s, key)
    ensures found <==> key in s
  {
    var first, len := 0, |s|;
    while len > 0
      invariant 0 <= first <= first + len <= |s|
      invariant forall i :: 0 <= i < first ==> s[i] < key
      invariant forall i :: first + len <= i < |s| ==> s[i] >= key
      decreases len
    {
      var half := len / 2;
      var mid := first + half;
      if s[mid] < key {
        first := mid + 1;
        len := len - half - 1;
      } else {
        len := half;
      }
    }
    found := first != |s| && !(key < s[first]);
    if key in s {
      var i :| 0 <= i < |s| && s[i] == key;
      assert s[first] <= key;
    }
  }

  // ---- the inverses that are missing ----

  /** Insertions that the first k edges still ask for: u under v when v has no edge back to u. */
  ghost function Missing(es: seq<Edge>, k: nat): seq<Op>
    requires k <= |es|
  {
    if k == 0 then []
    else
      var e := es[k - 1];
      Missing(es, k - 1) + if Edge(e.v, e.u) in es then [] else [Op(e.v, e.u)]
  }

  lemma {:induction false} MissingMembers(es: seq<Edge>, k: nat, x: nat, y: nat)
    requires k <= |es|
    ensures Op(x, y) in Missing(es, k) <==> Edge(x, y) !in es && Edge(y, x) in es[..k]
    decreases k
  {
    if k > 0 {
      MissingMembers(es, k - 1, x, y);
      assert es[..k] == es[..k - 1] + [es[k - 1]];
    }
  }

  lemma {:induction false} MissingPrefix(es: seq<Edge>, j: nat, k: nat)
    requires j <= k <= |es|
    ensures Missing(es, j) <= Missing(es, k)
    decreases k
  {
    if j < k {
      MissingPrefix(es, j, k - 1);
    }
  }

  lemma {:induction false} MissingInRange(es: seq<Edge>, n: nat, k: nat)
    requires k <= |es| && InRange(es, n)
    ensures forall i :: 0 <= i < |Missing(es, k)| ==> Missing(es, k)[i].key < n
    decreases k
  {
    if k > 0 {
      MissingInRange(es, n, k - 1);
    }
  }

  // ---- step 1: count them ----

  lemma AscendingPartitioned(s: seq<nat>, key: nat)
    requires StrictlySorted(s, NatLess)
    ensures PartitionedBy(s, key)
  {
    forall i, j | 0 <= i < j < |s|
      ensures s[i] < s[j]
    {
      assert NatLess(s[i], s[j]);
    }
  }

  /** A list of the base graph sits between two offsets. */
  ghost predicate BaseListAt(es: seq<Edge>, index: seq<nat>, v: nat) {
    && v + 1 < |index| && index[v] <= index[v + 1] <= |es|
    && Targets(es)[index[v]..index[v + 1]] == Select(OutOps(es), v)
  }

  /** The base graph: clean edges, their offsets, and the lists between them. */
  datatype Layout = Layout(es: seq<Edge>, n: nat, index: seq<nat>)

  ghost predicate IsBase(b: Layout) {
    && CleanEdges(b.es, b.n) && |b.index| == b.n + 1 && b.index[0] == 0 && b.index[b.n] == |b.es|
    && (forall v: nat :: v < b.n ==> BaseListAt(b.es, b.index, v) && EdgesAt(b.es, b.index, v))
    && forall j: nat :: j < |b.es| ==> OwnRangeAt(b.es, b.index, j)
  }

  /** Edge j lies in the range of its source. */
  ghost predicate OwnRangeAt(es: seq<Edge>, index: seq<nat>, j: nat) {
    j < |es| && es[j].u + 1 < |index| && index[es[j].u] <= j < index[es[j].u + 1]
  }

  type Base = b: Layout | IsBase(b) ghost witness Layout([], 0, [0])

  /** The search in v's list tells whether the edge has its inverse. */
  lemma SearchFindsInverse(b: Base, v: nat, u: nat)
    requires v < b.n
    ensures b.index[v] <= b.index[v + 1] <= |b.es|
    ensures PartitionedBy(Targets(b.es)[b.index[v]..b.index[v + 1]], u)
    ensures u in Targets(b.es)[b.index[v]..b.index[v + 1]] <==> Edge(v, u) in b.es
  {
    assert BaseListAt(b.es, b.index, v);
    SelectAscends(b.es, b.n, v);
    AscendingPartitioned(Select(OutOps(b.es), v), u);
  }

  /** One edge of step 1; `ops` are the inverses found missing so far. */
  method CountOne(ghost b: Base, index: seq<nat>, neighs: seq<nat>, invs: array<nat>, ghost ops: seq<Op>,
                  u: nat, v: nat, ghost i: nat) returns (ghost ops': seq<Op>)
    requires index == b.index && neighs == Targets(b.es) && v < b.n
    requires i < |b.es| && b.es[i].u == u && b.es[i].v == v && ops == Missing(b.es, i)
    requires invs.Length == b.n && invs[..] == Degrees(ops, b.n)
    modifies invs
    ensures ops' == Missing(b.es, i + 1)
    ensures invs[..] == Degrees(ops', b.n)
  {
    ops' := ops;
    SearchFindsInverse(b, v, u);
    var invFound := BinarySearch(neighs[index[v]..index[v + 1]], u);
    if !invFound {
      Increment(invs, v, ops, u);
      ops' := ops + [Op(v, u)];
    }
  }

  lemma EdgeOfRange(b: Base, u: nat, i: nat)
    requires u < b.n && EdgesAt(b.es, b.index, u) && b.index[u] <= i < b.index[u + 1]
    ensures i < |b.es| && b.es[i].u == u && b.es[i].v == Targets(b.es)[i] < b.n
  {
  }

  method CountSource(ghost b: Base, index: seq<nat>, neighs: seq<nat>, invs: array<nat>, u: nat)
    requires index == b.index && neighs == Targets(b.es) && u < b.n && invs.Length == b.n
    requires EdgesAt(b.es, index, u)
    requires invs[..] == Degrees(Missing(b.es, index[u]), b.n)
    modifies invs
    ensures invs[..] == Degrees(Missing(b.es, index[u + 1]), b.n)
  {
    hide IsBase, Missing, Degrees;
    ghost var ops := Missing(b.es, index[u]);
    for i := index[u] to index[u + 1]
      modifies invs
      invariant ops == Missing(b.es, i) && invs[..] == Degrees(ops, b.n)
    {
      EdgeOfRange(b, u, i);
      ops := CountOne(b, index, neighs, invs, ops, u, neighs[i], i);
    }
  }

  method CountMissing(ghost b: Base, n: nat, index: seq<nat>, neighs: seq<nat>) returns (invs: array<nat>)
    requires n == b.n && index == b.index && neighs == Targets(b.es)
    ensures fresh(invs) && invs[..] == Degrees(Missing(b.es, |b.es|), n)
  {
    invs := new nat[n](i => 0);
    assert invs[..] == Degrees([], n);
    for u := 0 to n
      modifies invs
      invariant index[u] <= |b.es| && invs[..] == Degrees(Missing(b.es, index[u]), n)
    {
      assert EdgesAt(b.es, index, u);
      CountSource(b, index, neighs, invs, u);
    }
  }

  // ---- new offsets ----

  /** Every range grows by the room its missing inverses need. */
  ghost predicate Grown(n: nat, index: seq<nat>, need: seq<nat>, grown: seq<nat>) {
    && |index| == |grown| == n + 1 && |need| == n
    && index[0] == grown[0] == 0
    && forall u: nat :: u < n ==> GrownAt(index, need, grown, u)
  }

  ghost predicate GrownAt(index: seq<nat>, need: seq<nat>, grown: seq<nat>, u: nat) {
    && u + 1 < |index| && u + 1 < |grown| && u < |need|
    && index[u] <= index[u + 1] && grown[u + 1] + index[u] == grown[u] + need[u] + index[u + 1]
  }

  /** Adds the room of all earlier vertices to every offset.  The last turn of the loop reads
      `invs` one past its end; `beyond` is what it finds there, and it ends up in the total. */
  method GrowOffsets(n: nat, offsets: array<nat>, invs: array<nat>, beyond: int) returns (totalMissingInv: int)
    requires offsets.Length == n + 1 && invs.Length == n && offsets != invs && offsets[0] == 0
    requires forall u: nat :: u < n ==> StepUp(offsets[..], u)
    modifies offsets
    ensures Grown(n, old(offsets[..]), invs[..], offsets[..])
    ensures old(offsets[n]) + totalMissingInv == offsets[n] + beyond
  {
    totalMissingInv := 0;
    ghost var index := offsets[..];
    for k := 0 to n + 1
      invariant forall x :: k <= x <= n ==> offsets[x] == index[x]
      invariant k > 0 ==> offsets[0] == 0
      invariant 0 < k <= n ==> totalMissingInv + index[k - 1] == offsets[k - 1] + invs[k - 1]
      invariant k == 0 ==> totalMissingInv == 0
      invariant k <= n ==> totalMissingInv >= 0
      invariant k == n + 1 ==> totalMissingInv + index[n] == offsets[n] + beyond
      invariant forall x: nat :: x + 1 < k ==> GrownAt(index, invs[..], offsets[..], x)
    {
      ghost var o0 := offsets[..];
      if k > 0 { assert StepUp(index, k - 1); }
      offsets[k] := offsets[k] + totalMissingInv;
      totalMissingInv := totalMissingInv + if k < n then invs[k] else beyond;
      GrownSoFar(index, invs[..], o0, offsets[..], k);
    }
  }

  lemma GrownSoFar(index: seq<nat>, need: seq<nat>, o0: seq<nat>, o1: seq<nat>, k: nat)
    requires k < |o0| == |o1| && (forall x: nat :: x + 1 < k ==> GrownAt(index, need, o0, x))
    requires k > 0 ==> GrownAt(index, need, o1, k - 1)
    requires forall x :: 0 <= x < k ==> o1[x] == o0[x]
    ensures forall x: nat :: x + 1 < k + 1 ==> GrownAt(index, need, o1, x)
  {
    forall x: nat | x + 1 < k + 1
      ensures GrownAt(index, need, o1, x)
    {
      if x + 1 < k {
        assert GrownAt(index, need, o0, x);
      }
    }
  }

  lemma {:induction false} GrownBounds(n: nat, index: seq<nat>, need: seq<nat>, grown: seq<nat>, i: nat, j: nat)
    requires Grown(n, index, need, grown) && i <= j <= n
    ensures index[i] <= index[j] && grown[i] <= grown[j] && index[j] <= grown[j]
    ensures grown[j] + index[i] >= grown[i] + index[j]
    decreases j
  {
    if j > 0 {
      assert GrownAt(index, need, grown, j - 1);
    }
    if i < j {
      GrownBounds(n, index, need, grown, i, j - 1);
    } else if j > 0 {
      GrownBounds(n, index, need, grown, j - 1, j - 1);
    }
  }

  // ---- step 2: spread backwards ----

  /** The list of u has reached the end of its grown range. */
  ghost predicate SpreadAt(index: seq<nat>, need: seq<nat>, grown: seq<nat>, ts: seq<nat>, mem: seq<nat>, u: nat) {
    && u < |need| && |index| == |grown| == |need| + 1
    && index[u] <= index[u + 1] <= |ts| && grown[u] + need[u] <= grown[u + 1] <= |mem|
    && mem[grown[u] + need[u]..grown[u + 1]] == ts[index[u]..index[u + 1]]
  }

  /** Moves one list up by `shift`, last element first; source and target may overlap. */
  method SpreadOne(mem: array<nat>, newStart: nat, end: nat, shift: nat, tail: int) returns (tailIndex: int)
    requires shift <= newStart <= end <= mem.Length && tail == end - 1
    modifies mem
    ensures tailIndex == newStart - 1
    ensures forall t :: newStart <= t < end ==> mem[t] == old(mem[t - shift])
    ensures forall t :: 0 <= t < mem.Length && !(newStart <= t < end) ==> mem[t] == old(mem[t])
  {
    tailIndex := tail;
    var i: int := end - 1;
    while i >= newStart
      invariant newStart - 1 <= i < end && tailIndex == i
      invariant forall t :: 0 <= t < mem.Length ==>
                  mem[t] == if i < t < end then old(mem[t - shift]) else old(mem[t])
    {
      mem[tailIndex] := mem[i - shift];
      tailIndex := tailIndex - 1;
      i := i - 1;
    }
  }

  ghost predicate Spreading(n: nat, index: seq<nat>, need: seq<nat>, grown: seq<nat>, ts: seq<nat>, mem: seq<nat>, k: nat) {
    && Grown(n, index, need, grown) && k <= n && |ts| == index[n] && |mem| == grown[n]
    && index[k] <= |ts| && index[k] <= |mem| && mem[..index[k]] == ts[..index[k]]
    && forall u: nat :: k <= u < n ==> SpreadAt(index, need, grown, ts, mem, u)
  }

  lemma SpreadNext(n: nat, index: seq<nat>, need: seq<nat>, grown: seq<nat>, ts: seq<nat>, mem: seq<nat>, mem': seq<nat>, k: nat)
    requires Spreading(n, index, need, grown, ts, mem, k + 1) && |mem'| == |mem| && k < n
    requires GrownAt(index, need, grown, k) && index[k + 1] <= grown[k + 1] <= |mem| && index[k] <= grown[k]
    requires forall t :: grown[k] + need[k] <= t < grown[k + 1] ==> mem'[t] == mem[t - (grown[k + 1] - index[k + 1])]
    requires forall t :: 0 <= t < |mem| && !(grown[k] + need[k] <= t < grown[k + 1]) ==> mem'[t] == mem[t]
    ensures Spreading(n, index, need, grown, ts, mem', k)
  {
    GrownBounds(n, index, need, grown, k, n);
    forall t | 0 <= t < index[k]
      ensures mem'[t] == ts[t]
    {
      assert mem[..index[k + 1]][t] == ts[..index[k + 1]][t];
    }
    forall u: nat | k <= u < n
      ensures SpreadAt(index, need, grown, ts, mem', u)
    {
      if u == k {
        var a, b := grown[k] + need[k], grown[k + 1];
        forall t | a <= t < b
          ensures mem'[t] == ts[t - a + index[k]]
        {
          assert mem[..index[k + 1]][t - a + index[k]] == ts[t - a + index[k]];
        }
        assert mem'[a..b] == ts[index[k]..index[k + 1]];
      } else {
        assert SpreadAt(index, need, grown, ts, mem, u);
        GrownBounds(n, index, need, grown, k + 1, u);
        var a, b := grown[u] + need[u], grown[u + 1];
        forall t | a <= t < b
          ensures mem'[t] == mem[t]
        {
        }
        assert mem'[a..b] == mem[a..b];
      }
    }
  }

  method Spread(n: nat, ghost index: seq<nat>, offsets: array<nat>, invs: array<nat>, mem: array<nat>, totalMissing: nat, ghost ts: seq<nat>)
    requires offsets.Length == n + 1 && invs.Length == n && mem != offsets && mem != invs
    requires Spreading(n, index, invs[..], offsets[..], ts, mem[..], n) && totalMissing + index[n] == offsets[n]
    modifies mem
    ensures Spreading(n, index, invs[..], offsets[..], ts, mem[..], 0)
  {
    ghost var need, grown := invs[..], offsets[..];
    var total := totalMissing;
    var tailIndex: int := (offsets[n] as int) - 1;
    var k := n;
    while k > 0
      invariant 0 <= k <= n && invs[..] == need && offsets[..] == grown
      invariant Spreading(n, index, need, grown, ts, mem[..], k)
      invariant total + index[k] == grown[k] && tailIndex + 1 == grown[k]
    {
      k := k - 1;
      assert GrownAt(index, need, grown, k);
      GrownBounds(n, index, need, grown, k, k);
      GrownBounds(n, index, need, grown, k, k + 1);
      GrownBounds(n, index, need, grown, k + 1, n);
      ghost var m0 := mem[..];
      var newStart := offsets[k] + invs[k];
      tailIndex := SpreadOne(mem, newStart, offsets[k + 1], total, tailIndex);
      SpreadNext(n, index, need, grown, ts, m0, mem[..], k);
      total := total - invs[k];
      tailIndex := tailIndex - invs[k];
    }
  }

  // ---- step 3: fill the room ----

  datatype Room = Room(base: Layout, need: seq<nat>, grown: seq<nat>)

  ghost predicate IsGrid(r: Room) {
    && IsBase(r.base)
    && Grown(r.base.n, r.base.index, r.need, r.grown)
    && r.need == Degrees(Missing(r.base.es, |r.base.es|), r.base.n)
  }

  type Grid = r: Room | IsGrid(r) ghost witness Room(Layout([], 0, [0]), [], [0])

  ghost function BaseList(b: Layout, v: nat): seq<nat> { Select(OutOps(b.es), v) }

  ghost function Rev(s: seq<nat>): (r: seq<nat>)
    ensures |r| == |s|
  {
    seq(|s|, i requires 0 <= i < |s| => s[|s| - 1 - i])
  }

  /** The list of v so far: the inverses added, latest first, then the old list. */
  ghost function Current(g: Room, done: seq<Op>, v: nat): seq<nat> {
    Rev(Select(done, v)) + BaseList(g.base, v)
  }

  ghost predicate FilledAt(g: Room, done: seq<Op>, mem: seq<nat>, invs: seq<nat>, v: nat) {
    && v < |invs| && v < |g.need| && v + 1 < |g.grown|
    && invs[v] + |Select(done, v)| == g.need[v]
    && g.grown[v] + invs[v] <= g.grown[v + 1] <= |mem|
    && mem[g.grown[v] + invs[v]..g.grown[v + 1]] == Current(g, done, v)
  }

  ghost predicate Filling(g: Room, done: seq<Op>, mem: seq<nat>, invs: seq<nat>) {
    && |invs| == g.base.n && |g.grown| == g.base.n + 1 && |mem| == g.grown[g.base.n]
    && forall v: nat :: v < g.base.n ==> FilledAt(g, done, mem, invs, v)
  }

  lemma FillOwn(g: Grid, done: seq<Op>, mem: seq<nat>, invs: seq<nat>, v: nat, u: nat)
    requires v < g.base.n && FilledAt(g, done, mem, invs, v) && invs[v] > 0
    ensures FilledAt(g, done + [Op(v, u)], mem[g.grown[v] + invs[v] - 1 := u], invs[v := invs[v] - 1], v)
  {
    SelectSnoc(done, Op(v, u), v);
    assert Rev(Select(done, v) + [u]) == [u] + Rev(Select(done, v));
    var a, b := g.grown[v] + invs[v], g.grown[v + 1];
    var mem' := mem[a - 1 := u];
    assert mem'[a - 1..b] == [u] + mem[a..b];
  }

  lemma FillOther(g: Grid, done: seq<Op>, mem: seq<nat>, invs: seq<nat>, v: nat, u: nat, w: nat)
    requires v < g.base.n && w < g.base.n && w != v
    requires FilledAt(g, done, mem, invs, v) && FilledAt(g, done, mem, invs, w) && invs[v] > 0
    ensures FilledAt(g, done + [Op(v, u)], mem[g.grown[v] + invs[v] - 1 := u], invs[v := invs[v] - 1], w)
  {
    SelectSnoc(done, Op(v, u), w);
    if w < v {
      GrownBounds(g.base.n, g.base.index, g.need, g.grown, w + 1, v);
    } else {
      GrownBounds(g.base.n, g.base.index, g.need, g.grown, v + 1, w);
    }
    assert Current(g, done + [Op(v, u)], w) == Current(g, done, w);
    UpdateOutside(mem, g.grown[v] + invs[v] - 1, u, g.grown[w] + invs[w], g.grown[w + 1]);
  }

  lemma UpdateOutside(mem: seq<nat>, slot: nat, x: nat, a: nat, b: nat)
    requires a <= b <= |mem| && slot < |mem| && (slot < a || slot >= b)
    ensures mem[slot := x][a..b] == mem[a..b]
  {
  }

  /** Writing one inverse into the last free slot of v's range. */
  lemma FillStep(g: Grid, done: seq<Op>, mem: seq<nat>, invs: seq<nat>, v: nat, u: nat)
    requires Filling(g, done, mem, invs) && v < g.base.n && invs[v] > 0
    ensures g.grown[v] + invs[v] - 1 < |mem|
    ensures Filling(g, done + [Op(v, u)], mem[g.grown[v] + invs[v] - 1 := u], invs[v := invs[v] - 1])
  {
    assert FilledAt(g, done, mem, invs, v);
    var mem', invs' := mem[g.grown[v] + invs[v] - 1 := u], invs[v := invs[v] - 1];
    forall w: nat | w < g.base.n
      ensures FilledAt(g, done + [Op(v, u)], mem', invs', w)
    {
      assert FilledAt(g, done, mem, invs, w);
      if w == v {
        FillOwn(g, done, mem, invs, v, u);
      } else {
        FillOther(g, done, mem, invs, v, u, w);
      }
    }
  }

  /** Every inverse already added to v comes from a source before u. */
  ghost predicate AddedBelow(es: seq<Edge>, k: nat, v: nat, u: nat)
    requires k <= |es|
  {
    forall i :: 0 <= i < |Select(Missing(es, k), v)| ==> Select(Missing(es, k), v)[i] < u
  }

  lemma ReversedPartition(r: seq<nat>, l: seq<nat>, u: nat)
    requires StrictlySorted(l, NatLess) && forall i :: 0 <= i < |r| ==> r[i] < u
    ensures PartitionedBy(Rev(r) + l, u) && (u in Rev(r) + l <==> u in l)
  {
    AscendingPartitioned(l, u);
    var s := Rev(r) + l;
    forall i | 0 <= i < |r|
      ensures s[i] < u
    {
      assert s[i] == r[|r| - 1 - i];
    }
    forall i | |r| <= i < |s|
      ensures s[i] == l[i - |r|]
    {
    }
    if u in s {
      var i :| 0 <= i < |s| && s[i] == u;
      assert l[i - |r|] == u;
    }
  }

  /** The list searched in step 3 is not sorted, but it is partitioned by the key, and the answer
      is whether the edge had its inverse from the start. */
  lemma SearchUnsorted(g: Grid, k: nat, mem: seq<nat>, invs: seq<nat>, v: nat, u: nat)
    requires k <= |g.base.es| && v < g.base.n && Filling(g, Missing(g.base.es, k), mem, invs)
    requires AddedBelow(g.base.es, k, v, u)
    ensures g.grown[v] + invs[v] <= g.grown[v + 1] <= |mem|
    ensures PartitionedBy(mem[g.grown[v] + invs[v]..g.grown[v + 1]], u)
    ensures u in mem[g.grown[v] + invs[v]..g.grown[v + 1]] <==> Edge(v, u) in g.base.es
  {
    assert FilledAt(g, Missing(g.base.es, k), mem, invs, v);
    SelectAscends(g.base.es, g.base.n, v);
    ReversedPartition(Select(Missing(g.base.es, k), v), BaseList(g.base, v), u);
  }

  /** Room is left as long as an inverse is still missing. */
  lemma RoomLeft(g: Grid, k: nat, mem: seq<nat>, invs: seq<nat>)
    requires k < |g.base.es| && Filling(g, Missing(g.base.es, k), mem, invs)
    requires Edge(g.base.es[k].v, g.base.es[k].u) !in g.base.es && g.base.es[k].v < g.base.n
    ensures invs[g.base.es[k].v] > 0
  {
    var es, v, u := g.base.es, g.base.es[k].v, g.base.es[k].u;
    assert FilledAt(g, Missing(es, k), mem, invs, v);
    SelectSnoc(Missing(es, k), Op(v, u), v);
    MissingPrefix(es, k + 1, |es|);
    assert Missing(es, |es|)[..|Missing(es, k + 1)|] == Missing(es, k + 1);
    SelectPrefix(Missing(es, |es|), |Missing(es, k + 1)|, v);
    assert g.need[v] == Degrees(Missing(es, |es|), g.base.n)[v];
  }

  /** One search of step 3, and the insertion when it fails. */
  method FillOne(ghost g: Grid, grown: seq<nat>, mem: array<nat>, invs: array<nat>, u: nat, v: nat, ghost k: nat)
    requires grown == g.grown && mem != invs && k <= |g.base.es| && v < g.base.n && u < g.base.n && v != u
    requires Filling(g, Missing(g.base.es, k), mem[..], invs[..]) && AddedBelow(g.base.es, k, v, u)
    requires Edge(v, u) in g.base.es || (k < |g.base.es| && g.base.es[k] == Edge(u, v))
    modifies mem, invs
    ensures Edge(v, u) in g.base.es ==> Filling(g, Missing(g.base.es, k), mem[..], invs[..])
    ensures Edge(v, u) !in g.base.es ==> Filling(g, Missing(g.base.es, k + 1), mem[..], invs[..])
    ensures invs[u] == old(invs[u])
  {
    ghost var es, m0, i0 := g.base.es, mem[..], invs[..];
    SearchUnsorted(g, k, m0, i0, v, u);
    assert mem[grown[v] + invs[v]..grown[v + 1]] == m0[grown[v] + i0[v]..grown[v + 1]];
    var invFound := BinarySearch(mem[grown[v] + invs[v]..grown[v + 1]], u);
    if !invFound {
      RoomLeft(g, k, m0, i0);
      FillStep(g, Missing(es, k), m0, i0, v, u);
      mem[grown[v] + invs[v] - 1] := u;
      invs[v] := invs[v] - 1;
      assert mem[..] == m0[grown[v] + i0[v] - 1 := u] && invs[..] == i0[v := i0[v] - 1];
      assert Missing(es, k + 1) == Missing(es, k) + [Op(v, u)];
    }
  }

  /** While u is the source, every inverse added earlier to the vertex of its k-th edge, or to a
      vertex that was added to u itself, comes from before u. */
  lemma AddedBelowEdge(b: Base, k: nat)
    requires k < |b.es|
    ensures AddedBelow(b.es, k, b.es[k].v, b.es[k].u)
  {
    var v, u := b.es[k].v, b.es[k].u;
    var sel := Select(Missing(b.es, k), v);
    forall i | 0 <= i < |sel|
      ensures sel[i] < u
    {
      assert sel[i] in sel;
      SelectMembers(Missing(b.es, k), v, sel[i]);
      MissingMembers(b.es, k, v, sel[i]);
      var j :| 0 <= j < k && b.es[..k][j] == Edge(sel[i], v);
      assert EdgeLess(b.es[j], b.es[k]);
    }
  }

  lemma AddedBelowSource(b: Base, u: nat, v: nat)
    requires u < b.n && b.index[u] <= |b.es|
    ensures AddedBelow(b.es, b.index[u], v, u)
  {
    var k := b.index[u];
    var sel := Select(Missing(b.es, k), v);
    forall i | 0 <= i < |sel|
      ensures sel[i] < u
    {
      assert sel[i] in sel;
      SelectMembers(Missing(b.es, k), v, sel[i]);
      MissingMembers(b.es, k, v, sel[i]);
      var j :| 0 <= j < k && b.es[..k][j] == Edge(sel[i], v);
      SourceBefore(b, j, u);
    }
  }

  lemma {:induction false} IndexMono(b: Base, i: nat, j: nat)
    requires i <= j <= b.n
    ensures b.index[i] <= b.index[j]
    decreases j
  {
    if i < j {
      IndexMono(b, i, j - 1);
      assert EdgesAt(b.es, b.index, j - 1);
    }
  }

  lemma SourceBefore(b: Base, j: nat, u: nat)
    requires j < |b.es| && u < b.n && j < b.index[u]
    ensures b.es[j].u < u
  {
    assert OwnRangeAt(b.es, b.index, j);
    if b.es[j].u >= u {
      IndexMono(b, u, b.es[j].u);
    }
  }

  lemma WalkAdded(g: Grid, mem: seq<nat>, invs: seq<nat>, u: nat, i: nat)
    requires u < g.base.n && g.base.index[u] <= |g.base.es|
    requires Filling(g, Missing(g.base.es, g.base.index[u]), mem, invs)
    requires g.grown[u] + invs[u] <= i < g.grown[u] + g.need[u]
    ensures i < |mem| && mem[i] < g.base.n && mem[i] != u && Edge(mem[i], u) in g.base.es
  {
    var k, es := g.base.index[u], g.base.es;
    assert FilledAt(g, Missing(es, k), mem, invs, u);
    var sel := Select(Missing(es, k), u);
    var p := i - (g.grown[u] + invs[u]);
    assert mem[g.grown[u] + invs[u]..g.grown[u + 1]][p] == Current(g, Missing(es, k), u)[p] == sel[|sel| - 1 - p];
    assert mem[i] in sel;
    SelectMembers(Missing(es, k), u, mem[i]);
    MissingMembers(es, k, u, mem[i]);
    var j :| 0 <= j < k && es[..k][j] == Edge(mem[i], u);
    assert es[j] == Edge(mem[i], u);
  }

  lemma BaseEntry(b: Base, u: nat, k: nat)
    requires u < b.n && b.index[u] <= k < b.index[u + 1] <= |b.es|
    ensures |BaseList(b, u)| == b.index[u + 1] - b.index[u]
    ensures b.es[k] == Edge(u, BaseList(b, u)[k - b.index[u]])
  {
    assert BaseListAt(b.es, b.index, u) && EdgesAt(b.es, b.index, u);
    assert Targets(b.es)[b.index[u]..b.index[u + 1]][k - b.index[u]] == Targets(b.es)[k];
  }

  /** Behind the inverses added to u stands its own list. */
  lemma OwnPart(g: Room, done: seq<Op>, mem: seq<nat>, invs: seq<nat>, u: nat, j: nat, i: nat)
    requires FilledAt(g, done, mem, invs, u) && j < |BaseList(g.base, u)|
    requires i == g.grown[u] + g.need[u] + j < g.grown[u + 1]
    ensures i < |mem| && mem[i] == BaseList(g.base, u)[j]
  {
    var a, b, r := g.grown[u] + invs[u], g.grown[u + 1], |Select(done, u)|;
    assert mem[a..b][r + j] == Current(g, done, u)[r + j];
  }

  lemma WalkOwn(g: Grid, k: nat, mem: seq<nat>, invs: seq<nat>, u: nat, i: nat)
    requires u < g.base.n && g.base.index[u] <= k < g.base.index[u + 1] <= |g.base.es|
    requires FilledAt(g, Missing(g.base.es, k), mem, invs, u)
    requires i == g.grown[u] + g.need[u] + (k - g.base.index[u])
    ensures i < |mem| && g.base.es[k].u == u && g.base.es[k].v == mem[i]
  {
    assert GrownAt(g.base.index, g.need, g.grown, u);
    BaseEntry(g.base, u, k);
    OwnPart(g, Missing(g.base.es, k), mem, invs, u, k - g.base.index[u], i);
  }

  /** Edge index reached when the walk over u's list stands at position i: the inverses added to
      u come first and count for nothing. */
  ghost function EdgeReached(g: Room, u: nat, i: nat): nat
    requires u < |g.base.index| && u < |g.grown| && u < |g.need|
  {
    var middle := g.grown[u] + g.need[u];
    g.base.index[u] + if i < middle then 0 else i - middle
  }

  /** Searching u in v's list is sound, and fails exactly when edge k is (u, v) and its inverse
      is missing; k' is the edge reached after it. */
  ghost predicate GoodStep(g: Room, u: nat, v: nat, k: nat, k': nat) {
    && v < g.base.n && v != u && k <= |g.base.es| && k' <= |g.base.es|
    && AddedBelow(g.base.es, k, v, u)
    && (Edge(v, u) in g.base.es ==> Missing(g.base.es, k') == Missing(g.base.es, k))
    && (Edge(v, u) !in g.base.es ==> k' == k + 1 && g.base.es[k].u == u && g.base.es[k].v == v)
  }

  lemma AddedPosition(g: Grid, mem: seq<nat>, invs: seq<nat>, u: nat, i: nat)
    requires u < g.base.n && g.base.index[u] <= |g.base.es|
    requires Filling(g, Missing(g.base.es, g.base.index[u]), mem, invs)
    requires g.grown[u] + invs[u] <= i < g.grown[u] + g.need[u]
    ensures i < |mem| && GoodStep(g, u, mem[i], g.base.index[u], g.base.index[u])
  {
    WalkAdded(g, mem, invs, u, i);
    AddedBelowSource(g.base, u, mem[i]);
  }

  lemma OwnPosition(g: Grid, k: nat, mem: seq<nat>, invs: seq<nat>, u: nat, i: nat)
    requires u < g.base.n && g.base.index[u] <= k < g.base.index[u + 1] <= |g.base.es|
    requires FilledAt(g, Missing(g.base.es, k), mem, invs, u)
    requires i == g.grown[u] + g.need[u] + (k - g.base.index[u])
    ensures i < |mem| && GoodStep(g, u, mem[i], k, k + 1)
  {
    WalkOwn(g, k, mem, invs, u, i);
    AddedBelowEdge(g.base, k);
  }

  lemma WalkPosition(g: Grid, mem: seq<nat>, invs: seq<nat>, u: nat, i: nat, k: nat)
    requires u < g.base.n && EdgesAt(g.base.es, g.base.index, u) && GrownAt(g.base.index, g.need, g.grown, u)
    requires k == EdgeReached(g, u, i) && k <= |g.base.es|
    requires Filling(g, Missing(g.base.es, k), mem, invs)
    requires g.grown[u] + invs[u] <= i < g.grown[u + 1]
    ensures i < |mem| && GoodStep(g, u, mem[i], k, EdgeReached(g, u, i + 1))
  {
    if i < g.grown[u] + g.need[u] {
      AddedPosition(g, mem, invs, u, i);
    } else {
      assert FilledAt(g, Missing(g.base.es, k), mem, invs, u);
      OwnPosition(g, k, mem, invs, u, i);
    }
  }

  /** One position of the walk. */
  method FillPosition(ghost g: Grid, grown: seq<nat>, mem: array<nat>, invs: array<nat>, u: nat, v: nat, ghost k: nat, ghost k': nat)
    requires grown == g.grown && mem != invs && u < g.base.n && GoodStep(g, u, v, k, k')
    requires Filling(g, Missing(g.base.es, k), mem[..], invs[..])
    modifies mem, invs
    ensures Filling(g, Missing(g.base.es, k'), mem[..], invs[..])
    ensures invs[u] == old(invs[u])
  {
    FillOne(g, grown, mem, invs, u, v, k);
  }

  /** Step 3 for one source. */
  method FillSource(ghost g: Grid, grown: seq<nat>, mem: array<nat>, invs: array<nat>, u: nat)
    requires grown == g.grown && mem != invs && u < g.base.n
    requires EdgesAt(g.base.es, g.base.index, u) && GrownAt(g.base.index, g.need, g.grown, u)
    requires Filling(g, Missing(g.base.es, g.base.index[u]), mem[..], invs[..])
    modifies mem, invs
    ensures Filling(g, Missing(g.base.es, g.base.index[u + 1]), mem[..], invs[..])
  {
    ghost var k, ms, vs := g.base.index[u], mem[..], invs[..];
    WalkBounds(g, k, ms, vs, u);
    var start := grown[u] + invs[u];
    for i := start to grown[u + 1]
      invariant k == EdgeReached(g, u, i) && k <= |g.base.es|
      invariant mem[..] == ms && invs[..] == vs && grown[u] + vs[u] == start
      invariant Filling(g, Missing(g.base.es, k), ms, vs)
    {
      WalkPosition(g, ms, vs, u, i, k);
      FillPosition(g, grown, mem, invs, u, mem[i], k, EdgeReached(g, u, i + 1));
      k, ms, vs := EdgeReached(g, u, i + 1), mem[..], invs[..];
    }
  }

  lemma WalkBounds(g: Grid, k: nat, mem: seq<nat>, invs: seq<nat>, u: nat)
    requires u < g.base.n && GrownAt(g.base.index, g.need, g.grown, u) && EdgesAt(g.base.es, g.base.index, u)
    requires k <= |g.base.es| && Filling(g, Missing(g.base.es, k), mem, invs)
    ensures g.grown[u] + invs[u] <= g.grown[u + 1] <= |mem| && invs[u] <= g.need[u]
    ensures EdgeReached(g, u, g.grown[u] + invs[u]) == g.base.index[u]
    ensures EdgeReached(g, u, g.grown[u + 1]) == g.base.index[u + 1]
  {
    assert FilledAt(g, Missing(g.base.es, k), mem, invs, u);
  }

  method FillAll(ghost g: Grid, n: nat, grown: seq<nat>, mem: array<nat>, invs: array<nat>)
    requires n == g.base.n && grown == g.grown && mem != invs
    requires Filling(g, [], mem[..], invs[..])
    modifies mem, invs
    ensures Filling(g, Missing(g.base.es, |g.base.es|), mem[..], invs[..])
  {
    ghost var k := 0;
    assert Missing(g.base.es, 0) == [];
    for u := 0 to n
      invariant k == g.base.index[u] && k <= |g.base.es|
      invariant Filling(g, Missing(g.base.es, k), mem[..], invs[..])
    {
      assert EdgesAt(g.base.es, g.base.index, u) && GrownAt(g.base.index, g.need, g.grown, u);
      FillSource(g, grown, mem, invs, u);
      k := g.base.index[u + 1];
    }
  }
}
