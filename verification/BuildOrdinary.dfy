/**
 * The ordinary builder: scatter every insertion with fetch-and-add, in whatever order those take
 * effect, then squish each neighbour list.
 */
module BuildOrdinary {
  import opened Sorting
  import opened CsrSpec
  import opened BuildSteps

  /** One fetch-and-add on the offset of the key, and the store it makes room for. */
  method ScatterOne(offsets: array<nat>, neighs: array<nat>, ghost ops: seq<Op>, ghost k: nat, ghost n: nat, op: Op)
    requires k < |ops| && ops[k] == op && op.key < n && offsets != neighs
    requires Scattered(ops, k, n, offsets[..], neighs[..])
    modifies offsets, neighs
    ensures Scattered(ops, k + 1, n, offsets[..], neighs[..])
  {
    ghost var o0, n0 := offsets[..], neighs[..];
    ScatterStep(ops, k, n, o0, n0);
    var slot := offsets[op.key];
    offsets[op.key] := slot + 1;
    neighs[slot] := op.val;
    assert offsets[..] == o0[op.key := slot + 1] && neighs[..] == n0[slot := op.val];
  }

  /** `order` is the order in which the concurrent fetch-and-adds take effect. */
  method MakeCSR(el: seq<Edge>, n: nat, symmetrize: bool, transpose: bool, blockSize: nat, order: seq<Op>)
    returns (index: seq<nat>, neighs: array<nat>)
    requires InRange(el, n) && blockSize > 0
    requires multiset(order) == multiset(Insertions(el, CountForward(symmetrize, transpose),
                                                    CountBackward(symmetrize, false, transpose)))
    ensures fresh(neighs) && IsPrefixSum(index, Degrees(order, n)) && neighs.Length == SumTo(Degrees(order, n), n)
    ensures WellFormed(Csr(index, neighs[..]), n)
    ensures forall u: nat :: u < n ==> List(Csr(index, neighs[..]), n, u) == Select(order, u)
  {
    ghost var ops := Insertions(el, CountForward(symmetrize, transpose), CountBackward(symmetrize, false, transpose));
    var degrees := CountDegrees(el, n, symmetrize, false, transpose);
    DegreesAgree(ops, order, n);
    KeysInRange(el, n, ops, order, CountForward(symmetrize, transpose), CountBackward(symmetrize, false, transpose));
    var offsets := ParallelPrefixSum(degrees, blockSize);
    index := offsets[..];
    neighs := new nat[offsets[n]];
    ScatterStart(order, n, offsets[..], neighs[..]);
    for k := 0 to |order|
      modifies offsets, neighs
      invariant Scattered(order, k, n, offsets[..], neighs[..])
    {
      ScatterOne(offsets, neighs, order, k, n, order[k]);
    }
    ScatteredIsCsr(order, n, offsets[..], neighs[..], index);
  }

  lemma KeysInRange(el: seq<Edge>, n: nat, ops: seq<Op>, order: seq<Op>, fwd: bool, bwd: bool)
    requires InRange(el, n) && ops == Insertions(el, fwd, bwd) && multiset(order) == multiset(ops)
    ensures forall k :: 0 <= k < |order| ==> order[k].key < n
  {
    InsertionsInRange(el, n, fwd, bwd);
    forall k | 0 <= k < |order|
      ensures order[k].key < n
    {
      assert order[k] in multiset(order);
      assert order[k] in ops;
    }
  }

  lemma {:induction false} ScatteredIsCsr(ops: seq<Op>, n: nat, offs: seq<nat>, out: seq<nat>, index: seq<nat>)
    requires Scattered(ops, |ops|, n, offs, out) && IsPrefixSum(index, Degrees(ops, n)) && |out| == SumTo(Degrees(ops, n), n)
    ensures WellFormed(Csr(index, out), n)
    ensures forall u: nat :: u < n ==> List(Csr(index, out), n, u) == Select(ops, u)
  {
    hide Scattered, Select, SumTo, Degrees;
    FirstAndLast(index, Degrees(ops, n));
    forall u: nat | u < n
      ensures RangeHolds(index, out, u, Select(ops, u))
    {
      ScatterEnd(ops, n, offs, out, u);
    }
    forall u: nat | u < n
      ensures StepUp(index, u)
    {
      assert RangeHolds(index, out, u, Select(ops, u));
    }
    forall u: nat | u < n
      ensures List(Csr(index, out), n, u) == Select(ops, u)
    {
      assert RangeHolds(index, out, u, Select(ops, u));
    }
  }

  ghost predicate RangeHolds(index: seq<nat>, out: seq<nat>, u: nat, list: seq<nat>) {
    u + 1 < |index| && index[u] <= index[u + 1] <= |out| && out[index[u]..index[u + 1]] == list
  }

  lemma FirstAndLast(sums: seq<nat>, d: seq<nat>)
    requires IsPrefixSum(sums, d)
    ensures sums[0] == 0 && sums[|d|] == SumTo(d, |d|)
  {
  }

  // ---- squishing ----

  function IsNode(self: nat): nat -> bool { x => x == self }

  /** sort, unique, remove: the list of one vertex without duplicates and without itself. */
  function Squished(list: seq<nat>, self: nat): (r: seq<nat>)
  {
    RemoveIf(Unique(Sort(list, NatLess)), IsNode(self))
  }

  lemma SquishedSpec(list: seq<nat>, self: nat)
    ensures |Squished(list, self)| <= |list|
    ensures StrictlySorted(Squished(list, self), NatLess)
    ensures forall x: nat :: x in Squished(list, self) <==> x in list && x != self
  {
    NatLessIsOrder();
    SortSorts(list, NatLess);
    SortMembers(list, NatLess);
    UniqueStrict(Sort(list, NatLess), NatLess);
    RemoveIfKeeps(Unique(Sort(list, NatLess)), IsNode(self), NatLess);
  }

  /** The u-th of consecutive ranges of the given lengths holds the given list. */
  ghost predicate LaidAt(lens: seq<nat>, u: nat, out: seq<nat>, list: seq<nat>) {
    && u < |lens| && SumTo(lens, u) <= SumTo(lens, u + 1) <= |out|
    && out[SumTo(lens, u)..SumTo(lens, u + 1)] == list
  }

  lemma LaidAtStays(lens: seq<nat>, u: nat, k: nat, out: seq<nat>, out': seq<nat>, list: seq<nat>)
    requires LaidAt(lens, u, out, list) && u < k < |lens| && |out'| == |out| && SumTo(lens, k) <= |out|
    requires forall i :: 0 <= i < SumTo(lens, k) ==> out'[i] == out[i]
    ensures LaidAt(lens, u, out', list)
  {
    SumToMono(lens, u + 1, k);
  }

  /** copy from one array range to another array. */
  method CopyRange(src: array<nat>, from: nat, dst: array<nat>, to: nat, len: nat)
    requires src != dst && from + len <= src.Length && to + len <= dst.Length
    modifies dst
    ensures forall i :: 0 <= i < dst.Length ==> dst[i] == if to <= i < to + len then src[from + i - to] else old(dst[i])
  {
    for j := 0 to len
      invariant forall i :: 0 <= i < dst.Length ==> dst[i] == if to <= i < to + j then src[from + i - to] else old(dst[i])
    {
      dst[to + j] := src[from + j];
    }
  }

  /** Stores a list into consecutive cells. */
  method WriteBack(a: array<nat>, start: nat, r: seq<nat>)
    requires start + |r| <= a.Length
    modifies a
    ensures forall i :: start <= i < start + |r| ==> a[i] == r[i - start]
    ensures forall i :: 0 <= i < a.Length && !(start <= i < start + |r|) ==> a[i] == old(a[i])
  {
    for j := 0 to |r|
      invariant forall i :: start <= i < start + j ==> a[i] == r[i - start]
      invariant forall i :: 0 <= i < a.Length && !(start <= i < start + j) ==> a[i] == old(a[i])
    {
      a[start + j] := r[j];
    }
  }

  /** sort on one range, in place. */
  method SortRange(neighs: array<nat>, lo: nat, hi: nat)
    requires lo <= hi <= neighs.Length
    modifies neighs
    ensures neighs[lo..hi] == Sort(old(neighs[lo..hi]), NatLess)
    ensures forall i :: 0 <= i < neighs.Length && !(lo <= i < hi) ==> neighs[i] == old(neighs[i])
  {
    ghost var s := neighs[lo..hi];
    var r := Sort(neighs[lo..hi], NatLess);
    NatLessIsOrder();
    SortSorts(s, NatLess);
    WriteBack(neighs, lo, r);
    assert neighs[lo..hi] == r;
  }

  /** The three library calls on one range, in place; what lies behind the new end is unused. */
  method SquishRange(neighs: array<nat>, start: nat, end: nat, self: nat) returns (len: nat)
    requires start <= end <= neighs.Length
    modifies neighs
    ensures len <= end - start && neighs[start..start + len] == Squished(old(neighs[start..end]), self)
    ensures forall i :: 0 <= i < neighs.Length && !(start <= i < end) ==> neighs[i] == old(neighs[i])
  {
    ghost var list := neighs[start..end];
    var r := Squished(neighs[start..end], self);
    SquishedSpec(list, self);
    len := |r|;
    WriteBack(neighs, start, r);
    assert neighs[start..start + len] == r;
  }

  ghost function SquishedList(c: Csr, n: nat, u: nat): seq<nat>
    requires WellFormed(c, n) && u < n
  {
    Squished(List(c, n, u), u)
  }

  /** The range of u begins with its squished list, of length diffs[u]. */
  ghost predicate RangeSquished(c: Csr, n: nat, u: nat, diffs: seq<nat>, neighs: seq<nat>)
    requires WellFormed(c, n) && |diffs| == n && u < n
  {
    && c.offsets[u] + diffs[u] <= c.offsets[u + 1] <= |neighs|
    && neighs[c.offsets[u]..c.offsets[u] + diffs[u]] == SquishedList(c, n, u)
  }

  ghost predicate RangesSquished(c: Csr, n: nat, k: nat, diffs: seq<nat>, neighs: seq<nat>)
    requires WellFormed(c, n)
  {
    && |diffs| == n && k <= n && |neighs| == |c.neighs|
    && (forall u: nat :: u < k ==> RangeSquished(c, n, u, diffs, neighs))
    && (forall i :: c.offsets[k] <= i < |neighs| ==> neighs[i] == c.neighs[i])
  }

  lemma RangeStays(c: Csr, n: nat, u: nat, k: nat, diffs: seq<nat>, neighs: seq<nat>, len: nat, neighs': seq<nat>)
    requires WellFormed(c, n) && u < k < n && |diffs| == n && |neighs'| == |neighs| && RangeSquished(c, n, u, diffs, neighs)
    requires forall i :: 0 <= i < |neighs| && i < c.offsets[k] ==> neighs'[i] == neighs[i]
    ensures RangeSquished(c, n, u, diffs[k := len], neighs')
  {
    OffsetsMono(c, n, u + 1, k);
    var a, b := c.offsets[u], c.offsets[u] + diffs[u];
    assert neighs'[a..b] == neighs[a..b];
  }

  lemma SquishNext(c: Csr, n: nat, k: nat, diffs: seq<nat>, neighs: seq<nat>, len: nat, neighs': seq<nat>)
    requires WellFormed(c, n) && k < n && RangesSquished(c, n, k, diffs, neighs) && |neighs'| == |neighs|
    requires c.offsets[k] <= c.offsets[k + 1] <= |neighs| && c.offsets[k] + len <= c.offsets[k + 1]
    requires neighs'[c.offsets[k]..c.offsets[k] + len] == Squished(neighs[c.offsets[k]..c.offsets[k + 1]], k)
    requires forall i :: 0 <= i < |neighs| && !(c.offsets[k] <= i < c.offsets[k + 1]) ==> neighs'[i] == neighs[i]
    ensures RangesSquished(c, n, k + 1, diffs[k := len], neighs')
  {
    assert neighs[c.offsets[k]..c.offsets[k + 1]] == List(c, n, k);
    var diffs' := diffs[k := len];
    forall u: nat | u < k
      ensures RangeSquished(c, n, u, diffs', neighs')
    {
      RangeStays(c, n, u, k, diffs, neighs, len, neighs');
    }
  }

  /** First half: every range is sorted and shortened in place. */
  method SquishRanges(n: nat, index: seq<nat>, neighs: array<nat>) returns (diffs: array<nat>)
    requires WellFormed(Csr(index, neighs[..]), n)
    modifies neighs
    ensures fresh(diffs) && diffs.Length == n
    ensures RangesSquished(Csr(index, old(neighs[..])), n, n, diffs[..], neighs[..])
  {
    ghost var c := Csr(index, neighs[..]);
    diffs := new nat[n];
    for u := 0 to n
      modifies diffs, neighs
      invariant RangesSquished(c, n, u, diffs[..], neighs[..])
    {
      OffsetsMono(c, n, u, u + 1);
      ghost var d0, n0 := diffs[..], neighs[..];
      var len := SquishRange(neighs, index[u], index[u + 1], u);
      assert neighs[index[u]..index[u] + len] == Squished(n0[index[u]..index[u + 1]], u);
      diffs[u] := len;
      assert diffs[..] == d0[u := len];
      SquishNext(c, n, u, d0, n0, len, neighs[..]);
    }
  }

  method SquishCSR(n: nat, index: seq<nat>, neighs: array<nat>, blockSize: nat) returns (sqIndex: seq<nat>, sqNeighs: array<nat>)
    requires WellFormed(Csr(index, neighs[..]), n) && blockSize > 0
    modifies neighs
    ensures fresh(sqNeighs)
    ensures IsCsrOf(Csr(sqIndex, sqNeighs[..]), NeighbourSets(Csr(index, old(neighs[..])), n))
  {
    ghost var c := Csr(index, neighs[..]);
    var diffs := SquishRanges(n, index, neighs);
    sqIndex, sqNeighs := CopySquished(n, index, neighs, diffs, blockSize, c);
  }

  ghost predicate Copied(c: Csr, n: nat, lens: seq<nat>, k: nat, out: seq<nat>)
    requires WellFormed(c, n)
  {
    |out| == SumTo(lens, |lens|) && k <= n && forall u: nat :: u < k ==> LaidAt(lens, u, out, SquishedList(c, n, u))
  }

  lemma CopiedNext(c: Csr, n: nat, lens: seq<nat>, k: nat, neighs: seq<nat>, out: seq<nat>, out': seq<nat>)
    requires WellFormed(c, n) && |lens| == n && k < n && Copied(c, n, lens, k, out) && RangeSquished(c, n, k, lens, neighs)
    requires |out'| == |out| && SumTo(lens, k + 1) <= |out|
    requires forall i :: 0 <= i < |out| ==>
               out'[i] == if SumTo(lens, k) <= i < SumTo(lens, k + 1) then neighs[c.offsets[k] + i - SumTo(lens, k)] else out[i]
    ensures Copied(c, n, lens, k + 1, out')
  {
    NewList(c, n, lens, k, neighs, out');
    hide LaidAt, SquishedList, WellFormed, SumTo, RangeSquished;
    forall u: nat | u < k
      ensures LaidAt(lens, u, out', SquishedList(c, n, u))
    {
      LaidAtStays(lens, u, k, out, out', SquishedList(c, n, u));
    }
  }

  lemma {:induction false} NewList(c: Csr, n: nat, lens: seq<nat>, k: nat, neighs: seq<nat>, out: seq<nat>)
    requires WellFormed(c, n) && |lens| == n && k < n && RangeSquished(c, n, k, lens, neighs) && SumTo(lens, k + 1) <= |out|
    requires forall i :: SumTo(lens, k) <= i < SumTo(lens, k + 1) ==>
               0 <= c.offsets[k] + i - SumTo(lens, k) < |neighs| && out[i] == neighs[c.offsets[k] + i - SumTo(lens, k)]
    ensures LaidAt(lens, k, out, SquishedList(c, n, k))
  {
    var a, b := SumTo(lens, k), SumTo(lens, k + 1);
    assert out[a..b] == neighs[c.offsets[k]..c.offsets[k] + lens[k]];
  }

  /** Second half: offsets of the shortened lists, and the copy to fresh memory. */
  method CopySquished(n: nat, index: seq<nat>, neighs: array<nat>, diffs: array<nat>, blockSize: nat, ghost c: Csr)
    returns (sqIndex: seq<nat>, sqNeighs: array<nat>)
    requires WellFormed(c, n) && c.offsets == index && blockSize > 0 && diffs.Length == n
    requires RangesSquished(c, n, n, diffs[..], neighs[..])
    ensures fresh(sqNeighs) && IsCsrOf(Csr(sqIndex, sqNeighs[..]), NeighbourSets(c, n))
  {
    ghost var lens, src := diffs[..], neighs[..];
    var sqOffsets := ParallelPrefixSum(diffs, blockSize);
    sqIndex := sqOffsets[..];
    sqNeighs := new nat[sqOffsets[n]];
    for u := 0 to n
      modifies sqNeighs
      invariant Copied(c, n, lens, u, sqNeighs[..])
    {
      assert RangeSquished(c, n, u, lens, src);
      CopyList(u, index, neighs, diffs, sqIndex, sqNeighs, c, n);
    }
    CopiedIsCsr(c, n, lens, sqIndex, sqNeighs[..]);
  }

  /** One list goes to where the new offsets put it. */
  method CopyList(u: nat, index: seq<nat>, neighs: array<nat>, diffs: array<nat>, sqIndex: seq<nat>, sqNeighs: array<nat>,
                  ghost c: Csr, ghost n: nat)
    requires WellFormed(c, n) && c.offsets == index && u < n == diffs.Length && RangeSquished(c, n, u, diffs[..], neighs[..])
    requires IsPrefixSum(sqIndex, diffs[..]) && sqNeighs.Length == SumTo(diffs[..], n)
    requires sqNeighs != neighs && sqNeighs != diffs && Copied(c, n, diffs[..], u, sqNeighs[..])
    modifies sqNeighs
    ensures Copied(c, n, diffs[..], u + 1, sqNeighs[..])
  {
    ghost var lens, src, o0 := diffs[..], neighs[..], sqNeighs[..];
    SumToMono(lens, u + 1, n);
    CopyRange(neighs, index[u], sqNeighs, sqIndex[u], diffs[u]);
    CopiedNext(c, n, lens, u, src, o0, sqNeighs[..]);
  }

  /** The neighbours each list holds, the vertex itself excepted. */
  ghost function NeighbourSets(c: Csr, n: nat): (adj: seq<set<nat>>)
    requires WellFormed(c, n)
    ensures |adj| == n
  {
    seq(n, u requires 0 <= u < n => set x | x in List(c, n, u) && x != u)
  }

  lemma CopiedIsCsr(c: Csr, n: nat, lens: seq<nat>, sqIndex: seq<nat>, out: seq<nat>)
    requires WellFormed(c, n) && |lens| == n && IsPrefixSum(sqIndex, lens) && Copied(c, n, lens, n, out)
    ensures IsCsrOf(Csr(sqIndex, out), NeighbourSets(c, n))
  {
    forall i: nat | i < n
      ensures StepUp(sqIndex, i)
    {
      SumToMono(lens, i, i + 1);
    }
    forall u: nat | u < n
      ensures Holds(List(Csr(sqIndex, out), n, u), NeighbourSets(c, n)[u])
    {
      SquishedSpec(List(c, n, u), u);
      assert LaidAt(lens, u, out, SquishedList(c, n, u));
      assert List(Csr(sqIndex, out), n, u) == SquishedList(c, n, u);
    }
  }

  // ---- the whole ordinary build of one direction ----

  /** One direction of the graph the ordinary builder and SquishGraph return. */
  method BuildDirection(el: seq<Edge>, n: nat, symmetrize: bool, transpose: bool, blockSize: nat, order: seq<Op>)
    returns (index: seq<nat>, neighs: array<nat>)
    requires InRange(el, n) && blockSize > 0
    requires multiset(order) == multiset(Insertions(el, CountForward(symmetrize, transpose),
                                                    CountBackward(symmetrize, false, transpose)))
    ensures fresh(neighs)
    ensures IsCsrOf(Csr(index, neighs[..]), Adjacency(el, n, CountForward(symmetrize, transpose),
                                                      CountBackward(symmetrize, false, transpose)))
  {
    var index0, neighs0 := MakeCSR(el, n, symmetrize, transpose, blockSize, order);
    ghost var c := Csr(index0, neighs0[..]);
    index, neighs := SquishCSR(n, index0, neighs0, blockSize);
    SelectedNeighbours(el, n, CountForward(symmetrize, transpose), CountBackward(symmetrize, false, transpose), order, c);
  }

  lemma {:induction false} SelectedNeighbours(el: seq<Edge>, n: nat, fwd: bool, bwd: bool, order: seq<Op>, c: Csr)
    requires WellFormed(c, n) && multiset(order) == multiset(Insertions(el, fwd, bwd))
    requires forall u: nat :: u < n ==> List(c, n, u) == Select(order, u)
    ensures NeighbourSets(c, n) == Adjacency(el, n, fwd, bwd)
  {
    hide NeighbourSets, Adjacency, Insertions, Select, WellFormed, List;
    forall u: nat | u < n
      ensures NeighbourSets(c, n)[u] == Adjacency(el, n, fwd, bwd)[u]
    {
      ListedSet(c, n, u);
      SelectedSet(el, n, fwd, bwd, order, u);
    }
  }

  lemma {:induction false} ListedSet(c: Csr, n: nat, u: nat)
    requires WellFormed(c, n) && u < n
    ensures |NeighbourSets(c, n)| == n && NeighbourSets(c, n)[u] == set x | x in List(c, n, u) && x != u
  {
  }

  lemma {:induction false} SelectedSet(el: seq<Edge>, n: nat, fwd: bool, bwd: bool, order: seq<Op>, u: nat)
    requires u < n && multiset(order) == multiset(Insertions(el, fwd, bwd))
    ensures Adjacency(el, n, fwd, bwd)[u] == set x | x in Select(order, u) && x != u
  {
    hide Adjacency, Insertions, Select;
    forall x: nat
      ensures x in Adjacency(el, n, fwd, bwd)[u] <==> x != u && x in Select(order, u)
    {
      SelectedMember(el, n, fwd, bwd, order, u, x);
    }
  }

  lemma SelectedMember(el: seq<Edge>, n: nat, fwd: bool, bwd: bool, order: seq<Op>, u: nat, x: nat)
    requires u < n && multiset(order) == multiset(Insertions(el, fwd, bwd))
    ensures x in Adjacency(el, n, fwd, bwd)[u] <==> x != u && x in Select(order, u)
  {
    AdjacencyMembers(el, n, fwd, bwd, u, x);
    SelectMembers(order, u, x);
    InsertionsMembers(el, fwd, bwd, u, x);
    assert Op(u, x) in order <==> Op(u, x) in multiset(order);
    assert Op(u, x) in Insertions(el, fwd, bwd) <==> Op(u, x) in multiset(Insertions(el, fwd, bwd));
  }
}
