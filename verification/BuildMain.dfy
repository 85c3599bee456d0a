/**
 * The whole symmetric in-place build, and the agreement of the two builders.
 */
module BuildMain {
  import opened Pigeonhole
  import opened Sorting
  import opened CsrSpec
  import opened BuildSteps
  import opened BuildOrdinary
  import opened BuildInPlace
  import opened BuildSymmetric

  // ---- the base graph is a Base ----

  lemma BaseHolds(es: seq<Edge>, n: nat, index: seq<nat>)
    requires CleanEdges(es, n) && IsPrefixSum(index, Degrees(OutOps(es), n))
    requires WellFormed(BaseCsr(es, index), n)
    requires forall u: nat :: u < n ==> List(BaseCsr(es, index), n, u) == Select(OutOps(es), u)
    ensures IsBase(Layout(es, n, index))
  {
    OffsetsSplitEdges(es, n, index);
    forall v: nat | v < n
      ensures BaseListAt(es, index, v)
    {
      assert EdgesAt(es, index, v);
      assert List(BaseCsr(es, index), n, v) == Targets(es)[index[v]..index[v + 1]];
    }
    forall j: nat | j < |es|
      ensures OwnRangeAt(es, index, j)
    {
      EdgeRange(es, n, j, es[j].u);
    }
  }

  // ---- how much room there is ----

  lemma {:induction false} MissingLength(es: seq<Edge>, k: nat)
    requires k <= |es|
    ensures |Missing(es, k)| <= k
    decreases k
  {
    if k > 0 {
      MissingLength(es, k - 1);
    }
  }

  lemma {:induction false} GrownTotal(n: nat, index: seq<nat>, need: seq<nat>, grown: seq<nat>, k: nat)
    requires Grown(n, index, need, grown) && k <= n
    ensures grown[k] == index[k] + SumTo(need, k)
    decreases k
  {
    if k > 0 {
      assert GrownAt(index, need, grown, k - 1);
      GrownTotal(n, index, need, grown, k - 1);
    }
  }

  /** The enlarged graph always fits into the memory the edge list had. */
  lemma RoomFits(g: Grid)
    ensures |g.base.es| <= g.grown[g.base.n] <= 2 * |g.base.es|
  {
    var es, n := g.base.es, g.base.n;
    GrownTotal(n, g.base.index, g.need, g.grown, n);
    MissingInRange(es, n, |es|);
    DegreesTotal(Missing(es, |es|), n);
    MissingLength(es, |es|);
  }

  lemma SpreadIsFilling(g: Grid, mem: seq<nat>)
    requires Spreading(g.base.n, g.base.index, g.need, g.grown, Targets(g.base.es), mem, 0)
    ensures Filling(g, [], mem, g.need)
  {
    forall v: nat | v < g.base.n
      ensures FilledAt(g, [], mem, g.need, v)
    {
      assert SpreadAt(g.base.index, g.need, g.grown, Targets(g.base.es), mem, v);
      assert BaseListAt(g.base.es, g.base.index, v);
      assert Rev(Select([], v)) == [];
    }
  }

  // ---- the filled lists ----

  lemma {:induction false} MissingAscends(b: Base, k: nat, v: nat)
    requires k <= |b.es|
    ensures StrictlySorted(Select(Missing(b.es, k), v), NatLess)
    decreases k
  {
    hide StrictlySorted, Select, IsBase;
    if k == 0 {
      NothingSorted(v);
    } else {
      MissingAscends(b, k - 1, v);
      AddedBelowEdge(b, k - 1);
      var e := b.es[k - 1];
      AscendsStep(Missing(b.es, k - 1), Missing(b.es, k), Op(e.v, e.u), Edge(e.v, e.u) !in b.es, v);
    }
  }

  lemma NothingSorted(v: nat)
    ensures StrictlySorted(Select([], v), NatLess)
  {
  }

  lemma AscendsStep(m: seq<Op>, m': seq<Op>, op: Op, add: bool, v: nat)
    requires m' == m + if add then [op] else []
    requires StrictlySorted(Select(m, v), NatLess)
    requires op.key == v ==> forall i :: 0 <= i < |Select(m, v)| ==> Select(m, v)[i] < op.val
    ensures StrictlySorted(Select(m', v), NatLess)
  {
    if add {
      SelectSnoc(m, op, v);
      AppendStrict(Select(m, v), op.val, op.key == v);
    } else {
      assert m' == m;
    }
  }

  lemma AppendStrict(s: seq<nat>, x: nat, b: bool)
    requires StrictlySorted(s, NatLess) && (b ==> forall i :: 0 <= i < |s| ==> s[i] < x)
    ensures StrictlySorted(s + if b then [x] else [], NatLess)
  {
  }

  lemma {:induction false} SortStrict(s: seq<nat>)
    requires NoRepeat(s)
    ensures StrictlySorted(Sort(s, NatLess), NatLess)
  {
    NatLessIsOrder();
    if s != [] {
      SortStrict(s[1..]);
      SortMembers(s[1..], NatLess);
      assert s[0] !in s[1..];
      InsertStrict(s[0], Sort(s[1..], NatLess));
    }
  }

  lemma {:induction false} InsertStrict(x: nat, s: seq<nat>)
    requires StrictlySorted(s, NatLess) && x !in s
    ensures StrictlySorted(Insert(x, s, NatLess), NatLess)
  {
    if s == [] || !NatLess(s[0], x) {
      forall j | 0 <= j < |s|
        ensures x < s[j]
      {
        assert j > 0 ==> NatLess(s[0], s[j]);
      }
    } else {
      InsertStrict(x, s[1..]);
      InsertElements(x, s[1..], NatLess);
      var r := Insert(x, s[1..], NatLess);
      forall j | 0 <= j < |r|
        ensures s[0] < r[j]
      {
        assert r[j] in multiset(r);
        if r[j] != x {
          assert r[j] in s[1..];
          var i :| 0 <= i < |s[1..]| && s[1..][i] == r[j];
          assert NatLess(s[0], s[i + 1]);
        }
      }
    }
  }

  lemma CurrentNoRepeat(b: Base, v: nat, list: seq<nat>)
    requires v < b.n && list == Rev(Select(Missing(b.es, |b.es|), v)) + Select(OutOps(b.es), v)
    ensures NoRepeat(list)
  {
    var sel, own := Select(Missing(b.es, |b.es|), v), Select(OutOps(b.es), v);
    MissingAscends(b, |b.es|, v);
    SelectAscends(b.es, b.n, v);
    forall i, j | 0 <= i < j < |list|
      ensures list[i] != list[j]
    {
      if j < |sel| {
        assert NatLess(sel[|sel| - 1 - j], sel[|sel| - 1 - i]);
      } else if i >= |sel| {
        assert NatLess(own[i - |sel|], own[j - |sel|]);
      } else {
        assert list[i] in sel && list[j] in own;
        SelectMembers(Missing(b.es, |b.es|), v, list[i]);
        MissingMembers(b.es, |b.es|, v, list[i]);
      }
    }
  }

  lemma RevMembers(s: seq<nat>, x: nat)
    ensures x in Rev(s) <==> x in s
  {
    if x in s {
      var i :| 0 <= i < |s| && s[i] == x;
      assert Rev(s)[|s| - 1 - i] == x;
    }
    if x in Rev(s) {
      var i :| 0 <= i < |s| && Rev(s)[i] == x;
      assert s[|s| - 1 - i] == x;
    }
  }

  /** The filled list of v holds the edges of v and the edges into v. */
  lemma CurrentMembers(b: Base, v: nat, x: nat)
    requires v < b.n
    ensures x in Rev(Select(Missing(b.es, |b.es|), v)) + Select(OutOps(b.es), v) <==>
              Edge(v, x) in b.es || Edge(x, v) in b.es
  {
    RevMembers(Select(Missing(b.es, |b.es|), v), x);
    SelectMembers(Missing(b.es, |b.es|), v, x);
    MissingMembers(b.es, |b.es|, v, x);
    SelectAscends(b.es, b.n, v);
    assert b.es[..|b.es|] == b.es;
  }

  /** Sorted, the filled list is the ascending listing of the symmetric neighbour set. */
  lemma SymmetricList(el: seq<Edge>, b: Base, v: nat)
    requires v < b.n && forall e :: e in b.es <==> e in el && e.u != e.v
    ensures Holds(Sort(Rev(Select(Missing(b.es, |b.es|), v)) + Select(OutOps(b.es), v), NatLess),
                  Adjacency(el, b.n, true, true)[v])
  {
    var list := Rev(Select(Missing(b.es, |b.es|), v)) + Select(OutOps(b.es), v);
    NatLessIsOrder();
    CurrentNoRepeat(b, v, list);
    SortStrict(list);
    SortMembers(list, NatLess);
    forall x: nat
      ensures x in list <==> x in Adjacency(el, b.n, true, true)[v]
    {
      CurrentMembers(b, v, x);
      AdjacencyMembers(el, b.n, true, true, v, x);
    }
  }

  // ---- sorting every list ----

  /** The range of v holds the given list. */
  ghost predicate RangeIs(grown: seq<nat>, mem: seq<nat>, v: nat, list: seq<nat>) {
    v + 1 < |grown| && grown[v] <= grown[v + 1] <= |mem| && mem[grown[v]..grown[v + 1]] == list
  }

  ghost function FinalList(g: Room, v: nat): seq<nat> {
    Current(g, Missing(g.base.es, |g.base.es|), v)
  }

  ghost predicate SortedUpTo(g: Room, mem: seq<nat>, k: nat) {
    && (forall v: nat :: v < k ==> RangeIs(g.grown, mem, v, Sort(FinalList(g, v), NatLess)))
    && (forall v: nat :: k <= v < g.base.n ==> RangeIs(g.grown, mem, v, FinalList(g, v)))
  }

  lemma SortNext(g: Grid, mem: seq<nat>, mem': seq<nat>, k: nat)
    requires k < g.base.n && SortedUpTo(g, mem, k) && |mem'| == |mem|
    requires g.grown[k] <= g.grown[k + 1] <= |mem|
    requires mem'[g.grown[k]..g.grown[k + 1]] == Sort(mem[g.grown[k]..g.grown[k + 1]], NatLess)
    requires forall i :: 0 <= i < |mem| && !(g.grown[k] <= i < g.grown[k + 1]) ==> mem'[i] == mem[i]
    ensures SortedUpTo(g, mem', k + 1)
  {
    assert RangeIs(g.grown, mem, k, FinalList(g, k));
    forall v: nat | v < g.base.n && v != k
      ensures RangeIs(g.grown, mem, v, Sort(FinalList(g, v), NatLess)) ==> RangeIs(g.grown, mem', v, Sort(FinalList(g, v), NatLess))
      ensures RangeIs(g.grown, mem, v, FinalList(g, v)) ==> RangeIs(g.grown, mem', v, FinalList(g, v))
    {
      RangeKept(g, mem, mem', k, v);
    }
  }

  lemma RangeKept(g: Grid, mem: seq<nat>, mem': seq<nat>, k: nat, v: nat)
    requires k < g.base.n && v < g.base.n && v != k && |mem'| == |mem|
    requires forall i :: 0 <= i < |mem| && !(g.grown[k] <= i < g.grown[k + 1]) ==> mem'[i] == mem[i]
    ensures g.grown[v] <= g.grown[v + 1] <= |mem| ==> mem'[g.grown[v]..g.grown[v + 1]] == mem[g.grown[v]..g.grown[v + 1]]
  {
    if v < k {
      GrownBounds(g.base.n, g.base.index, g.need, g.grown, v + 1, k);
    } else {
      GrownBounds(g.base.n, g.base.index, g.need, g.grown, k + 1, v);
    }
  }

  method SortLists(ghost g: Grid, n: nat, grown: seq<nat>, mem: array<nat>)
    requires n == g.base.n && grown == g.grown && SortedUpTo(g, mem[..], 0)
    modifies mem
    ensures SortedUpTo(g, mem[..], n)
  {
    for k := 0 to n
      invariant SortedUpTo(g, mem[..], k)
    {
      ghost var m0 := mem[..];
      assert RangeIs(grown, m0, k, FinalList(g, k));
      SortRange(mem, grown[k], grown[k + 1]);
      assert mem[..][grown[k]..grown[k + 1]] == mem[grown[k]..grown[k + 1]];
      SortNext(g, m0, mem[..], k);
    }
  }

  lemma FilledIsFinal(g: Grid, mem: seq<nat>, invs: seq<nat>)
    requires Filling(g, Missing(g.base.es, |g.base.es|), mem, invs)
    ensures SortedUpTo(g, mem, 0) && forall v :: 0 <= v < g.base.n ==> invs[v] == 0
  {
    forall v: nat | v < g.base.n
      ensures RangeIs(g.grown, mem, v, FinalList(g, v)) && invs[v] == 0
    {
      assert FilledAt(g, Missing(g.base.es, |g.base.es|), mem, invs, v);
      assert g.need[v] == Degrees(Missing(g.base.es, |g.base.es|), g.base.n)[v];
      assert GrownAt(g.base.index, g.need, g.grown, v);
    }
  }

  lemma SortedIsCsr(el: seq<Edge>, g: Grid, mem: seq<nat>)
    requires SortedUpTo(g, mem, g.base.n) && |mem| == g.grown[g.base.n]
    requires forall e :: e in g.base.es <==> e in el && e.u != e.v
    ensures IsCsrOf(Csr(g.grown, mem), Adjacency(el, g.base.n, true, true))
  {
    var n, c := g.base.n, Csr(g.grown, mem);
    forall v: nat | v < n
      ensures StepUp(g.grown, v)
    {
      assert RangeIs(g.grown, mem, v, Sort(FinalList(g, v), NatLess));
    }
    forall v: nat | v < n
      ensures Holds(List(c, n, v), Adjacency(el, n, true, true)[v])
    {
      assert RangeIs(g.grown, mem, v, Sort(FinalList(g, v), NatLess));
      SymmetricList(el, g.base, v);
    }
  }

  // ---- the whole build ----

  method AddInverses(ghost b: Base, n: nat, offsets: array<nat>, mem: array<nat>, m: nat)
    returns (neighs: array<nat>, ghost g: Grid)
    requires n == b.n && m == |b.es| && offsets[..] == b.index && mem != offsets
    requires mem.Length == 2 * m && mem[..m] == Targets(b.es)
    modifies offsets
    ensures fresh(neighs) && g.base == b && offsets[..] == g.grown && neighs.Length == g.grown[n]
    ensures SortedUpTo(g, neighs[..], n)
  {
    var invs := CountMissing(b, n, offsets[..], mem[..m]);
    forall u: nat | u < n
      ensures StepUp(b.index, u)
    {
      assert EdgesAt(b.es, b.index, u);
    }
    var totalMissingInv := GrowOffsets(n, offsets, invs, 0);
    g := Room(b, invs[..], offsets[..]);
    RoomFits(g);
    neighs := Realloc(mem, offsets[n]);
    assert neighs[..m] == mem[..m];
    FillRoom(g, n, offsets, invs, neighs, totalMissingInv);
    SortLists(g, n, offsets[..], neighs);
  }

  /** Steps 2 and 3. */
  method FillRoom(ghost g: Grid, n: nat, offsets: array<nat>, invs: array<nat>, neighs: array<nat>, totalMissingInv: nat)
    requires n == g.base.n && offsets[..] == g.grown && invs[..] == g.need
    requires neighs != offsets && neighs != invs && offsets != invs
    requires |g.base.es| <= neighs.Length == g.grown[n] && neighs[..|g.base.es|] == Targets(g.base.es)
    requires totalMissingInv + |g.base.es| == offsets[n]
    modifies neighs, invs
    ensures SortedUpTo(g, neighs[..], 0)
  {
    Spread(n, g.base.index, offsets, invs, neighs, totalMissingInv, Targets(g.base.es));
    SpreadIsFilling(g, neighs[..]);
    FillAll(g, n, offsets[..], neighs, invs);
    FilledIsFinal(g, neighs[..], invs[..]);
  }

  /** The in-place symmetric build returns exactly the symmetric closure without self-loops. */
  method MakeSymmetricInPlace(el: seq<Edge>, n: nat, blockSize: nat) returns (index: seq<nat>, neighs: array<nat>)
    requires InRange(el, n) && blockSize > 0
    ensures IsCsrOf(Csr(index, neighs[..]), Adjacency(el, n, true, true))
  {
    var es, offsets, mem := BuildBase(el, n, true, blockSize);
    SquishedEdgesSpec(el, n);
    BaseHolds(es, n, offsets[..]);
    ghost var b: Base := Layout(es, n, offsets[..]);
    assert mem[..|es|] == Targets(es);
    ghost var g;
    neighs, g := AddInverses(b, n, offsets, mem, |es|);
    index := offsets[..];
    SortedIsCsr(el, g, neighs[..]);
  }

  /** Whatever the order of the fetch-and-adds and the block sizes, the ordinary builder followed
      by SquishGraph and the in-place builder return the same offsets and neighbour arrays. */
  method SymmetricBuildersAgree(el: seq<Edge>, n: nat, blockSize: nat, blockSize': nat, order: seq<Op>)
    returns (index: seq<nat>, neighs: array<nat>, index': seq<nat>, neighs': array<nat>)
    requires InRange(el, n) && blockSize > 0 && blockSize' > 0
    requires multiset(order) == multiset(Insertions(el, true, true))
    ensures index == index' && neighs[..] == neighs'[..]
  {
    index, neighs := BuildDirection(el, n, true, false, blockSize, order);
    ghost var c := Csr(index, neighs[..]);
    index', neighs' := MakeSymmetricInPlace(el, n, blockSize');
    CsrUnique(c, Csr(index', neighs'[..]), Adjacency(el, n, true, true));
  }

  /** The same for directed graphs, on both sides. */
  method DirectedBuildersAgree(el: seq<Edge>, n: nat, blockSize: nat, blockSize': nat, order: seq<Op>, inOrder: seq<Op>)
    returns (out: (seq<nat>, array<nat>), inn: (seq<nat>, array<nat>), out': (seq<nat>, array<nat>), inn': (seq<nat>, array<nat>))
    requires InRange(el, n) && blockSize > 0 && blockSize' > 0
    requires multiset(order) == multiset(Insertions(el, true, false))
    requires multiset(inOrder) == multiset(Insertions(el, false, true))
    ensures out.0 == out'.0 && out.1[..] == out'.1[..]
    ensures inn.0 == inn'.0 && inn.1[..] == inn'.1[..]
  {
    var index, neighs := BuildDirection(el, n, false, false, blockSize, order);
    ghost var c := Csr(index, neighs[..]);
    var inIndex, inNeighs := BuildDirection(el, n, false, true, blockSize, inOrder);
    ghost var d := Csr(inIndex, inNeighs[..]);
    var index', neighs', inIndex', inNeighs' := MakeDirectedInPlace(el, n, blockSize');
    CsrUnique(c, Csr(index', neighs'[..]), Adjacency(el, n, true, false));
    CsrUnique(d, Csr(inIndex', inNeighs'[..]), Adjacency(el, n, false, true));
    out, inn, out', inn' := (index, neighs), (inIndex, inNeighs), (index', neighs'), (inIndex', inNeighs');
  }
}
