/**
 * The steps both builders share: degree counting, the plain and the blocked prefix sum.
 */
module BuildSteps {
  import opened Basics
  import opened Sorting
  import opened CsrSpec
  import opened Arith

  /** The insertions one edge causes: forwards under its source, backwards under its target. */
  ghost function EdgeOps(e: Edge, fwd: bool, bwd: bool): seq<Op> {
    (if fwd then [Op(e.u, e.v)] else []) + if bwd then [Op(e.v, e.u)] else []
  }

  ghost function Insertions(el: seq<Edge>, fwd: bool, bwd: bool): seq<Op> {
    if el == [] then []
    else Insertions(el[..|el| - 1], fwd, bwd) + EdgeOps(el[|el| - 1], fwd, bwd)
  }

  lemma InsertionsSnoc(el: seq<Edge>, k: nat, fwd: bool, bwd: bool)
    requires k < |el|
    ensures Insertions(el[..k + 1], fwd, bwd) == Insertions(el[..k], fwd, bwd) + EdgeOps(el[k], fwd, bwd)
  {
    assert el[..k + 1][..k] == el[..k];
  }

  lemma {:induction false} InsertionsMembers(el: seq<Edge>, fwd: bool, bwd: bool, x: nat, y: nat)
    ensures Op(x, y) in Insertions(el, fwd, bwd) <==> (fwd && Edge(x, y) in el) || (bwd && Edge(y, x) in el)
  {
    if el != [] {
      var p, e := el[..|el| - 1], el[|el| - 1];
      InsertionsMembers(p, fwd, bwd, x, y);
      assert el == p + [e];
      assert Edge(x, y) in el <==> Edge(x, y) in p || e == Edge(x, y);
      assert Edge(y, x) in el <==> Edge(y, x) in p || e == Edge(y, x);
      assert Op(x, y) in EdgeOps(e, fwd, bwd) <==> (fwd && e == Edge(x, y)) || (bwd && e == Edge(y, x));
    }
  }

  lemma {:induction false} InsertionsInRange(el: seq<Edge>, n: nat, fwd: bool, bwd: bool)
    requires InRange(el, n)
    ensures forall i :: 0 <= i < |Insertions(el, fwd, bwd)| ==> Insertions(el, fwd, bwd)[i].key < n
  {
    if el != [] {
      InsertionsInRange(el[..|el| - 1], n, fwd, bwd);
    }
  }

  // ---- counts do not depend on the order of the insertions ----

  lemma {:induction false} SelectConcat(a: seq<Op>, b: seq<Op>, x: nat)
    ensures Select(a + b, x) == Select(a, x) + Select(b, x)
  {
    if b == [] {
      assert a + b == a;
    } else {
      assert (a + b)[..|a + b| - 1] == a + b[..|b| - 1];
      SelectConcat(a, b[..|b| - 1], x);
    }
  }

  /** Taking one insertion out of a list. */
  lemma WithoutOne(b: seq<Op>, i: nat, c: seq<Op>, x: nat)
    requires i < |b| && c == b[..i] + b[i + 1..]
    ensures multiset(b) == multiset{b[i]} + multiset(c)
    ensures |Select(b, x)| == |Select(c, x)| + if b[i].key == x then 1 else 0
  {
    var t := [b[i]] + b[i + 1..];
    assert b == b[..i] + t;
    SelectConcat(b[..i], t, x);
    SelectConcat([b[i]], b[i + 1..], x);
    SelectConcat(b[..i], b[i + 1..], x);
    assert [b[i]][..0] == [];
    assert [b[i]] == [] + [b[i]];
    SelectSnoc([], b[i], x);
  }

  lemma {:induction false} CountsAgree(a: seq<Op>, b: seq<Op>, x: nat)
    requires multiset(a) == multiset(b)
    ensures |Select(a, x)| == |Select(b, x)|
    decreases |a|
  {
    if a == [] {
      assert |multiset(b)| == |b|;
    } else {
      hide Select;
      assert a[0] in multiset(b);
      var i :| 0 <= i < |b| && b[i] == a[0];
      var a', b' := a[..0] + a[1..], b[..i] + b[i + 1..];
      WithoutOne(a, 0, a', x);
      WithoutOne(b, i, b', x);
      CancelOne(a[0], multiset(a'), multiset(b'));
      CountsAgree(a', b', x);
    }
  }

  lemma DegreesAgree(a: seq<Op>, b: seq<Op>, n: nat)
    requires multiset(a) == multiset(b)
    ensures Degrees(a, n) == Degrees(b, n)
  {
    forall x: nat | x < n
      ensures |Select(a, x)| == |Select(b, x)|
    {
      CountsAgree(a, b, x);
    }
  }

  // ---- counting ----

  method Increment(degrees: array<nat>, x: nat, ghost ops: seq<Op>, ghost y: nat)
    requires x < degrees.Length && degrees[..] == Degrees(ops, degrees.Length)
    modifies degrees
    ensures degrees[..] == Degrees(ops + [Op(x, y)], degrees.Length)
  {
    degrees[x] := degrees[x] + 1;
    forall z: nat | z < degrees.Length
      ensures degrees[z] == |Select(ops + [Op(x, y)], z)|
    {
      SelectSnoc(ops, Op(x, y), z);
    }
  }

  /** Which ends of an edge are counted, as the three flags select them. */
  function CountForward(symmetrize: bool, transpose: bool): bool {
    symmetrize || (!symmetrize && !transpose)
  }

  function CountBackward(symmetrize: bool, inPlace: bool, transpose: bool): bool {
    (symmetrize && !inPlace) || (!symmetrize && transpose)
  }

  method CountDegrees(el: seq<Edge>, n: nat, symmetrize: bool, inPlace: bool, transpose: bool) returns (degrees: array<nat>)
    requires InRange(el, n)
    ensures fresh(degrees) && degrees.Length == n
    ensures degrees[..] == Degrees(Insertions(el, CountForward(symmetrize, transpose),
                                              CountBackward(symmetrize, inPlace, transpose)), n)
  {
    degrees := new nat[n](i => 0);
    var fwd, bwd := CountForward(symmetrize, transpose), CountBackward(symmetrize, inPlace, transpose);
    ghost var ops: seq<Op> := [];
    assert degrees[..] == Degrees([], n);
    for k := 0 to |el|
      invariant ops == Insertions(el[..k], fwd, bwd)
      invariant degrees[..] == Degrees(ops, n)
    {
      InsertionsSnoc(el, k, fwd, bwd);
      if fwd {
        Increment(degrees, el[k].u, ops, el[k].v);
        ops := ops + [Op(el[k].u, el[k].v)];
      }
      if bwd {
        Increment(degrees, el[k].v, ops, el[k].u);
        ops := ops + [Op(el[k].v, el[k].u)];
      }
    }
    assert el[..|el|] == el;
  }

  // ---- prefix sums ----

  method PrefixSum(degrees: array<nat>) returns (sums: array<nat>)
    ensures fresh(sums) && IsPrefixSum(sums[..], degrees[..])
  {
    sums := new nat[degrees.Length + 1];
    var total: nat := 0;
    for n := 0 to degrees.Length
      invariant total == SumTo(degrees[..], n)
      invariant forall k :: 0 <= k < n ==> sums[k] == SumTo(degrees[..], k)
    {
      sums[n] := total;
      total := total + degrees[n];
    }
    sums[degrees.Length] := total;
  }

  /** Where block b starts, cut off at the end of the array. */
  ghost function BlockStart(b: nat, size: nat, len: nat): nat { Min(b * size, len) }

  lemma BlockBounds(b: nat, size: nat, len: nat, numBlocks: nat)
    requires size > 0 && numBlocks == (len + size - 1) / size
    ensures (b + 1) * size == b * size + size
    ensures b < numBlocks ==> b * size < len
    ensures b >= numBlocks ==> b * size >= len
  {
    assert (b + 1) * size == b * size + size;
    var q := (len + size - 1) / size;
    assert len + size - 1 == size * q + (len + size - 1) % size;
    if b < q {
      if b + 1 < q { MulNext(size, b + 1, q); }
      assert size * (b + 1) == size * b + size;
    } else {
      if q < b { MulNext(size, q, b); }
    }
  }

  /** First loop: the sum of each block. */
  method BlockSums(degrees: array<nat>, blockSize: nat, numBlocks: nat) returns (localSums: array<nat>)
    requires blockSize > 0 && numBlocks == (degrees.Length + blockSize - 1) / blockSize
    ensures fresh(localSums) && localSums.Length == numBlocks
    ensures forall b: nat :: b < numBlocks ==>
              localSums[b] == SumTo(degrees[..], BlockStart(b + 1, blockSize, degrees.Length))
                            - SumTo(degrees[..], BlockStart(b, blockSize, degrees.Length))
  {
    localSums := new nat[numBlocks];
    for block := 0 to numBlocks
      invariant forall b: nat :: b < block ==>
                  localSums[b] == SumTo(degrees[..], BlockStart(b + 1, blockSize, degrees.Length))
                                - SumTo(degrees[..], BlockStart(b, blockSize, degrees.Length))
    {
      BlockBounds(block, blockSize, degrees.Length, numBlocks);
      var lsum: nat := 0;
      var blockEnd := Min((block + 1) * blockSize, degrees.Length);
      for i := block * blockSize to blockEnd
        invariant lsum == SumTo(degrees[..], i) - SumTo(degrees[..], block * blockSize)
      {
        lsum := lsum + degrees[i];
      }
      localSums[block] := lsum;
    }
  }

  /** Third loop: each block continues from the sum of the blocks before it. */
  method FillBlock(degrees: array<nat>, prefix: array<nat>, from: nat, to: nat, start: nat)
    requires from <= to <= degrees.Length && prefix.Length == degrees.Length + 1 && prefix != degrees
    requires start == SumTo(degrees[..], from)
    modifies prefix
    ensures forall k :: 0 <= k < prefix.Length ==>
              prefix[k] == if from <= k < to then SumTo(degrees[..], k) else old(prefix[k])
  {
    var localTotal := start;
    for i := from to to
      invariant localTotal == SumTo(degrees[..], i)
      invariant forall k :: 0 <= k < prefix.Length ==>
                  prefix[k] == if from <= k < i then SumTo(degrees[..], k) else old(prefix[k])
    {
      prefix[i] := localTotal;
      localTotal := localTotal + degrees[i];
    }
  }

  /** The blocked sum is the plain one, whatever the block size. */
  method ParallelPrefixSum(degrees: array<nat>, blockSize: nat) returns (prefix: array<nat>)
    requires blockSize > 0
    ensures fresh(prefix) && IsPrefixSum(prefix[..], degrees[..])
  {
    var numBlocks := (degrees.Length + blockSize - 1) / blockSize;
    ghost var d := degrees[..];
    var bulkPrefix := BulkSums(degrees, blockSize, numBlocks);
    prefix := new nat[degrees.Length + 1];
    for block := 0 to numBlocks
      modifies prefix
      invariant forall k: nat :: k < BlockStart(block, blockSize, |d|) ==> prefix[k] == SumTo(d, k)
    {
      BlockBounds(block, blockSize, |d|, numBlocks);
      var blockEnd := Min((block + 1) * blockSize, degrees.Length);
      FillBlock(degrees, prefix, block * blockSize, blockEnd, bulkPrefix[block]);
    }
    BlockBounds(numBlocks, blockSize, |d|, numBlocks);
    prefix[degrees.Length] := bulkPrefix[numBlocks];
  }

  /** The sum before each block, and the whole sum. */
  method BulkSums(degrees: array<nat>, blockSize: nat, numBlocks: nat) returns (bulkPrefix: array<nat>)
    requires blockSize > 0 && numBlocks == (degrees.Length + blockSize - 1) / blockSize
    ensures fresh(bulkPrefix) && bulkPrefix.Length == numBlocks + 1
    ensures forall b: nat :: b <= numBlocks ==> bulkPrefix[b] == SumTo(degrees[..], BlockStart(b, blockSize, degrees.Length))
  {
    ghost var d := degrees[..];
    var localSums := BlockSums(degrees, blockSize, numBlocks);
    bulkPrefix := new nat[numBlocks + 1];
    var total: nat := 0;
    for block := 0 to numBlocks
      modifies bulkPrefix
      invariant total == SumTo(d, BlockStart(block, blockSize, |d|))
      invariant forall b: nat :: b < block ==> bulkPrefix[b] == SumTo(d, BlockStart(b, blockSize, |d|))
    {
      bulkPrefix[block] := total;
      total := total + localSums[block];
    }
    bulkPrefix[numBlocks] := total;
  }
}
