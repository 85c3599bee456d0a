/**
 * Integer sort by counting passes over eight-bit digits, low digits first, with the serial step:
 * one array holds the digit counts and is then overwritten by the digit offsets.
 */
module RadixSort {
  import opened StableSorting
  import opened Arith

  const MAX_RADIX: nat := 8
  const BUCKETS: nat := 256

  type Byte = x: nat | x < BUCKETS

  function Pow2(k: nat): (r: nat)
    ensures r > 0
  {
    if k == 0 then 1 else 2 * Pow2(k - 1)
  }

  lemma {:induction false} Pow2Sum(a: nat, b: nat)
    ensures Pow2(a + b) == Pow2(a) * Pow2(b)
  {
    if b > 0 {
      Pow2Sum(a, b - 1);
      assert Pow2(a) * (2 * Pow2(b - 1)) == 2 * (Pow2(a) * Pow2(b - 1));
    } else {
      assert Pow2(a) * 1 == Pow2(a);
    }
  }

  lemma {:induction false} Pow2Monotone(a: nat, b: nat)
    requires a <= b
    ensures Pow2(a) <= Pow2(b)
  {
    if a < b {
      Pow2Monotone(a, b - 1);
    }
  }

  /** x shifted right by a bits. */
  ghost function Shift(x: nat, a: nat): nat {
    if a == 0 then x else Shift(x, a - 1) / 2
  }

  lemma {:induction false} ShiftBelow(x: nat, a: nat, k: nat)
    ensures Shift(x, a) < Pow2(k) <==> x < Pow2(a + k)
    decreases a
  {
    if a > 0 {
      ShiftBelow(x, a - 1, k + 1);
    }
  }

  /** The least number of bits that can tell apart i values. */
  method Log2Up(i: int) returns (a: nat)
    ensures i <= Pow2(a)
    ensures a > 0 ==> Pow2(a - 1) < i
  {
    a := 0;
    var b := i - 1;
    while b > 0
      invariant if i <= 0 then a == 0 && b == i - 1 else b == Shift(i - 1, a)
      invariant a > 0 ==> i > 0 && Shift(i - 1, a - 1) > 0
    {
      b := b / 2;
      a := a + 1;
    }
    if i > 0 {
      ShiftBelow(i - 1, a, 0);
      if a > 0 {
        ShiftBelow(i - 1, a - 1, 0);
      }
    }
  }

  /** Some bits of a key, as the digit of one pass. */
  function EBits<E>(bits: nat, offset: nat, f: E -> nat): E -> nat {
    e => f(e) / Pow2(offset) % Pow2(bits)
  }

  /** The bits of a key below an offset. */
  ghost function Low<E>(offset: nat, f: E -> nat): E -> nat {
    e => f(e) % Pow2(offset)
  }

  lemma Expand(p: nat, w: nat, q: nat, d: nat)
    ensures p * (w * q + d) == (p * w) * q + p * d
  {
    assert p * (w * q + d) == p * (w * q) + p * d;
    assert p * (w * q) == (p * w) * q;
  }

  lemma DigitOnTop(key: nat, offset: nat, bits: nat)
    ensures key % Pow2(offset + bits) == Pow2(offset) * (key / Pow2(offset) % Pow2(bits)) + key % Pow2(offset)
  {
    Pow2Sum(offset, bits);
    TwoRemainders(key, Pow2(offset), Pow2(bits));
  }

  lemma TwoRemainders(key: nat, p: nat, w: nat)
    requires p > 0 && w > 0
    ensures p * w > 0 && key % (p * w) == p * (key / p % w) + key % p
  {
    var q, r := key / p, key % p;
    DivPositive(key, p);
    var q2, d := q / w, q % w;
    DivPositive(q, w);
    Expand(p, w, q2, d);
    MulNext(p, d, w);
    MulNext(p, -1, d);
    MulNext(p, 0, w);
    DivMod(key, p * w, q2, p * d + r);
  }

  lemma DivPositive(x: nat, p: nat)
    requires p > 0
    ensures 0 <= x / p && 0 <= x % p < p && x == p * (x / p) + x % p
  {
  }

  // ---- one counting pass ----

  /** The digits are stored and counted. */
  method CountDigits<E>(a: array<E>, tmp: array<Byte>, counts: array<nat>, m: nat, extract: E -> nat)
    requires a.Length <= tmp.Length && m <= counts.Length && m <= BUCKETS
    requires forall j :: 0 <= j < a.Length ==> extract(a[j]) < m
    requires a as object != tmp as object && a as object != counts as object && tmp as object != counts as object
    modifies tmp, counts
    ensures forall v :: 0 <= v < m ==> counts[v] == |Class(a[..], extract, v)|
    ensures forall j :: 0 <= j < a.Length ==> tmp[j] == extract(a[j])
  {
    for i := 0 to m
      invariant forall v :: 0 <= v < i ==> counts[v] == 0
    {
      counts[i] := 0;
    }
    ghost var s := a[..];
    for j := 0 to a.Length
      invariant a[..] == s
      invariant forall v :: 0 <= v < m ==> counts[v] == |Class(s[..j], extract, v)|
      invariant forall k :: 0 <= k < j ==> tmp[k] == extract(s[k])
    {
      var k := extract(a[j]);
      tmp[j] := k;
      counts[k] := counts[k] + 1;
      forall v | 0 <= v < m
        ensures counts[v] == |Class(s[..j + 1], extract, v)|
      {
        ClassNext(s, extract, v, j);
      }
    }
    assert s[..a.Length] == s;
  }

  ghost predicate StepUp(starts: seq<nat>, sizes: seq<nat>, v: nat) {
    v < |sizes| && v + 1 < |starts| && starts[v + 1] == starts[v] + sizes[v]
  }

  /** Running sums of the counts; the two arrays may be the same one. */
  method EndOffsets(counts: array<nat>, offsets: array<nat>, boffset: nat, m: nat,
                    ghost sizes: seq<nat>, ghost starts: seq<nat>)
    requires m <= counts.Length && m <= offsets.Length && |sizes| == m && |starts| == m + 1
    requires starts[0] == 0 && forall v: nat :: v < m ==> StepUp(starts, sizes, v)
    requires forall v :: 0 <= v < m ==> counts[v] == sizes[v]
    modifies offsets
    ensures forall v :: 0 <= v < m ==> offsets[v] == boffset + starts[v] + sizes[v]
  {
    var sum := boffset;
    for i := 0 to m
      invariant sum == boffset + starts[i]
      invariant forall v :: i <= v < m ==> counts[v] == sizes[v]
      invariant forall v :: 0 <= v < i ==> offsets[v] == boffset + starts[v] + sizes[v]
    {
      assert StepUp(starts, sizes, i);
      sum := sum + counts[i];
      offsets[i] := sum;
    }
  }

  ghost function Sizes<E>(s: seq<E>, g: E -> nat, m: nat): (r: seq<nat>)
    ensures |r| == m && forall v :: 0 <= v < m ==> r[v] == |Class(s, g, v)|
  {
    seq(m, v requires 0 <= v < m => |Class(s, g, v)|)
  }

  ghost function Starts<E>(s: seq<E>, g: E -> nat, m: nat): (r: seq<nat>)
    ensures |r| == m && forall v :: 0 <= v < m ==> r[v] == |Gather(s, g, v)|
  {
    seq(m, v requires 0 <= v < m => |Gather(s, g, v)|)
  }

  lemma StartsStep<E>(s: seq<E>, g: E -> nat, m: nat, starts: seq<nat>, sizes: seq<nat>)
    requires starts == Starts(s, g, m + 1) && sizes == Sizes(s, g, m)
    ensures starts[0] == 0 && forall v: nat :: v < m ==> StepUp(starts, sizes, v)
  {
  }

  /** The i-th element of class v is in its place in b, which starts at boffset. */
  ghost predicate PlacedAt<E>(b: seq<E>, boffset: nat, s: seq<E>, g: E -> nat, v: nat, i: nat)
    requires i < |Class(s, g, v)|
  {
    var k := boffset + |Gather(s, g, v)| + i;
    k < |b| && b[k] == Class(s, g, v)[i]
  }

  /** So are all elements of s from position j on. */
  ghost predicate Placed<E>(b: seq<E>, boffset: nat, s: seq<E>, g: E -> nat, m: nat, j: nat)
    requires j <= |s|
  {
    forall v: nat, i: nat :: v < m && |Class(s[..j], g, v)| <= i < |Class(s, g, v)| ==> PlacedAt(b, boffset, s, g, v, i)
  }

  /** Two elements never get the same place. */
  lemma PlacesDiffer<E>(s: seq<E>, g: E -> nat, v: nat, i: nat, v': nat, i': nat)
    requires i < |Class(s, g, v)| && i' < |Class(s, g, v')| && (v != v' || i != i')
    ensures |Gather(s, g, v)| + i != |Gather(s, g, v')| + i'
  {
    if v < v' {
      GatherMonotone(s, g, v + 1, v');
    } else if v' < v {
      GatherMonotone(s, g, v' + 1, v);
    }
  }

  lemma PlacedNext<E>(b: seq<E>, boffset: nat, s: seq<E>, g: E -> nat, m: nat, j: nat, x: nat)
    requires j < |s| && g(s[j]) < m && Placed(b, boffset, s, g, m, j + 1)
    requires x == boffset + |Gather(s, g, g(s[j]))| + |Class(s[..j], g, g(s[j]))| < |b|
    ensures Placed(b[x := s[j]], boffset, s, g, m, j)
  {
    ClassAt(s, g, j);
    var b' := b[x := s[j]];
    forall v: nat, i: nat | v < m && |Class(s[..j], g, v)| <= i < |Class(s, g, v)|
      ensures PlacedAt(b', boffset, s, g, v, i)
    {
      ClassNext(s, g, v, j);
      if v != g(s[j]) || i != |Class(s[..j], g, g(s[j]))| {
        assert PlacedAt(b, boffset, s, g, v, i);
        PlacesDiffer(s, g, v, i, g(s[j]), |Class(s[..j], g, g(s[j]))|);
      }
    }
  }

  lemma PlacedClass<E>(b: seq<E>, boffset: nat, s: seq<E>, g: E -> nat, m: nat, v: nat)
    requires Placed(b, boffset, s, g, m, 0) && v < m && boffset + |Gather(s, g, v + 1)| <= |b|
    ensures var lo := boffset + |Gather(s, g, v)|; b[lo..lo + |Class(s, g, v)|] == Class(s, g, v)
  {
    var lo, c := boffset + |Gather(s, g, v)|, Class(s, g, v);
    assert s[..0] == [];
    forall i | 0 <= i < |c|
      ensures b[lo..lo + |c|][i] == c[i]
    {
      assert PlacedAt(b, boffset, s, g, v, i);
    }
  }

  /** With every element in place the stretch of b is the classes in order. */
  lemma {:induction false} PlacedAll<E>(b: seq<E>, boffset: nat, s: seq<E>, g: E -> nat, m: nat, v: nat)
    requires Placed(b, boffset, s, g, m, 0) && v <= m && boffset + |Gather(s, g, v)| <= |b|
    ensures b[boffset..boffset + |Gather(s, g, v)|] == Gather(s, g, v)
  {
    if v > 0 {
      PlacedAll(b, boffset, s, g, m, v - 1);
      PlacedClass(b, boffset, s, g, m, v - 1);
      Slices(b, boffset, boffset + |Gather(s, g, v - 1)|, boffset + |Gather(s, g, v)|);
    }
  }

  lemma Slices<E>(b: seq<E>, lo: nat, mid: nat, hi: nat)
    requires lo <= mid <= hi <= |b|
    ensures b[lo..hi] == b[lo..mid] + b[mid..hi]
  {
  }

  /** b differs from before only in the block of n elements at boffset. */
  ghost predicate OnlyBlock<E>(b: seq<E>, before: seq<E>, boffset: nat, n: nat) {
    |b| == |before| && forall k :: 0 <= k < |b| && !(boffset <= k < boffset + n) ==> b[k] == before[k]
  }

  /** The state of the backward pass: offsets stand at the end of what is left of each class. */
  ghost predicate Scattering<E>(b: seq<E>, offsets: seq<nat>, boffset: nat, s: seq<E>, g: E -> nat, m: nat, j: nat) {
    && j <= |s| && m <= |offsets| && boffset + |s| <= |b|
    && (forall v :: 0 <= v < m ==> offsets[v] == boffset + |Gather(s, g, v)| + |Class(s[..j], g, v)|)
    && Placed(b, boffset, s, g, m, j)
  }

  lemma StepOffsets<E>(s: seq<E>, g: E -> nat, m: nat, j: nat)
    requires j < |s| && forall k :: 0 <= k < |s| ==> g(s[k]) < m
    ensures forall v: nat :: |Class(s[..j + 1], g, v)| == |Class(s[..j], g, v)| + if v == g(s[j]) then 1 else 0
    ensures |Gather(s, g, g(s[j]))| + |Class(s[..j], g, g(s[j]))| < |s|
  {
    forall v: nat
      ensures |Class(s[..j + 1], g, v)| == |Class(s[..j], g, v)| + if v == g(s[j]) then 1 else 0
    {
      ClassNext(s, g, v, j);
    }
    ClassAt(s, g, j);
    GatherMonotone(s, g, g(s[j]) + 1, m);
    GatherLength(s, g, m);
    BelowAll(s, g, m);
  }

  lemma ScatterStep<E>(b: seq<E>, offsets: seq<nat>, boffset: nat, s: seq<E>, g: E -> nat, m: nat, j: nat)
    requires j < |s| && Scattering(b, offsets, boffset, s, g, m, j + 1) && forall k :: 0 <= k < |s| ==> g(s[k]) < m
    ensures boffset < offsets[g(s[j])] <= boffset + |s|
    ensures var u := g(s[j]);
            Scattering(b[offsets[u] - 1 := s[j]], offsets[u := offsets[u] - 1], boffset, s, g, m, j)
  {
    var u := g(s[j]);
    StepOffsets(s, g, m, j);
    assert offsets[u] - 1 == boffset + |Gather(s, g, u)| + |Class(s[..j], g, u)|;
    PlacedNext(b, boffset, s, g, m, j, offsets[u] - 1);
  }

  lemma ScatterEnd<E>(b: seq<E>, offsets: seq<nat>, boffset: nat, s: seq<E>, g: E -> nat, m: nat)
    requires Scattering(b, offsets, boffset, s, g, m, 0) && forall k :: 0 <= k < |s| ==> g(s[k]) < m
    ensures b[boffset..boffset + |s|] == Gather(s, g, m)
    ensures forall v :: 0 <= v < m ==> offsets[v] == boffset + Below(s, g, v)
  {
    GatherLength(s, g, m);
    BelowAll(s, g, m);
    PlacedAll(b, boffset, s, g, m, m);
    assert s[..0] == [];
    forall v | 0 <= v < m
      ensures offsets[v] == boffset + Below(s, g, v)
    {
      GatherLength(s, g, v);
    }
  }

  lemma OnlyBlockStep<E>(b: seq<E>, before: seq<E>, boffset: nat, n: nat, x: nat, e: E)
    requires OnlyBlock(b, before, boffset, n) && boffset <= x < boffset + n && x < |b|
    ensures OnlyBlock(b[x := e], before, boffset, n)
  {
  }

  method PutBack<E>(a: array<E>, b: array<E>, tmp: array<Byte>, offsets: array<nat>, j: nat)
    requires a != b && a as object != offsets as object && b as object != offsets as object
    requires b as object != tmp as object && tmp as object != offsets as object
    requires j < a.Length && j < tmp.Length && tmp[j] < offsets.Length && 0 < offsets[tmp[j]] <= b.Length
    modifies b, offsets
    ensures var x := old(offsets[tmp[j]]) - 1;
            b[..] == old(b[..])[x := a[j]] && offsets[..] == old(offsets[..])[tmp[j] := x]
  {
    var x := offsets[tmp[j]] - 1;
    offsets[tmp[j]] := x;
    b[x] := a[j];
  }

  lemma OnlyBlockSame<E>(b: seq<E>, boffset: nat, n: nat)
    ensures OnlyBlock(b, b, boffset, n)
  {
  }

  /** Backwards over the block, each element goes just below the end of what is left of its class. */
  method Scatter<E>(a: array<E>, b: array<E>, tmp: array<Byte>, offsets: array<nat>, boffset: nat, m: nat,
                    ghost extract: E -> nat)
    requires a != b && a as object != offsets as object && b as object != offsets as object
    requires b as object != tmp as object && tmp as object != offsets as object
    requires a.Length <= tmp.Length && forall j :: 0 <= j < a.Length ==> tmp[j] == extract(a[j]) < m
    requires Scattering(b[..], offsets[..], boffset, a[..], extract, m, a.Length)
    modifies b, offsets
    ensures b[boffset..boffset + a.Length] == Gather(a[..], extract, m)
    ensures OnlyBlock(b[..], old(b[..]), boffset, a.Length)
    ensures forall v :: 0 <= v < m ==> offsets[v] == boffset + Below(a[..], extract, v)
  {
    ghost var s, bs, os := a[..], b[..], offsets[..];
    hide OnlyBlock, Placed;
    OnlyBlockSame(bs, boffset, a.Length);
    var j := a.Length;
    while j > 0
      invariant 0 <= j <= a.Length && a[..] == s && b[..] == bs && offsets[..] == os
      invariant Scattering(bs, os, boffset, s, extract, m, j)
      invariant OnlyBlock(bs, old(b[..]), boffset, a.Length)
    {
      j := j - 1;
      ScatterStep(bs, os, boffset, s, extract, m, j);
      ghost var x: nat := os[extract(s[j])] - 1;
      PutBack(a, b, tmp, offsets, j);
      OnlyBlockStep(bs, old(b[..]), boffset, a.Length, x, s[j]);
      bs, os := bs[x := s[j]], os[extract(s[j]) := x];
    }
    ScatterEnd(bs, os, boffset, s, extract, m);
  }

  /**
   * One counting pass over a block.  The offsets it leaves are those of the classes' starts; counts
   * and offsets may share one array.
   */
  method RadixBlock<E>(a: array<E>, b: array<E>, tmp: array<Byte>, counts: array<nat>, offsets: array<nat>,
                       boffset: nat, m: nat, extract: E -> nat)
    requires a != b && a as object != offsets as object && b as object != offsets as object
    requires a as object != counts as object && b as object != counts as object
    requires a as object != tmp as object && b as object != tmp as object
    requires tmp as object != offsets as object && tmp as object != counts as object
    requires a.Length <= tmp.Length && m <= counts.Length && m <= offsets.Length && m <= BUCKETS
    requires boffset + a.Length <= b.Length
    requires forall j :: 0 <= j < a.Length ==> extract(a[j]) < m
    modifies b, tmp, counts, offsets
    ensures b[boffset..boffset + a.Length] == Gather(a[..], extract, m)
    ensures OnlyBlock(b[..], old(b[..]), boffset, a.Length)
    ensures forall v :: 0 <= v < m ==> offsets[v] == boffset + Below(a[..], extract, v)
  {
    CountDigits(a, tmp, counts, m, extract);
    ghost var s := a[..];
    ghost var sizes, starts := Sizes(s, extract, m), Starts(s, extract, m + 1);
    StartsStep(s, extract, m, starts, sizes);
    EndOffsets(counts, offsets, boffset, m, sizes, starts);
    assert s[..|s|] == s;
    Scatter(a, b, tmp, offsets, boffset, m, extract);
  }

  /** The scratch space of a sort: distinct arrays, large enough. */
  ghost predicate Scratch<E>(a: array<E>, b: array<E>, tmp: array<Byte>, bk: array<nat>) {
    && a != b && a as object != tmp as object && a as object != bk as object
    && b as object != tmp as object && b as object != bk as object && tmp as object != bk as object
    && a.Length == b.Length == tmp.Length && bk.Length == BUCKETS
  }

  /** The array is sorted stably by one digit; the bucket array is left with the classes' starts. */
  method RadixStepSerial<E>(a: array<E>, b: array<E>, tmp: array<Byte>, bk: array<nat>, m: nat, extract: E -> nat)
    requires Scratch(a, b, tmp, bk) && m <= BUCKETS
    requires forall j :: 0 <= j < a.Length ==> extract(a[j]) < m
    modifies a, b, tmp, bk
    ensures StableSortOf(old(a[..]), a[..], extract)
    ensures forall v :: 0 <= v < m ==> bk[v] == Below(old(a[..]), extract, v)
  {
    ghost var s := a[..];
    RadixBlock(a, b, tmp, bk, bk, 0, m, extract);
    GatherIsStableSort(s, extract, m);
    ghost var t := b[..];
    assert t == Gather(s, extract, m);
    ghost var ends := bk[..];
    for i := 0 to a.Length
      modifies a
      invariant b[..] == t && bk[..] == ends
      invariant a[..i] == t[..i]
    {
      a[i] := b[i];
    }
    assert a[..] == t;
    assert forall v :: 0 <= v < m ==> bk[v] == ends[v];
  }

  // ---- low digits first ----

  lemma LowSnoc<E(!new)>(s: seq<E>, t: seq<E>, u: seq<E>, f: E -> nat, offset: nat, bits: nat)
    requires StableSortOf(s, t, Low(offset, f)) && StableSortOf(t, u, EBits(bits, offset, f))
    ensures StableSortOf(s, u, Low(offset + bits, f))
  {
    var low, high, key := Low(offset, f), EBits(bits, offset, f), Low(offset + bits, f);
    forall e: E
      ensures low(e) < Pow2(offset) && key(e) == Pow2(offset) * high(e) + low(e)
    {
      DigitOnTop(f(e), offset, bits);
    }
    LowThenHigh(s, t, u, low, high, key, Pow2(offset));
  }

  /** Nothing has been sorted yet: all keys have the same bits below offset zero. */
  lemma LowNothing<E>(s: seq<E>, f: E -> nat)
    ensures StableSortOf(s, s, Low(0, f))
  {
    forall i, j | 0 <= i <= j < |s|
      ensures Low(0, f)(s[i]) <= Low(0, f)(s[j])
    {
      DivMod(f(s[i]), 1, f(s[i]), 0);
    }
  }

  lemma DigitFits<E>(e: E, bits: nat, offset: nat, f: E -> nat)
    ensures EBits(bits, offset, f)(e) < Pow2(bits)
  {
  }

  /** Each digit has at most eight bits. */
  lemma RoundBits(bits: nat)
    requires bits >= 1
    ensures var rounds := 1 + (bits - 1) / MAX_RADIX; 1 <= 1 + (bits - 1) / rounds <= MAX_RADIX
  {
    var r := 1 + (bits - 1) / MAX_RADIX;
    var x := (bits - 1) / r;
    assert bits - 1 == r * x + (bits - 1) % r;
    if x >= MAX_RADIX {
      MulNext(r, MAX_RADIX - 1, x);
    }
  }

  lemma Pow2Eight(b: nat)
    requires b <= MAX_RADIX
    ensures Pow2(b) <= BUCKETS
  {
    Pow2Monotone(b, 8);
    assert Pow2(8) == 2 * (2 * (2 * (2 * Pow2(4)))) && Pow2(4) == 2 * (2 * (2 * (2 * Pow2(0))));
  }

  /** The array is sorted stably by the low bits of its keys, digit after digit. */
  method RadixLoopBottomUp<E(!new)>(a: array<E>, b: array<E>, tmp: array<Byte>, bk: array<nat>, bits: nat, f: E -> nat)
    requires Scratch(a, b, tmp, bk) && bits >= 1
    modifies a, b, tmp, bk
    ensures StableSortOf(old(a[..]), a[..], Low(bits, f))
  {
    var rounds := 1 + (bits - 1) / MAX_RADIX;
    var rbits := 1 + (bits - 1) / rounds;
    RoundBits(bits);
    var bitOffset := 0;
    LowNothing(a[..], f);
    while bitOffset < bits
      invariant bitOffset <= bits && 1 <= rbits <= MAX_RADIX
      invariant StableSortOf(old(a[..]), a[..], Low(bitOffset, f))
    {
      if bitOffset + rbits > bits {
        rbits := bits - bitOffset;
      }
      ghost var t := a[..];
      Pow2Eight(rbits);
      forall j | 0 <= j < a.Length
        ensures EBits(rbits, bitOffset, f)(a[j]) < Pow2(rbits)
      {
        DigitFits(a[j], rbits, bitOffset, f);
      }
      RadixStepSerial(a, b, tmp, bk, Pow2(rbits), EBits(rbits, bitOffset, f));
      LowSnoc(old(a[..]), t, a[..], f, bitOffset, rbits);
      bitOffset := bitOffset + rbits;
    }
  }

  // ---- the sort and its bucket offsets ----

  /** Keys that agree on the elements sort alike. */
  lemma SameKeys<E(!new)>(s: seq<E>, t: seq<E>, g: E -> nat, f: E -> nat)
    requires StableSortOf(s, t, g) && forall i :: 0 <= i < |s| ==> g(s[i]) == f(s[i])
    ensures StableSortOf(s, t, f)
    ensures forall v: nat :: Below(s, g, v) == Below(s, f, v)
    ensures forall i :: 0 <= i < |t| ==> t[i] in s
  {
    StableSortIsGather(s, t, g);
    forall i | 0 <= i < |t|
      ensures t[i] in s && g(t[i]) == f(t[i])
    {
      assert t[i] in multiset(t);
    }
    forall v: nat
      ensures Class(t, f, v) == Class(s, f, v) && Below(s, g, v) == Below(s, f, v)
    {
      SameClassKeys(s, g, f, v);
      SameClassKeys(t, g, f, v);
    }
  }

  lemma {:induction false} SameClassKeys<E>(s: seq<E>, g: E -> nat, f: E -> nat, v: nat)
    requires forall i :: 0 <= i < |s| ==> g(s[i]) == f(s[i])
    ensures Class(s, g, v) == Class(s, f, v) && Below(s, g, v) == Below(s, f, v)
  {
    if s != [] {
      SameClassKeys(s[..|s| - 1], g, f, v);
    }
  }

  /** In sorted order the elements with key k are those from position Below(k) up to Below(k + 1). */
  lemma {:induction false} SortedPositions<E>(t: seq<E>, f: E -> nat, k: nat, p: nat)
    requires Sorted(t, f) && p < |t|
    ensures f(t[p]) < k <==> p < Below(t, f, k)
  {
    var n := |t| - 1;
    if p < n {
      SortedPositions(t[..n], f, k, p);
      if f(t[n]) < k {
        BelowAll(t[..n], f, k);
      }
    } else if f(t[n]) < k {
      BelowAll(t, f, k);
    } else {
      BelowAtMost(t[..n], f, k);
    }
  }

  lemma {:induction false} BelowAtMost<E>(s: seq<E>, f: E -> nat, k: nat)
    ensures Below(s, f, k) <= |s|
  {
    if s != [] {
      BelowAtMost(s[..|s| - 1], f, k);
    }
  }

  lemma {:induction false} BelowMonotone<E>(s: seq<E>, f: E -> nat, j: nat, k: nat)
    requires j <= k
    ensures Below(s, f, j) <= Below(s, f, k)
  {
    if s != [] {
      BelowMonotone(s[..|s| - 1], f, j, k);
    }
  }

  /** The offset of bucket k if one of the keys at positions 1 to i opens it, and otherwise n. */
  ghost function Opened<E>(t: seq<E>, f: E -> nat, i: nat, k: nat): nat {
    if 1 <= Below(t, f, k) <= i && Below(t, f, k) < Below(t, f, k + 1) then Below(t, f, k) else |t|
  }

  lemma OpenNext<E>(t: seq<E>, f: E -> nat, i: nat, k: nat)
    requires Sorted(t, f) && i + 1 < |t|
    ensures Opened(t, f, i + 1, k) == if f(t[i]) != f(t[i + 1]) && k == f(t[i + 1]) then i + 1 else Opened(t, f, i, k)
  {
    SortedPositions(t, f, k, i);
    SortedPositions(t, f, k, i + 1);
    SortedPositions(t, f, k + 1, i + 1);
  }

  /** With position zero added, the buckets that hold keys have their offsets and the others n. */
  lemma OpenAll<E>(t: seq<E>, f: E -> nat, k: nat)
    requires Sorted(t, f) && t != []
    ensures (if k == f(t[0]) then 0 else Opened(t, f, |t| - 1, k))
         == if Below(t, f, k) < Below(t, f, k + 1) then Below(t, f, k) else |t|
  {
    SortedPositions(t, f, k, 0);
    SortedPositions(t, f, k + 1, 0);
    BelowMonotone(t, f, k, k + 1);
    BelowAtMost(t, f, k + 1);
  }

  /** The offsets of the buckets of a sorted array, found at the places where the key changes. */
  method OffsetsFromSorted<E>(a: array<E>, bucketOffsets: array<nat>, m: nat, f: E -> nat)
    requires Sorted(a[..], f) && a.Length >= 1 && m <= bucketOffsets.Length && a as object != bucketOffsets as object
    requires forall i :: 0 <= i < a.Length ==> f(a[i]) < m
    modifies bucketOffsets
    ensures forall k :: 0 <= k < m ==> bucketOffsets[k] == Below(a[..], f, k)
  {
    ghost var t := a[..];
    var n := a.Length;
    for i := 0 to m
      invariant forall k :: 0 <= k < i ==> bucketOffsets[k] == n
    {
      bucketOffsets[i] := n;
    }
    assert forall k :: 0 <= k < m ==> bucketOffsets[k] == Opened(t, f, 0, k);
    for i := 0 to n - 1
      invariant a[..] == t
      invariant forall k :: 0 <= k < m ==> bucketOffsets[k] == Opened(t, f, i, k)
    {
      var v := f(a[i]);
      var vn := f(a[i + 1]);
      ghost var before := bucketOffsets[..];
      if v != vn {
        bucketOffsets[vn] := i + 1;
      }
      forall k | 0 <= k < m
        ensures bucketOffsets[k] == Opened(t, f, i + 1, k)
      {
        assert before[k] == Opened(t, f, i, k);
        OpenNext(t, f, i, k);
      }
    }
    bucketOffsets[f(a[0])] := 0;
    forall k | 0 <= k < m
      ensures bucketOffsets[k] == if Below(t, f, k) < Below(t, f, k + 1) then Below(t, f, k) else n
    {
      OpenAll(t, f, k);
    }
    ScanBack(bucketOffsets, m, n, t, f);
  }

  /** The inclusive minimum from the back fills the offsets of empty buckets. */
  method ScanBack<E>(out: array<nat>, m: nat, n: nat, ghost t: seq<E>, ghost f: E -> nat)
    requires m <= out.Length && n == |t| && forall i :: 0 <= i < |t| ==> f(t[i]) < m
    requires forall k :: 0 <= k < m ==> out[k] == if Below(t, f, k) < Below(t, f, k + 1) then Below(t, f, k) else n
    modifies out
    ensures forall k :: 0 <= k < m ==> out[k] == Below(t, f, k)
  {
    BelowAll(t, f, m);
    var r := n;
    var i := m;
    while i > 0
      invariant 0 <= i <= m && r == Below(t, f, i)
      invariant forall k :: 0 <= k < i ==> out[k] == if Below(t, f, k) < Below(t, f, k + 1) then Below(t, f, k) else n
      invariant forall k :: i <= k < m ==> out[k] == Below(t, f, k)
    {
      i := i - 1;
      BelowMonotone(t, f, i, i + 1);
      BelowAtMost(t, f, i + 1);
      r := if out[i] < r then out[i] else r;
      out[i] := r;
    }
  }

  method CopyOffsets(from: array<nat>, to: array<nat>, m: nat)
    requires m <= from.Length && m <= to.Length && from != to
    modifies to
    ensures forall k :: 0 <= k < m ==> to[k] == from[k]
  {
    for i := 0 to m
      invariant forall k :: 0 <= k < i ==> to[k] == from[k]
    {
      to[i] := from[i];
    }
  }

  /** Sorts by a key below m and, on request, reports where each bucket starts. */
  method ISortX<E(!new)>(a: array<E>, bucketOffsets: array?<nat>, m: nat, b: array<E>, tmp: array<Byte>,
                         bk: array<nat>, f: E -> nat)
    requires Scratch(a, b, tmp, bk)
    requires forall i :: 0 <= i < a.Length ==> f(a[i]) < m
    requires bucketOffsets != null ==>
               && (a.Length >= 1 || m <= BUCKETS) && m <= bucketOffsets.Length && bucketOffsets != bk
               && a as object != bucketOffsets as object
               && b as object != bucketOffsets as object && tmp as object != bucketOffsets as object
    modifies a, b, tmp, bk, bucketOffsets
    ensures StableSortOf(old(a[..]), a[..], f)
    ensures bucketOffsets != null ==> forall i :: 0 <= i < m ==> bucketOffsets[i] == Below(old(a[..]), f, i)
  {
    ghost var s := a[..];
    var bits := Log2Up(m);
    if bits <= MAX_RADIX {
      Pow2Eight(bits);
      forall j | 0 <= j < a.Length
        ensures EBits(bits, 0, f)(a[j]) == f(a[j]) < Pow2(bits)
      {
        WholeKey(a[j], bits, f);
      }
      RadixStepSerial(a, b, tmp, bk, Pow2(bits), EBits(bits, 0, f));
      SameKeys(s, a[..], EBits(bits, 0, f), f);
      if bucketOffsets != null {
        CopyOffsets(bk, bucketOffsets, m);
      }
      return;
    }
    ManyBuckets(bits);
    RadixLoopBottomUp(a, b, tmp, bk, bits, f);
    forall j | 0 <= j < |s|
      ensures Low(bits, f)(s[j]) == f(s[j])
    {
      DivMod(f(s[j]), Pow2(bits), 0, f(s[j]));
    }
    SameKeys(s, a[..], Low(bits, f), f);
    if bucketOffsets != null {
      StableSortIsGather(s, a[..], f);
      OffsetsFromSorted(a, bucketOffsets, m, f);
    }
  }

  lemma ManyBuckets(bits: nat)
    requires bits > MAX_RADIX
    ensures BUCKETS <= Pow2(bits - 1)
  {
    Pow2Monotone(8, bits - 1);
    assert Pow2(8) == 2 * (2 * (2 * (2 * Pow2(4)))) && Pow2(4) == 2 * (2 * (2 * (2 * Pow2(0))));
  }

  lemma WholeKey<E>(e: E, bits: nat, f: E -> nat)
    requires f(e) < Pow2(bits)
    ensures EBits(bits, 0, f)(e) == f(e)
  {
    DivMod(f(e), 1, f(e), 0);
    DivMod(f(e), Pow2(bits), 0, f(e));
  }
}
