/**
 * Belady's question as interval selection.  A reuse of a line occupies one way from its last
 * access up to (not including) its next one; a selection of reuses can be served by `cap` ways
 * exactly when at no time more than `cap` of them are live.
 */
module IntervalScheduling {

  datatype Interval = Interval(lo: nat, hi: nat) {
    predicate Covers(t: int) { lo <= t < hi }
  }

  /** How many selected intervals cover time t. */
  ghost function Load(reqs: seq<Interval>, chosen: seq<bool>, t: int): nat
    requires |chosen| == |reqs|
  {
    if reqs == [] then 0
    else
      var n := |reqs| - 1;
      Load(reqs[..n], chosen[..n], t) + if chosen[n] && reqs[n].Covers(t) then 1 else 0
  }

  ghost function Count(chosen: seq<bool>): nat {
    if chosen == [] then 0 else Count(chosen[..|chosen| - 1]) + if chosen[|chosen| - 1] then 1 else 0
  }

  ghost predicate Feasible(reqs: seq<Interval>, chosen: seq<bool>, cap: nat) {
    |chosen| == |reqs| && forall t: int :: Load(reqs, chosen, t) <= cap
  }

  ghost predicate Fits(reqs: seq<Interval>, chosen: seq<bool>, r: Interval, cap: nat)
    requires |chosen| == |reqs|
  {
    forall t :: r.lo <= t < r.hi ==> Load(reqs, chosen, t) < cap
  }

  /** Requests taken in order, each accepted if it still fits. */
  ghost function Greedy(reqs: seq<Interval>, cap: nat): (chosen: seq<bool>)
    ensures |chosen| == |reqs|
  {
    if reqs == [] then []
    else
      var n := |reqs| - 1;
      var before := Greedy(reqs[..n], cap);
      before + [Fits(reqs[..n], before, reqs[n], cap)]
  }

  ghost predicate OrderedByEnd(reqs: seq<Interval>) {
    forall i, j :: 0 <= i <= j < |reqs| ==> reqs[i].hi <= reqs[j].hi
  }

  // ---- arithmetic of loads and counts ----

  lemma {:induction false} LoadUpdate(reqs: seq<Interval>, chosen: seq<bool>, k: nat, b: bool, t: int)
    requires |chosen| == |reqs| && k < |reqs| && chosen[k] != b
    ensures Load(reqs, chosen[k := b], t)
         == Load(reqs, chosen, t) + if !reqs[k].Covers(t) then 0 else if b then 1 else -1
  {
    var n := |reqs| - 1;
    if k == n {
      assert chosen[k := b][..n] == chosen[..n];
    } else {
      assert chosen[k := b][..n] == chosen[..n][k := b];
      LoadUpdate(reqs[..n], chosen[..n], k, b, t);
    }
  }

  lemma {:induction false} CountUpdate(chosen: seq<bool>, k: nat, b: bool)
    requires k < |chosen| && chosen[k] != b
    ensures Count(chosen[k := b]) == Count(chosen) + if b then 1 else -1
  {
    var n := |chosen| - 1;
    if k == n {
      assert chosen[k := b][..n] == chosen[..n];
    } else {
      assert chosen[k := b][..n] == chosen[..n][k := b];
      CountUpdate(chosen[..n], k, b);
    }
  }

  lemma {:induction false} LoadPrefix(reqs: seq<Interval>, chosen: seq<bool>, k: nat, t: int)
    requires |chosen| == |reqs| && k <= |reqs|
    ensures Load(reqs[..k], chosen[..k], t) <= Load(reqs, chosen, t)
    ensures (forall i :: k <= i < |reqs| && chosen[i] ==> !reqs[i].Covers(t))
            ==> Load(reqs, chosen, t) == Load(reqs[..k], chosen[..k], t)
  {
    if k == |reqs| {
      assert reqs[..k] == reqs && chosen[..k] == chosen;
    } else {
      var n := |reqs| - 1;
      assert reqs[..n][..k] == reqs[..k] && chosen[..n][..k] == chosen[..k];
      LoadPrefix(reqs[..n], chosen[..n], k, t);
    }
  }

  lemma {:induction false} GreedyPrefix(reqs: seq<Interval>, cap: nat, k: nat)
    requires k <= |reqs|
    ensures Greedy(reqs, cap)[..k] == Greedy(reqs[..k], cap)
    ensures k < |reqs| ==> Greedy(reqs, cap)[k] == Fits(reqs[..k], Greedy(reqs[..k], cap), reqs[k], cap)
  {
    hide Fits;
    var n := |reqs| - 1;
    if k == |reqs| {
      assert reqs[..k] == reqs;
    } else if k < n {
      assert reqs[..n][..k] == reqs[..k];
      GreedyPrefix(reqs[..n], cap, k);
      assert Greedy(reqs, cap)[..k] == Greedy(reqs[..n], cap)[..k];
    } else {
      assert Greedy(reqs, cap)[..n] == Greedy(reqs[..n], cap);
    }
  }

  lemma {:induction false} GreedyFeasible(reqs: seq<Interval>, cap: nat)
    ensures Feasible(reqs, Greedy(reqs, cap), cap)
  {
    if reqs != [] {
      var n := |reqs| - 1;
      GreedyFeasible(reqs[..n], cap);
      var g := Greedy(reqs, cap);
      assert g[..n] == Greedy(reqs[..n], cap);
      forall t: int
        ensures Load(reqs, g, t) <= cap
      {
        assert Load(reqs[..n], g[..n], t) <= cap;
      }
    }
  }

  // ---- the exchange argument ----

  /** Among the requests from k+1 on, the chosen one that starts earliest of those touching r. */
  ghost predicate Blocks(reqs: seq<Interval>, chosen: seq<bool>, k: nat, i: nat)
    requires |chosen| == |reqs|
  {
    k < i < |reqs| && chosen[i] && reqs[i].lo < reqs[k].hi && reqs[k].lo < reqs[i].hi
  }

  lemma EarliestBlocker(reqs: seq<Interval>, chosen: seq<bool>, k: nat, bound: nat) returns (j: nat)
    requires |chosen| == |reqs| && k < |reqs| && bound <= |reqs|
    ensures j == k || Blocks(reqs, chosen, k, j)
    ensures forall i: nat :: i < bound && Blocks(reqs, chosen, k, i) ==> j != k && reqs[j].lo <= reqs[i].lo
  {
    j := k;
    for n := 0 to bound
      invariant j == k || Blocks(reqs, chosen, k, j)
      invariant forall i: nat :: i < n && Blocks(reqs, chosen, k, i) ==> j != k && reqs[j].lo <= reqs[i].lo
    {
      if Blocks(reqs, chosen, k, n) && (j == k || reqs[n].lo < reqs[j].lo) {
        j := n;
      }
    }
  }

  /** A time inside request k that the earliest blocker misses is covered by nothing later. */
  lemma FreeBeforeBlocker(reqs: seq<Interval>, chosen: seq<bool>, cap: nat, k: nat, j: nat, t: int)
    requires |chosen| == |reqs| && k < |reqs| && OrderedByEnd(reqs) && !chosen[k]
    requires chosen[..k] == Greedy(reqs[..k], cap) && Greedy(reqs, cap)[k]
    requires j == k || Blocks(reqs, chosen, k, j)
    requires forall i: nat :: i < |reqs| && Blocks(reqs, chosen, k, i) ==> j != k && reqs[j].lo <= reqs[i].lo
    requires reqs[k].Covers(t) && (j == k || !reqs[j].Covers(t))
    ensures Load(reqs, chosen, t) < cap
  {
    GreedyPrefix(reqs, cap, k);
    forall i | k <= i < |reqs| && chosen[i]
      ensures !reqs[i].Covers(t)
    {
      if reqs[i].Covers(t) {
        assert Blocks(reqs, chosen, k, i);
      }
    }
    LoadPrefix(reqs, chosen, k, t);
  }

  /** A feasible selection that agrees with greedy on the first k requests can be changed to
      agree on one more without becoming smaller. */
  lemma Exchange(reqs: seq<Interval>, chosen: seq<bool>, cap: nat, k: nat) returns (better: seq<bool>)
    requires OrderedByEnd(reqs) && Feasible(reqs, chosen, cap) && k < |reqs|
    requires chosen[..k] == Greedy(reqs, cap)[..k]
    ensures Feasible(reqs, better, cap) && better[..k + 1] == Greedy(reqs, cap)[..k + 1]
    ensures Count(better) >= Count(chosen)
  {
    GreedyPrefix(reqs, cap, k);
    hide Greedy, Load, Count, Fits, Feasible, OrderedByEnd;
    var g := Greedy(reqs, cap);
    better := chosen;
    if chosen[k] && !g[k] {
      RejectedMeansFull(reqs, chosen, cap, k);
      assert false;
    } else if g[k] && !chosen[k] {
      better := SwapIn(reqs, chosen, cap, k);
    }
    AgreeOneMore(better, g, k);
  }

  lemma AgreeOneMore(a: seq<bool>, b: seq<bool>, k: nat)
    requires k < |a| && k < |b| && a[..k] == b[..k] && a[k] == b[k]
    ensures a[..k + 1] == b[..k + 1]
  {
    assert a[..k + 1] == a[..k] + [a[k]] && b[..k + 1] == b[..k] + [b[k]];
  }

  /** Request k comes in, and the one that blocks it, if any, goes out. */
  lemma SwapIn(reqs: seq<Interval>, chosen: seq<bool>, cap: nat, k: nat) returns (better: seq<bool>)
    requires OrderedByEnd(reqs) && Feasible(reqs, chosen, cap) && k < |reqs| && !chosen[k]
    requires chosen[..k] == Greedy(reqs[..k], cap) && Greedy(reqs, cap)[k]
    ensures Feasible(reqs, better, cap) && |better| == |chosen| && better[..k] == chosen[..k] && better[k]
    ensures Count(better) >= Count(chosen)
  {
    hide Greedy, Load, Count, Fits, OrderedByEnd;
    var j := EarliestBlocker(reqs, chosen, k, |reqs|);
    better := chosen[k := true];
    CountUpdate(chosen, k, true);
    if j != k {
      CountUpdate(better, j, false);
      better := better[j := false];
    }
    forall t: int
      ensures Load(reqs, better, t) <= cap
    {
      SwapLoad(reqs, chosen, cap, k, j, t);
    }
  }

  lemma SwapLoad(reqs: seq<Interval>, chosen: seq<bool>, cap: nat, k: nat, j: nat, t: int)
    requires |chosen| == |reqs| && k < |reqs| && OrderedByEnd(reqs) && !chosen[k]
    requires chosen[..k] == Greedy(reqs[..k], cap) && Greedy(reqs, cap)[k]
    requires j == k || Blocks(reqs, chosen, k, j)
    requires forall i: nat :: i < |reqs| && Blocks(reqs, chosen, k, i) ==> j != k && reqs[j].lo <= reqs[i].lo
    requires Load(reqs, chosen, t) <= cap
    ensures Load(reqs, if j == k then chosen[k := true] else chosen[k := true][j := false], t) <= cap
  {
    LoadUpdate(reqs, chosen, k, true, t);
    if j != k {
      LoadUpdate(reqs, chosen[k := true], j, false, t);
    }
    if reqs[k].Covers(t) && (j == k || !reqs[j].Covers(t)) {
      FreeBeforeBlocker(reqs, chosen, cap, k, j, t);
    }
  }

  lemma RejectedMeansFull(reqs: seq<Interval>, chosen: seq<bool>, cap: nat, k: nat)
    requires |chosen| == |reqs| && k < |reqs| && chosen[k]
    requires chosen[..k] == Greedy(reqs, cap)[..k] && !Greedy(reqs, cap)[k]
    ensures !Feasible(reqs, chosen, cap)
  {
    GreedyPrefix(reqs, cap, k);
    var t :| reqs[k].lo <= t < reqs[k].hi && Load(reqs[..k], chosen[..k], t) >= cap;
    assert reqs[..k + 1][..k] == reqs[..k] && chosen[..k + 1][..k] == chosen[..k];
    LoadPrefix(reqs, chosen, k + 1, t);
    assert Load(reqs, chosen, t) > cap;
  }

  /** Belady's optimum: when requests come in order of their ends, no selection that `cap` ways
      can serve is larger than the greedy one. */
  lemma GreedyOptimal(reqs: seq<Interval>, chosen: seq<bool>, cap: nat)
    requires OrderedByEnd(reqs) && Feasible(reqs, chosen, cap)
    ensures Count(chosen) <= Count(Greedy(reqs, cap))
  {
    var g := Greedy(reqs, cap);
    var c := chosen;
    for k := 0 to |reqs|
      invariant Feasible(reqs, c, cap) && c[..k] == g[..k] && Count(chosen) <= Count(c)
    {
      c := Exchange(reqs, c, cap, k);
    }
    assert c == c[..|reqs|] == g[..|reqs|] == g;
  }
}
