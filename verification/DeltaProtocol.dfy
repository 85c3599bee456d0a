/**
 * Delta-stepping as its threads run it.  Every read of a shared distance, every compare-and-swap
 * and every merge into the shared next bin is a step of its own, and any thread may take the next
 * step.  Each iteration's frontier is handed out to the threads in any way whatever.
 */
module DeltaProtocol {
  import opened Basics
  import opened ShortestPaths
  import opened DeltaStepping
  import opened Shares
  import Arith

  datatype Params = Params(
    g: WGraph, source: nat, inf: nat, delta: nat, maxBin: nat, threshold: nat, workers: nat)
  {
    ghost predicate Valid() {
      ValidGraph(g) && source < |g| && 0 < inf < maxBin && delta > 0 && workers > 0
    }

    ghost predicate IsEdge(u: nat, k: nat) { u < |g| && k < |g[u]| }
  }

  datatype Pc =
    | Take                                    // about to take the next entry of the work list
    | Filter(u: nat)                          // about to compare dist[u] with the current bin
    | Edge(u: nat, k: nat)                    // about to read the distance of edge k's target
    | ReadSource(u: nat, k: nat, was: nat)    // about to read dist[u]
    | Swap(u: nat, k: nat, was: nat, d: nat)  // loop test, then compare-and-swap
    | Insert(u: nat, k: nat, d: nat)          // swapped: about to insert into a local bin
    | Reread(u: nat, k: nat, d: nat)          // swap failed: about to read the target again
    | Fuse                                    // about to look at the current local bin
    | Vote                                    // about to merge into the shared next bin
    | Voted                                   // at the first barrier
    | Collect                                 // about to move a bin to the next frontier
    | Waiting                                 // at the second barrier
    | Done

  /** rest is what is left of a share of the frontier, or of a fused bin if fusing. */
  datatype Thread = Thread(pc: Pc, fusing: bool, rest: seq<nat>, bins: Bins)
  datatype Phase = Working | Collecting | Finished
  datatype State = State(
    dist: seq<nat>, curr: nat, next: nat, frontier: seq<nat>, threads: seq<Thread>, phase: Phase)

  // ---- what a thread may rely on ----

  /** A distance read and added up is the length of a walk, or too large to matter. */
  ghost predicate Real(p: Params, v: nat, d: nat) { d < p.inf ==> HasWalk(p.g, p.source, v, d) }

  ghost predicate Trying(p: Params, dist: seq<nat>, u: nat, k: nat, d: nat)
    requires p.Valid() && |dist| == |p.g|
  {
    p.IsEdge(u, k) && dist[u] + p.g[u][k].w <= d && Real(p, p.g[u][k].v, d)
  }

  ghost predicate PcOk(p: Params, dist: seq<nat>, curr: nat, pc: Pc)
    requires p.Valid() && |dist| == |p.g|
  {
    match pc
    case Filter(u) => u < |p.g|
    case Edge(u, k) => u < |p.g| && k <= |p.g[u]|
    case ReadSource(u, k, was) => p.IsEdge(u, k) && dist[p.g[u][k].v] <= was <= p.inf
    case Swap(u, k, was, d) => Trying(p, dist, u, k, d) && dist[p.g[u][k].v] <= was <= p.inf
    case Reread(u, k, d) => Trying(p, dist, u, k, d)
    case Insert(u, k, d) => p.IsEdge(u, k) && dist[p.g[u][k].v] <= d < p.inf && curr <= Bin(d, p.delta)
    case _ => true
  }

  ghost predicate BinsOk(p: Params, curr: nat, bins: Bins) {
    && |bins| <= p.inf
    && forall i: nat, x: nat :: Has(bins, i, x) ==> i >= curr && x < |p.g|
  }

  ghost predicate InGraph(p: Params, s: seq<nat>) { forall i :: 0 <= i < |s| ==> s[i] < |p.g| }

  predicate Idle(pc: Pc) { pc.Fuse? || pc.Vote? || pc.Voted? || pc.Collect? || pc.Waiting? || pc.Done? }

  ghost predicate ThreadOk(p: Params, dist: seq<nat>, curr: nat, t: Thread)
    requires p.Valid() && |dist| == |p.g|
  {
    && PcOk(p, dist, curr, t.pc) && BinsOk(p, curr, t.bins) && InGraph(p, t.rest)
    && (Idle(t.pc) ==> t.rest == [])
  }

  // ---- one thread, one access ----

  /** The first bin from i on that holds something, or the end mark. */
  ghost function FirstFull(bins: Bins, i: nat, none: nat): nat
    decreases |bins| - i
  {
    if i >= |bins| then none else if bins[i] != [] then i else FirstFull(bins, i + 1, none)
  }

  /** What an access does to the shared variables, and to the thread. */
  datatype Move = Move(dist: seq<nat>, next: nat, frontier: seq<nat>, t: Thread)

  predicate AtBarrier(pc: Pc) { pc.Voted? || pc.Waiting? || pc.Done? }

  ghost function StepThread(p: Params, s: State, t: Thread): Move
    requires p.Valid() && |s.dist| == |p.g| && ThreadOk(p, s.dist, s.curr, t)
  {
    var same := Move(s.dist, s.next, s.frontier, t);
    match t.pc
    case Take =>
      if t.rest == [] then same.(t := t.(pc := Fuse))
      else same.(t := t.(rest := t.rest[1..], pc := if t.fusing then Edge(t.rest[0], 0) else Filter(t.rest[0])))
    case Filter(u) => same.(t := t.(pc := if s.dist[u] >= p.delta * s.curr then Edge(u, 0) else Take))
    case Edge(u, k) =>
      same.(t := t.(pc := if k == |p.g[u]| then Take else ReadSource(u, k, s.dist[p.g[u][k].v])))
    case ReadSource(u, k, was) => same.(t := t.(pc := Swap(u, k, was, s.dist[u] + p.g[u][k].w)))
    case Swap(u, k, was, d) =>
      var v := p.g[u][k].v;
      if d >= was then same.(t := t.(pc := Edge(u, k + 1)))
      else if s.dist[v] == was then same.(dist := s.dist[v := d], t := t.(pc := Insert(u, k, d)))
      else same.(t := t.(pc := Reread(u, k, d)))
    case Insert(u, k, d) =>
      same.(t := t.(pc := Edge(u, k + 1), bins := Push(t.bins, Bin(d, p.delta), p.g[u][k].v)))
    case Reread(u, k, d) => same.(t := t.(pc := Swap(u, k, s.dist[p.g[u][k].v], d)))
    case Fuse =>
      if s.curr < |t.bins| && t.bins[s.curr] != [] && |t.bins[s.curr]| < p.threshold
      then same.(t := Thread(Take, true, t.bins[s.curr], t.bins[s.curr := []]))
      else same.(t := t.(pc := Vote))
    case Vote => same.(next := Min(s.next, FirstFull(t.bins, s.curr, p.maxBin)), t := t.(pc := Voted))
    case Collect =>
      if s.next < |t.bins|
      then same.(frontier := s.frontier + t.bins[s.next], t := t.(pc := Waiting, bins := t.bins[s.next := []]))
      else same.(t := t.(pc := Waiting))
    case _ => same
  }

  // ---- the invariant ----

  /** Edge k of u could still lower a distance. */
  ghost predicate Open(p: Params, dist: seq<nat>, u: nat, k: nat)
    requires p.Valid() && |dist| == |p.g|
  {
    p.IsEdge(u, k) && dist[u] + p.g[u][k].w < dist[p.g[u][k].v]
  }

  /** The thread is on its way to that edge, or has u in the bin of its distance, or is about to. */
  ghost predicate OnTheWay(p: Params, dist: seq<nat>, pc: Pc, u: nat, k: nat)
    requires p.Valid() && |dist| == |p.g| && p.IsEdge(u, k)
  {
    match pc
    case Filter(x) => x == u
    case Edge(x, j) => x == u && j <= k
    case ReadSource(x, j, _) => x == u && j <= k
    case Swap(x, j, _, d) => x == u && (j < k || (j == k && d == dist[u] + p.g[u][k].w))
    case Reread(x, j, d) => x == u && (j < k || (j == k && d == dist[u] + p.g[u][k].w))
    case Insert(x, j, d) => (x == u && j < k) || (p.IsEdge(x, j) && p.g[x][j].v == u && d == dist[u])
    case _ => false
  }

  ghost predicate Holds(p: Params, dist: seq<nat>, t: Thread, u: nat, k: nat)
    requires p.Valid() && |dist| == |p.g| && p.IsEdge(u, k)
  {
    u in t.rest || Has(t.bins, Bin(dist[u], p.delta), u) || OnTheWay(p, dist, t.pc, u, k)
  }

  ghost predicate HeldBy(p: Params, s: State, i: nat, u: nat, k: nat)
    requires p.Valid() && |s.dist| == |p.g| && p.IsEdge(u, k)
  {
    i < |s.threads| && Holds(p, s.dist, s.threads[i], u, k)
  }

  ghost predicate Pending(p: Params, s: State, u: nat, k: nat)
    requires p.Valid() && |s.dist| == |p.g| && p.IsEdge(u, k)
  {
    || (u in s.frontier && Bin(s.dist[u], p.delta) == s.next)
    || exists i: nat :: HeldBy(p, s, i, u, k)
  }

  /** Every edge that could lower a distance belongs to no bin already done, and is pending. */
  ghost predicate Covered(p: Params, s: State)
    requires p.Valid() && |s.dist| == |p.g|
  {
    forall u: nat, k: nat :: Open(p, s.dist, u, k) ==> Bin(s.dist[u], p.delta) >= s.curr && Pending(p, s, u, k)
  }

  predicate Fits(phase: Phase, pc: Pc) {
    match phase
    case Working => !pc.Collect? && !pc.Waiting? && !pc.Done?
    case Collecting => pc.Collect? || pc.Waiting?
    case Finished => pc.Done?
  }

  /** Whoever has voted has nothing in a bin before the next one. */
  ghost predicate Ahead(next: nat, t: Thread) {
    t.pc.Voted? || t.pc.Collect? || t.pc.Waiting? || t.pc.Done? ==>
      forall i: nat, x: nat :: Has(t.bins, i, x) ==> next <= i
  }

  ghost predicate ThreadFits(p: Params, s: State, t: Thread)
    requires p.Valid() && |s.dist| == |p.g|
  {
    ThreadOk(p, s.dist, s.curr, t) && Fits(s.phase, t.pc) && Ahead(s.next, t)
  }

  /** The next bin was voted for by somebody who has something in it. */
  ghost predicate Backs(s: State, i: nat) {
    && i < |s.threads| && (s.threads[i].pc.Voted? || s.threads[i].pc.Collect?)
    && s.next < |s.threads[i].bins| && s.threads[i].bins[s.next] != []
  }

  ghost predicate Backed(p: Params, s: State) {
    s.next < p.maxBin && !s.phase.Finished? ==> s.frontier != [] || exists i: nat :: Backs(s, i)
  }

  ghost predicate Inv(p: Params, s: State) {
    && p.Valid() && |s.dist| == |p.g| && Attained(p.g, p.source, p.inf, s.dist) && |s.threads| == p.workers
    && s.curr <= s.next <= p.maxBin && InGraph(p, s.frontier) && (s.phase.Working? ==> s.frontier == [])
    && (s.phase.Finished? ==> s.next == p.maxBin)
    && (forall i :: 0 <= i < |s.threads| ==> ThreadFits(p, s, s.threads[i]))
    && Covered(p, s) && Backed(p, s)
  }

  // ---- steps ----

  ghost function After(p: Params, s: State, i: nat): State
    requires Inv(p, s) && i < |s.threads|
  {
    var m := StepThread(p, s, s.threads[i]);
    s.(dist := m.dist, next := m.next, frontier := m.frontier, threads := s.threads[i := m.t])
  }

  ghost predicate StepOf(p: Params, s: State, s': State, i: nat) {
    Inv(p, s) && i < |s.threads| && !AtBarrier(s.threads[i].pc) && s' == After(p, s, i)
  }

  ghost function Retarget(threads: seq<Thread>, pc: Pc): (r: seq<Thread>)
    ensures |r| == |threads| && forall i :: 0 <= i < |r| ==> r[i] == threads[i].(pc := pc)
  {
    seq(|threads|, i requires 0 <= i < |threads| => threads[i].(pc := pc))
  }

  ghost predicate AllAt(threads: seq<Thread>, pc: Pc) {
    forall i :: 0 <= i < |threads| ==> threads[i].pc == pc
  }

  /** The first barrier: everybody has voted. */
  ghost predicate FirstBarrier(p: Params, s: State, s': State) {
    && Inv(p, s) && s.phase.Working? && AllAt(s.threads, Voted)
    && s' == s.(threads := Retarget(s.threads, Collect), phase := Collecting)
  }

  ghost function HandOut(threads: seq<Thread>, shares: seq<seq<nat>>): (r: seq<Thread>)
    requires |shares| == |threads|
    ensures |r| == |threads|
    ensures forall i :: 0 <= i < |r| ==> r[i] == Thread(Take, false, shares[i], threads[i].bins)
  {
    seq(|threads|, i requires 0 <= i < |threads| => Thread(Take, false, shares[i], threads[i].bins))
  }

  /** The second barrier: another iteration on the next bin, or the end. */
  ghost predicate NextIteration(p: Params, s: State, s': State, shares: seq<seq<nat>>) {
    && Inv(p, s) && s.phase.Collecting? && AllAt(s.threads, Waiting) && s.next != p.maxBin
    && IsSplit(s.frontier, shares, |s.threads|)
    && s' == State(s.dist, s.next, p.maxBin, [], HandOut(s.threads, shares), Working)
  }

  ghost predicate Stop(p: Params, s: State, s': State) {
    && Inv(p, s) && s.phase.Collecting? && AllAt(s.threads, Waiting) && s.next == p.maxBin
    && s' == s.(threads := Retarget(s.threads, Done), phase := Finished)
  }

  ghost predicate Step(p: Params, s: State, s': State) {
    || (exists i: nat :: StepOf(p, s, s', i))
    || FirstBarrier(p, s, s')
    || (exists shares: seq<seq<nat>> :: NextIteration(p, s, s', shares))
    || Stop(p, s, s')
  }

  /** The source in somebody's share, everything else infinitely far. */
  ghost predicate IsStart(p: Params, s: State, shares: seq<seq<nat>>) {
    && p.Valid() && IsSplit([p.source], shares, p.workers)
    && s.dist == seq(|p.g|, v => if v == p.source then 0 else p.inf)
    && s.curr == 0 && s.next == p.maxBin && s.frontier == [] && s.phase == Working
    && s.threads == HandOut(seq(p.workers, _ => Thread(Done, false, [], [])), shares)
  }

  // ---- what a step does to the distances ----

  /** Distances only fall, and stay lengths of walks. */
  ghost predicate Lowers(p: Params, dist: seq<nat>, dist': seq<nat>)
    requires p.Valid()
  {
    && |dist'| == |dist| == |p.g| && Attained(p.g, p.source, p.inf, dist')
    && (forall x :: 0 <= x < |dist| ==> dist'[x] <= dist[x])
    && (dist' == dist || Sum(dist') < Sum(dist))
  }

  lemma StepLowers(p: Params, s: State, i: nat)
    requires Inv(p, s) && i < |s.threads|
    ensures Lowers(p, s.dist, After(p, s, i).dist)
  {
    var t := s.threads[i];
    assert ThreadFits(p, s, t);
    if t.pc.Swap? {
      var v, d := p.g[t.pc.u][t.pc.k].v, t.pc.d;
      if d < s.dist[v] {
        SumLower(s.dist, v, d);
      }
    }
  }

  lemma PcStays(p: Params, dist: seq<nat>, dist': seq<nat>, curr: nat, pc: Pc)
    requires p.Valid() && |dist| == |p.g| && PcOk(p, dist, curr, pc) && Lowers(p, dist, dist')
    ensures PcOk(p, dist', curr, pc)
  {
  }

  /** A successful swap stores a distance of no bin before the current one. */
  lemma SwapBin(p: Params, s: State, u: nat, k: nat, d: nat)
    requires Inv(p, s) && Trying(p, s.dist, u, k, d) && d < s.dist[p.g[u][k].v]
    ensures s.curr <= Bin(d, p.delta)
  {
    assert Open(p, s.dist, u, k);
    BinMono(s.dist[u], d, p.delta);
  }

  lemma OwnPcOk(p: Params, s: State, i: nat)
    requires Inv(p, s) && i < |s.threads|
    ensures PcOk(p, After(p, s, i).dist, s.curr, After(p, s, i).threads[i].pc)
  {
    var pc := s.threads[i].pc;
    hide Inv, PcOk, StepThread;
    if pc.ReadSource? { OwnReadOk(p, s, i); }
    else if pc.Swap? { OwnSwapOk(p, s, i); }
    else { OwnPlainOk(p, s, i); }
  }

  lemma OwnReadOk(p: Params, s: State, i: nat)
    requires Inv(p, s) && i < |s.threads| && s.threads[i].pc.ReadSource?
    ensures PcOk(p, After(p, s, i).dist, s.curr, After(p, s, i).threads[i].pc)
  {
    hide Covered, Backed, Ahead, BinsOk;
    var t := s.threads[i];
    assert ThreadFits(p, s, t);
    var u, k := t.pc.u, t.pc.k;
    assert s.dist[u] < p.inf ==> HasWalk(p.g, p.source, u, s.dist[u]);
    if s.dist[u] < p.inf {
      WalkExtends(p.g, p.source, u, s.dist[u], k);
    }
  }

  lemma OwnSwapOk(p: Params, s: State, i: nat)
    requires Inv(p, s) && i < |s.threads| && s.threads[i].pc.Swap?
    ensures PcOk(p, After(p, s, i).dist, s.curr, After(p, s, i).threads[i].pc)
  {
    hide Covered, Backed, Ahead, BinsOk;
    var t := s.threads[i];
    assert ThreadFits(p, s, t);
    if t.pc.d < t.pc.was && s.dist[p.g[t.pc.u][t.pc.k].v] == t.pc.was {
      SwapBin(p, s, t.pc.u, t.pc.k, t.pc.d);
    }
  }

  lemma OwnPlainOk(p: Params, s: State, i: nat)
    requires Inv(p, s) && i < |s.threads| && !s.threads[i].pc.ReadSource? && !s.threads[i].pc.Swap?
    ensures PcOk(p, After(p, s, i).dist, s.curr, After(p, s, i).threads[i].pc)
  {
    hide Covered, Backed, Ahead, BinsOk, Real, HasWalk, Push, Has, FirstFull, Bin;
    assert ThreadFits(p, s, s.threads[i]);
  }

  lemma PushOk(p: Params, curr: nat, bins: Bins, d: nat, v: nat)
    requires p.Valid() && BinsOk(p, curr, bins) && d < p.inf && curr <= Bin(d, p.delta) && v < |p.g|
    ensures BinsOk(p, curr, Push(bins, Bin(d, p.delta), v))
  {
    BinBound(d, p.delta);
    forall i: nat, x: nat | Has(Push(bins, Bin(d, p.delta), v), i, x)
      ensures i >= curr && x < |p.g|
    {
      PushHas(bins, Bin(d, p.delta), v, i, x);
    }
  }

  /** Taking a bin out leaves the others, and its entries are vertices. */
  lemma TakenBin(p: Params, curr: nat, bins: Bins, b: nat)
    requires p.Valid() && BinsOk(p, curr, bins) && b < |bins|
    ensures BinsOk(p, curr, bins[b := []]) && InGraph(p, bins[b])
    ensures forall i: nat, x: nat :: Has(bins[b := []], i, x) <==> Has(bins, i, x) && i != b
  {
    var c := bins[b := []];
    forall i: nat, x: nat
      ensures Has(c, i, x) <==> Has(bins, i, x) && i != b
    {
    }
    forall i: nat, x: nat | Has(c, i, x)
      ensures i >= curr && x < |p.g|
    {
      assert Has(bins, i, x);
    }
    forall j | 0 <= j < |bins[b]|
      ensures bins[b][j] < |p.g|
    {
      assert Has(bins, b, bins[b][j]);
    }
  }

  lemma OwnBinsOk(p: Params, s: State, i: nat)
    requires Inv(p, s) && i < |s.threads|
    ensures BinsOk(p, s.curr, After(p, s, i).threads[i].bins) && InGraph(p, After(p, s, i).threads[i].rest)
    ensures InGraph(p, After(p, s, i).frontier)
  {
    hide Covered, Backed, Ahead, Attained;
    var t := s.threads[i];
    assert ThreadFits(p, s, t);
    match t.pc
    case Insert(u, k, d) => PushOk(p, s.curr, t.bins, d, p.g[u][k].v);
    case Fuse => if s.curr < |t.bins| { TakenBin(p, s.curr, t.bins, s.curr); }
    case Collect => if s.next < |t.bins| { TakenBin(p, s.curr, t.bins, s.next); }
    case _ =>
  }

  lemma {:induction false} FirstFullIs(bins: Bins, i: nat, none: nat)
    requires |bins| <= none
    ensures var b := FirstFull(bins, i, none);
            && (b == none || (i <= b < |bins| && bins[b] != []))
            && (forall j: nat, x: nat :: j >= i && Has(bins, j, x) ==> b <= j)
    decreases |bins| - i
  {
    if i < |bins| && bins[i] == [] {
      FirstFullIs(bins, i + 1, none);
    }
  }

  lemma OwnAhead(p: Params, s: State, i: nat)
    requires Inv(p, s) && i < |s.threads|
    ensures Ahead(After(p, s, i).next, After(p, s, i).threads[i])
    ensures s.curr <= After(p, s, i).next <= s.next
  {
    hide Covered, Backed, PcOk, Attained, InGraph;
    var t := s.threads[i];
    assert ThreadFits(p, s, t);
    match t.pc
    case Vote => FirstFullIs(t.bins, s.curr, p.maxBin);
    case Collect =>
      if s.next < |t.bins| {
        TakenBin(p, s.curr, t.bins, s.next);
        var c := t.bins[s.next := []];
        assert After(p, s, i).threads[i].bins == c;
        forall j: nat, x: nat | Has(c, j, x)
          ensures s.next <= j
        {
          assert Has(t.bins, j, x);
        }
      }
    case _ =>
  }

  lemma OwnShape(p: Params, s: State, i: nat)
    requires Inv(p, s) && i < |s.threads|
    ensures Idle(After(p, s, i).threads[i].pc) ==> After(p, s, i).threads[i].rest == []
    ensures Fits(s.phase, After(p, s, i).threads[i].pc)
  {
    hide Covered, Backed, Ahead, Attained, InGraph, BinsOk, PcOk;
    assert ThreadFits(p, s, s.threads[i]);
  }

  lemma OwnFits(p: Params, s: State, i: nat)
    requires Inv(p, s) && i < |s.threads|
    ensures ThreadFits(p, After(p, s, i), After(p, s, i).threads[i])
  {
    hide PcOk, BinsOk, Ahead, Covered, Backed, InGraph, StepThread;
    StepLowers(p, s, i);
    OwnPcOk(p, s, i);
    OwnBinsOk(p, s, i);
    OwnAhead(p, s, i);
    OwnShape(p, s, i);
  }

  lemma OtherFits(p: Params, s: State, i: nat, j: nat)
    requires Inv(p, s) && i < |s.threads| && j < |s.threads| && i != j
    ensures ThreadFits(p, After(p, s, i), After(p, s, i).threads[j])
  {
    var t := s.threads[j];
    assert ThreadFits(p, s, t);
    StepLowers(p, s, i);
    OwnAhead(p, s, i);
    PcStays(p, s.dist, After(p, s, i).dist, s.curr, t.pc);
    hide PcOk, BinsOk, Covered, Backed, Lowers;
  }

  // ---- nothing pending is forgotten ----

  lemma OpenBin(p: Params, s: State, u: nat, k: nat)
    requires Inv(p, s) && Open(p, s.dist, u, k)
    ensures Bin(s.dist[u], p.delta) >= s.curr
  {
  }

  /** A step keeps what its own thread holds, as long as the edge stays open. */
  lemma OwnHolds(p: Params, s: State, i: nat, u: nat, k: nat)
    requires Inv(p, s) && i < |s.threads| && Open(p, s.dist, u, k) && HeldBy(p, s, i, u, k)
    requires Open(p, After(p, s, i).dist, u, k) && After(p, s, i).dist[u] == s.dist[u]
    ensures Pending(p, After(p, s, i), u, k)
  {
    var t := s.threads[i];
    hide Inv, StepThread, Holds, Open;
    match t.pc
    case Take => OwnTake(p, s, i, u, k);
    case Insert(x, j, d) => OwnInsert(p, s, i, u, k);
    case Fuse => OwnFuse(p, s, i, u, k);
    case Collect => OwnCollect(p, s, i, u, k);
    case _ => OwnMoves(p, s, i, u, k);
  }

  /** Steps that change neither lists nor bins. */
  lemma OwnMoves(p: Params, s: State, i: nat, u: nat, k: nat)
    requires Inv(p, s) && i < |s.threads| && Open(p, s.dist, u, k) && HeldBy(p, s, i, u, k)
    requires Open(p, After(p, s, i).dist, u, k) && After(p, s, i).dist[u] == s.dist[u]
    requires var pc := s.threads[i].pc; !pc.Take? && !pc.Insert? && !pc.Fuse? && !pc.Collect?
    ensures Pending(p, After(p, s, i), u, k)
  {
    OpenBin(p, s, u, k);
    hide Covered, Backed, Ahead, Attained, InGraph, BinsOk;
    var t := s.threads[i];
    assert ThreadFits(p, s, t);
    if t.pc.Filter? {
      BinFilter(s.dist[t.pc.u], p.delta, s.curr);
    }
    assert HeldBy(p, After(p, s, i), i, u, k);
  }

  lemma OwnInsert(p: Params, s: State, i: nat, u: nat, k: nat)
    requires Inv(p, s) && i < |s.threads| && s.threads[i].pc.Insert? && p.IsEdge(u, k) && HeldBy(p, s, i, u, k)
    ensures Pending(p, After(p, s, i), u, k)
  {
    hide Covered, Backed, Ahead, Attained, InGraph, BinsOk;
    var t := s.threads[i];
    assert ThreadFits(p, s, t);
    PushHas(t.bins, Bin(t.pc.d, p.delta), p.g[t.pc.u][t.pc.k].v, Bin(s.dist[u], p.delta), u);
    assert HeldBy(p, After(p, s, i), i, u, k);
  }

  lemma OwnTake(p: Params, s: State, i: nat, u: nat, k: nat)
    requires Inv(p, s) && i < |s.threads| && s.threads[i].pc.Take? && p.IsEdge(u, k) && HeldBy(p, s, i, u, k)
    ensures Pending(p, After(p, s, i), u, k)
  {
    hide Covered, Backed, Ahead, Attained, InGraph, BinsOk;
    var t := s.threads[i];
    assert ThreadFits(p, s, t);
    assert u in t.rest ==> u == t.rest[0] || u in t.rest[1..];
    assert HeldBy(p, After(p, s, i), i, u, k);
  }

  lemma OwnFuse(p: Params, s: State, i: nat, u: nat, k: nat)
    requires Inv(p, s) && i < |s.threads| && s.threads[i].pc.Fuse? && p.IsEdge(u, k) && HeldBy(p, s, i, u, k)
    ensures Pending(p, After(p, s, i), u, k)
  {
    hide Covered, Backed, Ahead, Attained, InGraph;
    var t := s.threads[i];
    assert ThreadFits(p, s, t);
    if s.curr < |t.bins| {
      TakenBin(p, s.curr, t.bins, s.curr);
    }
    assert HeldBy(p, After(p, s, i), i, u, k);
  }

  lemma OwnCollect(p: Params, s: State, i: nat, u: nat, k: nat)
    requires Inv(p, s) && i < |s.threads| && s.threads[i].pc.Collect? && p.IsEdge(u, k) && HeldBy(p, s, i, u, k)
    ensures Pending(p, After(p, s, i), u, k)
  {
    var t := s.threads[i];
    assert ThreadFits(p, s, t);
    var s' := After(p, s, i);
    if s.next < |t.bins| {
      TakenBin(p, s.curr, t.bins, s.next);
      if Bin(s.dist[u], p.delta) == s.next {
        assert u in s'.frontier;
      } else {
        assert HeldBy(p, s', i, u, k);
      }
    }
  }

  /** What the swap opens is held by the swapping thread. */
  lemma SwapHolds(p: Params, s: State, i: nat, u: nat, k: nat)
    requires Inv(p, s) && i < |s.threads| && p.IsEdge(u, k) && After(p, s, i).dist[u] != s.dist[u]
    ensures HeldBy(p, After(p, s, i), i, u, k) && Bin(After(p, s, i).dist[u], p.delta) >= s.curr
  {
    OwnPcOk(p, s, i);
    assert ThreadFits(p, s, s.threads[i]);
  }

  lemma StepCovers(p: Params, s: State, i: nat, u: nat, k: nat)
    requires Inv(p, s) && i < |s.threads| && Open(p, After(p, s, i).dist, u, k)
    ensures Bin(After(p, s, i).dist[u], p.delta) >= s.curr && Pending(p, After(p, s, i), u, k)
  {
    var s' := After(p, s, i);
    StepLowers(p, s, i);
    if s'.dist[u] != s.dist[u] {
      SwapHolds(p, s, i, u, k);
    } else {
      assert Open(p, s.dist, u, k);
      if u in s.frontier && Bin(s.dist[u], p.delta) == s.next {
        FrontierHolds(p, s, i, u);
      } else {
        var j: nat :| HeldBy(p, s, j, u, k);
        if j == i {
          OwnHolds(p, s, i, u, k);
        } else {
          assert HeldBy(p, s', j, u, k);
        }
      }
    }
  }

  lemma FrontierHolds(p: Params, s: State, i: nat, u: nat)
    requires Inv(p, s) && i < |s.threads| && u in s.frontier
    ensures u in After(p, s, i).frontier && After(p, s, i).next == s.next
  {
    assert ThreadFits(p, s, s.threads[i]);
  }

  lemma StepBacked(p: Params, s: State, i: nat)
    requires Inv(p, s) && i < |s.threads| && !AtBarrier(s.threads[i].pc)
    ensures Backed(p, After(p, s, i))
  {
    var s' := After(p, s, i);
    var t := s.threads[i];
    assert ThreadFits(p, s, t);
    if t.pc.Vote? {
      FirstFullIs(t.bins, s.curr, p.maxBin);
      if s'.next < s.next {
        assert Backs(s', i);
      }
    }
    if s'.next == s.next < p.maxBin && !s.phase.Finished? && s.frontier == [] {
      var j: nat :| Backs(s, j);
      assert j != i ==> Backs(s', j);
    }
  }

  lemma StepKeepsInv(p: Params, s: State, s': State, i: nat)
    requires StepOf(p, s, s', i)
    ensures Inv(p, s')
  {
    StepLowers(p, s, i);
    OwnBinsOk(p, s, i);
    OwnAhead(p, s, i);
    StepBacked(p, s, i);
    forall j | 0 <= j < |s'.threads|
      ensures ThreadFits(p, s', s'.threads[j])
    {
      if j == i { OwnFits(p, s, i); } else { OtherFits(p, s, i, j); }
    }
    forall u: nat, k: nat | Open(p, s'.dist, u, k)
      ensures Bin(s'.dist[u], p.delta) >= s'.curr && Pending(p, s', u, k)
    {
      StepCovers(p, s, i, u, k);
    }
    assert ThreadFits(p, s, s.threads[i]);
  }

  // ---- barriers ----

  lemma FirstBarrierKeeps(p: Params, s: State, s': State)
    requires FirstBarrier(p, s, s')
    ensures Inv(p, s')
  {
    forall j | 0 <= j < |s'.threads|
      ensures ThreadFits(p, s', s'.threads[j])
    {
      assert ThreadFits(p, s, s.threads[j]);
    }
    forall u: nat, k: nat | Open(p, s'.dist, u, k)
      ensures Bin(s'.dist[u], p.delta) >= s'.curr && Pending(p, s', u, k)
    {
      assert Open(p, s.dist, u, k);
      var j: nat :| HeldBy(p, s, j, u, k);
      assert HeldBy(p, s', j, u, k);
    }
    if s.next < p.maxBin {
      var j: nat :| Backs(s, j);
      assert Backs(s', j);
    }
  }

  /** Behind the second barrier every open edge belongs to the next bin or a later one. */
  lemma CollectedCovers(p: Params, s: State, u: nat, k: nat)
    requires Inv(p, s) && s.phase.Collecting? && AllAt(s.threads, Waiting) && Open(p, s.dist, u, k)
    ensures s.next < p.maxBin && Bin(s.dist[u], p.delta) >= s.next
    ensures u in s.frontier || exists i: nat :: i < |s.threads| && Has(s.threads[i].bins, Bin(s.dist[u], p.delta), u)
  {
    if !(u in s.frontier && Bin(s.dist[u], p.delta) == s.next) {
      var i: nat :| HeldBy(p, s, i, u, k);
      assert ThreadFits(p, s, s.threads[i]);
      assert Has(s.threads[i].bins, Bin(s.dist[u], p.delta), u);
    }
    assert s.dist[u] < p.inf;
    BinBound(s.dist[u], p.delta);
  }

  lemma HandedFits(p: Params, s: State, s': State, shares: seq<seq<nat>>, j: nat)
    requires NextIteration(p, s, s', shares) && j < |s'.threads|
    ensures ThreadFits(p, s', s'.threads[j])
  {
    assert ThreadFits(p, s, s.threads[j]);
    forall i | 0 <= i < |shares[j]|
      ensures shares[j][i] < |p.g|
    {
      SplitHas(s.frontier, shares, |s.threads|, shares[j][i]);
    }
  }

  lemma HandedCovers(p: Params, s: State, s': State, shares: seq<seq<nat>>, u: nat, k: nat)
    requires NextIteration(p, s, s', shares) && Open(p, s'.dist, u, k)
    ensures Bin(s'.dist[u], p.delta) >= s'.curr && Pending(p, s', u, k)
  {
    CollectedCovers(p, s, u, k);
    if u in s.frontier {
      SplitHas(s.frontier, shares, |s.threads|, u);
      var i :| 0 <= i < |shares| && u in shares[i];
      assert HeldBy(p, s', i, u, k);
    } else {
      var i: nat :| i < |s.threads| && Has(s.threads[i].bins, Bin(s.dist[u], p.delta), u);
      assert HeldBy(p, s', i, u, k);
    }
  }

  lemma NextIterationKeeps(p: Params, s: State, s': State, shares: seq<seq<nat>>)
    requires NextIteration(p, s, s', shares)
    ensures Inv(p, s')
  {
    forall j | 0 <= j < |s'.threads|
      ensures ThreadFits(p, s', s'.threads[j])
    {
      HandedFits(p, s, s', shares, j);
    }
    forall u: nat, k: nat | Open(p, s'.dist, u, k)
      ensures Bin(s'.dist[u], p.delta) >= s'.curr && Pending(p, s', u, k)
    {
      HandedCovers(p, s, s', shares, u, k);
    }
  }

  lemma StopKeeps(p: Params, s: State, s': State)
    requires Stop(p, s, s')
    ensures Inv(p, s')
  {
    forall j | 0 <= j < |s'.threads|
      ensures ThreadFits(p, s', s'.threads[j])
    {
      assert ThreadFits(p, s, s.threads[j]);
    }
    forall u: nat, k: nat | Open(p, s'.dist, u, k)
      ensures false
    {
      CollectedCovers(p, s, u, k);
    }
  }

  lemma StartKeeps(p: Params, s: State, shares: seq<seq<nat>>)
    requires IsStart(p, s, shares)
    ensures Inv(p, s)
  {
    assert Follow(p.g, p.source, []) == At(p.source, 0);
    forall j | 0 <= j < |s.threads|
      ensures ThreadFits(p, s, s.threads[j])
    {
      forall i | 0 <= i < |shares[j]|
        ensures shares[j][i] < |p.g|
      {
        SplitHas([p.source], shares, p.workers, shares[j][i]);
      }
    }
    forall u: nat, k: nat | Open(p, s.dist, u, k)
      ensures Pending(p, s, u, k)
    {
      SplitHas([p.source], shares, p.workers, u);
      var i :| 0 <= i < |shares| && u in shares[i];
      assert HeldBy(p, s, i, u, k);
    }
  }

  // ---- correctness ----

  ghost predicate Run(p: Params, run: seq<State>) {
    |run| > 0 && forall k :: 0 <= k < |run| - 1 ==> Step(p, run[k], run[k + 1])
  }

  lemma AnyStepKeeps(p: Params, s: State, s': State)
    requires Step(p, s, s')
    ensures Inv(p, s) && Inv(p, s')
  {
    hide Inv;
    if i: nat :| StepOf(p, s, s', i) {
      StepKeepsInv(p, s, s', i);
    } else if FirstBarrier(p, s, s') {
      FirstBarrierKeeps(p, s, s');
    } else if Stop(p, s, s') {
      StopKeeps(p, s, s');
    } else {
      var shares: seq<seq<nat>> :| NextIteration(p, s, s', shares);
      NextIterationKeeps(p, s, s', shares);
    }
  }

  lemma Reachable(p: Params, shares: seq<seq<nat>>, run: seq<State>)
    requires Run(p, run) && IsStart(p, run[0], shares)
    ensures Inv(p, run[|run| - 1])
  {
    if |run| == 1 {
      StartKeeps(p, run[0], shares);
    } else {
      assert Step(p, run[|run| - 2], run[|run| - 2 + 1]);
      AnyStepKeeps(p, run[|run| - 2], run[|run| - 1]);
    }
  }

  /** Whatever the interleaving, the threads end with the true shortest distances. */
  lemma DeltaStepCorrect(p: Params, shares: seq<seq<nat>>, run: seq<State>)
    requires Run(p, run) && IsStart(p, run[0], shares) && run[|run| - 1].phase.Finished?
    ensures Shortest(p.g, p.source, p.inf, run[|run| - 1].dist)
  {
    var s := run[|run| - 1];
    Reachable(p, shares, run);
    forall u: nat
      ensures !Relaxable(p.g, s.dist, u)
    {
      if Relaxable(p.g, s.dist, u) {
        var k :| 0 <= k < |p.g[u]| && s.dist[u] + p.g[u][k].w < s.dist[p.g[u][k].v];
        FinishedCovers(p, s, u, k);
        assert Open(p, s.dist, u, k);
      }
    }
    RelaxedIsShortest(p.g, p.source, p.inf, s.dist);
  }

  lemma FinishedIdle(p: Params, s: State, i: nat, u: nat, k: nat)
    requires Inv(p, s) && s.phase.Finished? && p.IsEdge(u, k) && s.dist[u] < p.inf
    ensures !HeldBy(p, s, i, u, k)
  {
    BinBound(s.dist[u], p.delta);
    assert i < |s.threads| ==> ThreadFits(p, s, s.threads[i]);
  }

  lemma FinishedCovers(p: Params, s: State, u: nat, k: nat)
    requires Inv(p, s) && s.phase.Finished? && p.IsEdge(u, k)
    ensures !Open(p, s.dist, u, k)
  {
    BinBound(s.dist[u], p.delta);
    forall i: nat | s.dist[u] < p.inf
      ensures !HeldBy(p, s, i, u, k)
    {
      FinishedIdle(p, s, i, u, k);
    }
  }

  // ---- termination ----

  ghost function Degree(p: Params, u: nat): nat { if u < |p.g| then |p.g[u]| else 0 }

  /** Steps that an entry of a work list may still cost. */
  ghost function Cost(p: Params, u: nat): nat { 6 * Degree(p, u) + 4 }

  /** An entry of a bin also pays for what the threads do between iterations. */
  ghost function BinCost(p: Params, u: nat): nat { Cost(p, u) + 6 * p.workers + 1 }

  ghost function RestCost(p: Params, l: seq<nat>): nat {
    if l == [] then 0 else Cost(p, l[0]) + RestCost(p, l[1..])
  }

  ghost function ListCost(p: Params, l: seq<nat>): nat { RestCost(p, l) + |l| * (6 * p.workers + 1) }

  ghost function BinsCost(p: Params, bins: Bins): nat {
    if bins == [] then 0 else ListCost(p, bins[0]) + BinsCost(p, bins[1..])
  }

  ghost function EdgeCost(p: Params, u: nat, k: nat): nat {
    9 + 6 * (if k < Degree(p, u) then Degree(p, u) - k else 0)
  }

  ghost function PcCost(p: Params, dist: seq<nat>, pc: Pc): nat {
    match pc
    case Take => 8
    case Filter(u) => EdgeCost(p, u, 0) + 1
    case Edge(u, k) => EdgeCost(p, u, k)
    case ReadSource(u, k, _) => EdgeCost(p, u, k + 1) + 5
    case Swap(u, k, was, _) =>
      EdgeCost(p, u, k + 1) +
      if p.IsEdge(u, k) && p.g[u][k].v < |dist| && dist[p.g[u][k].v] == was then 2 else 4
    case Reread(u, k, _) => EdgeCost(p, u, k + 1) + 3
    case Insert(u, k, _) => EdgeCost(p, u, k + 1) + 1 + if p.IsEdge(u, k) then BinCost(p, p.g[u][k].v) else 0
    case Fuse => 7
    case Vote => 6
    case Voted => 5
    case Collect => 3
    case Waiting => 2
    case Done => 0
  }

  ghost function ThreadCost(p: Params, dist: seq<nat>, t: Thread): nat {
    RestCost(p, t.rest) + BinsCost(p, t.bins) + PcCost(p, dist, t.pc)
  }

  ghost function ThreadsCost(p: Params, dist: seq<nat>, threads: seq<Thread>): nat {
    if threads == [] then 0 else ThreadCost(p, dist, threads[0]) + ThreadsCost(p, dist, threads[1..])
  }

  ghost function Work(p: Params, s: State): nat { ThreadsCost(p, s.dist, s.threads) + ListCost(p, s.frontier) }

  lemma {:induction false} RestConcat(p: Params, a: seq<nat>, b: seq<nat>)
    ensures RestCost(p, a + b) == RestCost(p, a) + RestCost(p, b)
  {
    if a == [] {
      assert a + b == b;
    } else {
      assert (a + b)[1..] == a[1..] + b;
      RestConcat(p, a[1..], b);
    }
  }

  lemma ListConcat(p: Params, a: seq<nat>, b: seq<nat>)
    ensures ListCost(p, a + b) == ListCost(p, a) + ListCost(p, b)
  {
    RestConcat(p, a, b);
    var e := 6 * p.workers + 1;
    assert (|a| + |b|) * e == |a| * e + |b| * e;
  }

  lemma {:induction false} BinsUpdate(p: Params, bins: Bins, i: nat, l: seq<nat>)
    requires i < |bins|
    ensures BinsCost(p, bins[i := l]) == BinsCost(p, bins) - ListCost(p, bins[i]) + ListCost(p, l)
  {
    if i == 0 {
      assert bins[i := l][1..] == bins[1..];
    } else {
      assert bins[i := l][1..] == bins[1..][i - 1 := l];
      BinsUpdate(p, bins[1..], i - 1, l);
    }
  }

  lemma {:induction false} EmptyBins(p: Params, bins: Bins, more: Bins)
    requires forall i :: 0 <= i < |more| ==> more[i] == []
    ensures BinsCost(p, bins + more) == BinsCost(p, bins)
    decreases |bins| + |more|
  {
    if bins != [] {
      assert (bins + more)[1..] == bins[1..] + more;
      EmptyBins(p, bins[1..], more);
    } else if more != [] {
      assert bins + more == more;
      assert [] + more[1..] == more[1..];
      EmptyBins(p, [], more[1..]);
    } else {
      assert bins + more == [];
    }
  }

  lemma PushCost(p: Params, bins: Bins, dest: nat, v: nat)
    ensures BinsCost(p, Push(bins, dest, v)) == BinsCost(p, bins) + BinCost(p, v)
  {
    var b := Resize(bins, dest + 1);
    assert BinsCost(p, b) == BinsCost(p, bins) by {
      assert b == bins + b[|bins|..];
      EmptyBins(p, bins, b[|bins|..]);
    }
    BinsUpdate(p, b, dest, b[dest] + [v]);
    ListConcat(p, b[dest], [v]);
    assert [v][1..] == [];
    assert RestCost(p, [v]) == Cost(p, v) + RestCost(p, []);
  }

  /** Emptying a bin gives back what its entries cost, and more than their steps need. */
  lemma EmptyCost(p: Params, bins: Bins, i: nat)
    requires i < |bins|
    ensures BinsCost(p, bins[i := []]) + ListCost(p, bins[i]) == BinsCost(p, bins)
    ensures bins[i] != [] ==> RestCost(p, bins[i]) + 6 * p.workers + 1 <= ListCost(p, bins[i])
  {
    BinsUpdate(p, bins, i, []);
    ListAtLeast(p, bins[i]);
  }

  lemma ListAtLeast(p: Params, l: seq<nat>)
    ensures l != [] ==> RestCost(p, l) + 6 * p.workers + 1 <= ListCost(p, l)
  {
    hide RestCost;
    if l != [] {
      Arith.MulNext(6 * p.workers + 1, 0, |l|);
    }
  }

  lemma {:induction false} ThreadsUpdate(p: Params, dist: seq<nat>, threads: seq<Thread>, i: nat, t: Thread)
    requires i < |threads|
    ensures ThreadsCost(p, dist, threads[i := t])
         == ThreadsCost(p, dist, threads) - ThreadCost(p, dist, threads[i]) + ThreadCost(p, dist, t)
  {
    if i == 0 {
      assert threads[i := t][1..] == threads[1..];
    } else {
      assert threads[i := t][1..] == threads[1..][i - 1 := t];
      ThreadsUpdate(p, dist, threads[1..], i - 1, t);
    }
  }

  /** Without a successful swap a step lowers its thread's cost. */
  lemma OwnWorks(p: Params, s: State, i: nat)
    requires Inv(p, s) && i < |s.threads| && !AtBarrier(s.threads[i].pc) && After(p, s, i).dist == s.dist
    requires !s.threads[i].pc.Collect?
    ensures ThreadCost(p, s.dist, After(p, s, i).threads[i]) < ThreadCost(p, s.dist, s.threads[i])
    ensures After(p, s, i).frontier == s.frontier
  {
    var t := s.threads[i];
    SameFrontier(p, s, i);
    hide Inv, ThreadCost, StepThread;
    match t.pc
    case Take => TakeWorks(p, s, i);
    case Insert(u, k, d) => InsertWorks(p, s, i);
    case Fuse => FuseWorks(p, s, i);
    case Swap(u, k, was, d) => SwapWorks(p, s, i);
    case _ => PlainWorks(p, s, i);
  }

  lemma SameFrontier(p: Params, s: State, i: nat)
    requires Inv(p, s) && i < |s.threads| && !s.threads[i].pc.Collect?
    ensures After(p, s, i).frontier == s.frontier
  {
    assert ThreadFits(p, s, s.threads[i]);
  }

  lemma PlainWorks(p: Params, s: State, i: nat)
    requires Inv(p, s) && i < |s.threads| && !AtBarrier(s.threads[i].pc) && After(p, s, i).dist == s.dist
    requires var pc := s.threads[i].pc; !pc.Take? && !pc.Insert? && !pc.Fuse? && !pc.Swap? && !pc.Collect?
    ensures ThreadCost(p, s.dist, After(p, s, i).threads[i]) < ThreadCost(p, s.dist, s.threads[i])
  {
    hide Covered, Backed, Ahead, BinsCost, RestCost, Attained, InGraph, BinsOk;
    assert ThreadFits(p, s, s.threads[i]);
  }

  lemma TakeWorks(p: Params, s: State, i: nat)
    requires Inv(p, s) && i < |s.threads| && s.threads[i].pc.Take?
    ensures ThreadCost(p, s.dist, After(p, s, i).threads[i]) < ThreadCost(p, s.dist, s.threads[i])
  {
    hide Covered, Backed, Ahead, BinsCost, Attained, InGraph, BinsOk;
    assert ThreadFits(p, s, s.threads[i]);
  }

  lemma InsertWorks(p: Params, s: State, i: nat)
    requires Inv(p, s) && i < |s.threads| && s.threads[i].pc.Insert?
    ensures ThreadCost(p, s.dist, After(p, s, i).threads[i]) < ThreadCost(p, s.dist, s.threads[i])
  {
    hide Covered, Backed, Ahead, BinsCost, RestCost, Attained, InGraph, BinsOk, Push;
    var t := s.threads[i];
    assert ThreadFits(p, s, t);
    PushCost(p, t.bins, Bin(t.pc.d, p.delta), p.g[t.pc.u][t.pc.k].v);
  }

  lemma FuseWorks(p: Params, s: State, i: nat)
    requires Inv(p, s) && i < |s.threads| && s.threads[i].pc.Fuse?
    ensures ThreadCost(p, s.dist, After(p, s, i).threads[i]) < ThreadCost(p, s.dist, s.threads[i])
  {
    hide Covered, Backed, Ahead, BinsCost, ListCost, Attained, InGraph, BinsOk;
    var t := s.threads[i];
    assert ThreadFits(p, s, t);
    if s.curr < |t.bins| {
      EmptyCost(p, t.bins, s.curr);
    }
  }

  lemma SwapWorks(p: Params, s: State, i: nat)
    requires Inv(p, s) && i < |s.threads| && s.threads[i].pc.Swap? && After(p, s, i).dist == s.dist
    ensures ThreadCost(p, s.dist, After(p, s, i).threads[i]) < ThreadCost(p, s.dist, s.threads[i])
  {
    hide Covered, Backed, Ahead, BinsCost, RestCost, Attained, InGraph, BinsOk;
    var t := s.threads[i];
    assert ThreadFits(p, s, t);
    var v := p.g[t.pc.u][t.pc.k].v;
    assert s.dist[v := t.pc.d][v] == t.pc.d;
  }

  lemma CollectWorks(p: Params, s: State, i: nat)
    requires Inv(p, s) && i < |s.threads| && s.threads[i].pc.Collect?
    ensures ThreadCost(p, s.dist, After(p, s, i).threads[i]) + ListCost(p, After(p, s, i).frontier)
          < ThreadCost(p, s.dist, s.threads[i]) + ListCost(p, s.frontier)
    ensures After(p, s, i).dist == s.dist
  {
    hide Covered, Backed, Ahead, BinsCost, RestCost, Attained, InGraph, BinsOk, ListCost;
    var t := s.threads[i];
    assert ThreadFits(p, s, t);
    if s.next < |t.bins| {
      EmptyCost(p, t.bins, s.next);
      ListConcat(p, s.frontier, t.bins[s.next]);
    }
  }

  ghost predicate Progresses(p: Params, s: State, s': State) {
    Sum(s'.dist) < Sum(s.dist) || (s'.dist == s.dist && Work(p, s') < Work(p, s))
  }

  lemma StepWorks(p: Params, s: State, s': State, i: nat)
    requires StepOf(p, s, s', i)
    ensures Progresses(p, s, s')
  {
    StepLowers(p, s, i);
    if s'.dist == s.dist {
      ThreadsUpdate(p, s.dist, s.threads, i, s'.threads[i]);
      if s.threads[i].pc.Collect? { CollectWorks(p, s, i); } else { OwnWorks(p, s, i); }
    }
  }

  lemma {:induction false} RetargetCost(p: Params, dist: seq<nat>, threads: seq<Thread>, from: Pc, to: Pc)
    requires AllAt(threads, from) && PcCost(p, dist, to) < PcCost(p, dist, from)
    ensures ThreadsCost(p, dist, Retarget(threads, to)) <= ThreadsCost(p, dist, threads)
    ensures threads != [] ==> ThreadsCost(p, dist, Retarget(threads, to)) < ThreadsCost(p, dist, threads)
  {
    if threads != [] {
      assert Retarget(threads, to)[1..] == Retarget(threads[1..], to);
      RetargetCost(p, dist, threads[1..], from, to);
    }
  }

  /** Taking one entry out of a list. */
  lemma WithoutOne(p: Params, b: seq<nat>, i: nat, c: seq<nat>)
    requires i < |b| && c == b[..i] + b[i + 1..]
    ensures multiset(b) == multiset{b[i]} + multiset(c) && RestCost(p, b) == Cost(p, b[i]) + RestCost(p, c)
  {
    var t := [b[i]] + b[i + 1..];
    assert b == b[..i] + t;
    assert t[1..] == b[i + 1..];
    RestConcat(p, b[..i], b[i + 1..]);
    RestConcat(p, b[..i], t);
  }

  lemma {:induction false} SameCost(p: Params, a: seq<nat>, b: seq<nat>)
    requires multiset(a) == multiset(b)
    ensures RestCost(p, a) == RestCost(p, b) && |a| == |b|
    decreases |a|
  {
    if a == [] {
      assert b == [] by { assert |multiset(b)| == 0; }
    } else {
      assert a[0] in multiset(b);
      var i :| 0 <= i < |b| && b[i] == a[0];
      var a', c := a[..0] + a[1..], b[..i] + b[i + 1..];
      WithoutOne(p, a, 0, a');
      WithoutOne(p, b, i, c);
      hide RestCost, Cost;
      CancelOne(a[0], multiset(a'), multiset(c));
      SameCost(p, a', c);
    }
  }

  lemma {:induction false} HandOutCost(p: Params, dist: seq<nat>, threads: seq<Thread>, shares: seq<seq<nat>>)
    requires |shares| == |threads| && forall i :: 0 <= i < |threads| ==> threads[i].pc.Waiting? && threads[i].rest == []
    ensures ThreadsCost(p, dist, HandOut(threads, shares))
         == ThreadsCost(p, dist, threads) + 6 * |threads| + RestCost(p, Flat(shares))
  {
    if threads != [] {
      hide BinsCost, RestCost;
      assert HandOut(threads, shares)[1..] == HandOut(threads[1..], shares[1..]);
      HandOutCost(p, dist, threads[1..], shares[1..]);
      RestConcat(p, shares[0], Flat(shares[1..]));
    }
  }

  lemma NextIterationWorks(p: Params, s: State, s': State, shares: seq<seq<nat>>)
    requires NextIteration(p, s, s', shares)
    ensures Progresses(p, s, s')
  {
    forall i | 0 <= i < |s.threads|
      ensures s.threads[i].rest == []
    {
      assert ThreadFits(p, s, s.threads[i]);
    }
    HandOutCost(p, s.dist, s.threads, shares);
    SameCost(p, Flat(shares), s.frontier);
    assert forall i: nat :: !Backs(s, i);
    ListAtLeast(p, s.frontier);
    assert ListCost(p, []) == 0;
  }

  lemma AnyStepWorks(p: Params, s: State, s': State)
    requires Step(p, s, s')
    ensures Progresses(p, s, s')
  {
    if i: nat :| StepOf(p, s, s', i) {
      StepWorks(p, s, s', i);
    } else if FirstBarrier(p, s, s') {
      RetargetCost(p, s.dist, s.threads, Voted, Collect);
    } else if Stop(p, s, s') {
      RetargetCost(p, s.dist, s.threads, Waiting, Done);
    } else {
      var shares: seq<seq<nat>> :| NextIteration(p, s, s', shares);
      NextIterationWorks(p, s, s', shares);
    }
  }

  /** No schedule keeps the threads running forever. */
  lemma {:induction false} DeltaStepTerminates(p: Params, f: nat -> State, k: nat) returns (j: nat)
    requires Inv(p, f(k))
    ensures j >= k && !Step(p, f(j), f(j + 1))
    decreases Sum(f(k).dist), Work(p, f(k))
  {
    hide Inv, Step, Work, Sum;
    if Step(p, f(k), f(k + 1)) {
      AnyStepWorks(p, f(k), f(k + 1));
      AnyStepKeeps(p, f(k), f(k + 1));
      j := DeltaStepTerminates(p, f, k + 1);
    } else {
      j := k;
    }
  }

  ghost predicate Enabled(p: Params, s: State) { exists s': State :: Step(p, s, s') }

  /** And none gets stuck before the end. */
  lemma Progress(p: Params, s: State)
    requires Inv(p, s)
    ensures s.phase.Finished? || Enabled(p, s)
  {
    if i: nat :| i < |s.threads| && !AtBarrier(s.threads[i].pc) {
      assert StepOf(p, s, After(p, s, i), i);
      assert Step(p, s, After(p, s, i));
    } else {
      forall i | 0 <= i < |s.threads|
        ensures s.threads[i].pc == (if s.phase.Working? then Voted else if s.phase.Collecting? then Waiting else Done)
      {
        assert ThreadFits(p, s, s.threads[i]);
      }
      BarrierOpens(p, s);
    }
  }

  lemma BarrierOpens(p: Params, s: State)
    requires Inv(p, s)
    requires s.phase.Working? ==> AllAt(s.threads, Voted)
    requires s.phase.Collecting? ==> AllAt(s.threads, Waiting)
    ensures s.phase.Finished? || Enabled(p, s)
  {
    if s.phase.Working? {
      assert Step(p, s, s.(threads := Retarget(s.threads, Collect), phase := Collecting));
    } else if s.phase.Collecting? && s.next == p.maxBin {
      assert Step(p, s, s.(threads := Retarget(s.threads, Done), phase := Finished));
    } else if s.phase.Collecting? {
      var shares := OneShare(s.frontier, |s.threads|);
      var s' := State(s.dist, s.next, p.maxBin, [], HandOut(s.threads, shares), Working);
      assert NextIteration(p, s, s', shares);
      assert Step(p, s, s');
    }
  }

  /** The threads and the single-threaded loop end with the same array. */
  lemma SameAsSerial(p: Params, shares: seq<seq<nat>>, run: seq<State>, dist: seq<nat>)
    requires Run(p, run) && IsStart(p, run[0], shares) && run[|run| - 1].phase.Finished?
    requires Shortest(p.g, p.source, p.inf, dist)
    ensures run[|run| - 1].dist == dist
  {
    DeltaStepCorrect(p, shares, run);
    ShortestUnique(p.g, p.source, p.inf, run[|run| - 1].dist, dist);
  }
}
