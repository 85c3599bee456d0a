/**
 * Compress as a state machine: one thread per vertex runs the shortcut loop of that vertex,
 * every read and write of `comp` is a step of its own, and the threads interleave freely.
 */
module CompressProtocol {
  import Graphs
  import opened Forest

  datatype Pc =
    | Head                    // about to read comp[n] for the left side of the test
    | ReadInner(a: nat)       // about to read comp[n] for the right side
    | ReadOuter(a: nat, b: nat) // about to read comp[b] and compare
    | Body                    // about to read comp[n] for the assignment
    | ReadParent(d: nat)      // about to read comp[d]
    | Write(e: nat)           // about to store e into comp[n]
    | Done

  datatype State = State(comp: seq<nat>, pcs: seq<Pc>)

  ghost predicate PcInv(comp: seq<nat>, n: nat, pc: Pc)
    requires IsForest(comp) && n < |comp|
  {
    match pc
    case Head => true
    case ReadInner(a) => a == comp[n]
    case ReadOuter(a, b) => a == comp[n] && b == comp[n]
    case Body => comp[comp[n]] < comp[n]
    case ReadParent(d) => d == comp[n] && comp[d] < d
    case Write(e) => e < comp[n] && Root(comp, e) == Root(comp, n)
    case Done => comp[comp[n]] == comp[n]
  }

  ghost predicate Inv(s: State) {
    && IsForest(s.comp) && |s.pcs| == |s.comp|
    && forall n :: 0 <= n < |s.pcs| ==> PcInv(s.comp, n, s.pcs[n])
  }

  ghost function After(s: State, n: nat): State
    requires Inv(s) && n < |s.pcs|
  {
    var comp := s.comp;
    match s.pcs[n]
    case Head => s.(pcs := s.pcs[n := ReadInner(comp[n])])
    case ReadInner(a) => s.(pcs := s.pcs[n := ReadOuter(a, comp[n])])
    case ReadOuter(a, b) => s.(pcs := s.pcs[n := if a != comp[b] then Body else Done])
    case Body => s.(pcs := s.pcs[n := ReadParent(comp[n])])
    case ReadParent(d) => s.(pcs := s.pcs[n := Write(comp[d])])
    case Write(e) => State(comp[n := e], s.pcs[n := Head])
    case Done => s
  }

  ghost predicate StepOf(s: State, s': State, n: nat) {
    Inv(s) && n < |s.pcs| && !s.pcs[n].Done? && s' == After(s, n)
  }

  /** No step moves a root: the trees keep their vertices, only their depth shrinks. */
  ghost predicate SameRoots(before: seq<nat>, after: seq<nat>) {
    && |before| == |after| && IsForest(before) && IsForest(after)
    && forall x :: 0 <= x < |before| ==> Root(after, x) == Root(before, x) && after[x] <= before[x]
  }

  lemma StepKeepsRoots(s: State, n: nat)
    requires Inv(s) && n < |s.pcs|
    ensures SameRoots(s.comp, After(s, n).comp)
  {
    if s.pcs[n].Write? {
      forall x | 0 <= x < |s.comp|
        ensures Root(s.comp[n := s.pcs[n].e], x) == Root(s.comp, x)
      {
        ShortcutRoot(s.comp, n, s.pcs[n].e, x);
      }
    }
  }

  lemma OthersStable(before: seq<nat>, after: seq<nat>, m: nat, pc: Pc)
    requires SameRoots(before, after) && m < |before| && after[m] == before[m] && PcInv(before, m, pc)
    ensures PcInv(after, m, pc)
  {
    assert before[before[m]] == before[m] ==> Root(after, before[m]) == before[m];
  }

  lemma OwnPc(s: State, n: nat)
    requires Inv(s) && n < |s.pcs| && SameRoots(s.comp, After(s, n).comp)
    ensures PcInv(After(s, n).comp, n, After(s, n).pcs[n])
  {
    assert PcInv(s.comp, n, s.pcs[n]);
    if s.pcs[n].ReadParent? {
      ParentRoot(s.comp, n);
    }
  }

  lemma ParentRoot(comp: seq<nat>, n: nat)
    requires IsForest(comp) && n < |comp|
    ensures Root(comp, comp[comp[n]]) == Root(comp, n)
  {
  }

  lemma StepKeepsInv(s: State, n: nat)
    requires Inv(s) && n < |s.pcs|
    ensures Inv(After(s, n))
  {
    StepKeepsRoots(s, n);
    OwnPc(s, n);
    var s' := After(s, n);
    hide PcInv, Root;
    forall m | 0 <= m < |s'.pcs|
      ensures PcInv(s'.comp, m, s'.pcs[m])
    {
      if m != n {
        OthersStable(s.comp, s'.comp, m, s.pcs[m]);
      }
    }
  }

  /** Upper bound on the steps thread n still needs; only thread n changes it. */
  ghost function Work(comp: seq<nat>, pc: Pc, n: nat): nat
    requires n < |comp|
  {
    match pc
    case Head => 6 * comp[n] + 6
    case ReadInner(_) => 6 * comp[n] + 5
    case ReadOuter(_, _) => 6 * comp[n] + 4
    case Body => 6 * comp[n] + 3
    case ReadParent(_) => 6 * comp[n] + 2
    case Write(_) => 6 * comp[n] + 1
    case Done => 0
  }

  ghost function TotalWork(s: State, k: nat): nat
    requires |s.pcs| == |s.comp| && k <= |s.pcs|
  {
    if k == 0 then 0 else TotalWork(s, k - 1) + Work(s.comp, s.pcs[k - 1], k - 1)
  }

  lemma {:induction false} StepWorks(s: State, n: nat, k: nat)
    requires Inv(s) && n < |s.pcs| && !s.pcs[n].Done? && k <= |s.pcs|
    ensures TotalWork(After(s, n), k) <= TotalWork(s, k)
    ensures n < k ==> TotalWork(After(s, n), k) < TotalWork(s, k)
  {
    if k > 0 {
      StepWorks(s, n, k - 1);
      assert PcInv(s.comp, n, s.pcs[n]);
      hide Root;
    }
  }

  // ---- whole runs ----

  ghost function Start(comp: seq<nat>): State {
    State(comp, seq(|comp|, i => Head))
  }

  ghost predicate Linked(s: State, s': State) { exists n: nat :: StepOf(s, s', n) }

  ghost predicate Run(run: seq<State>) {
    |run| > 0 && forall k :: 0 <= k < |run| - 1 ==> Linked(run[k], run[k + 1])
  }

  ghost predicate AllDone(s: State) { forall n :: 0 <= n < |s.pcs| ==> s.pcs[n].Done? }

  ghost predicate Enabled(s: State) {
    Inv(s) && exists n: nat :: n < |s.pcs| && StepOf(s, After(s, n), n)
  }

  lemma StartKeeps(comp: seq<nat>)
    requires IsForest(comp)
    ensures Inv(Start(comp)) && SameRoots(comp, Start(comp).comp) && |Start(comp).pcs| == |comp|
  {
  }

  /** What one step adds to a run from `comp`. */
  lemma OneStep(comp: seq<nat>, s: State, n: nat)
    requires Inv(s) && SameRoots(comp, s.comp) && n < |s.pcs| && !s.pcs[n].Done?
    ensures Inv(After(s, n)) && SameRoots(comp, After(s, n).comp) && |After(s, n).pcs| == |s.pcs| == |comp|
    ensures |After(s, n).comp| == |s.comp| == |comp| && TotalWork(After(s, n), |comp|) < TotalWork(s, |comp|)
  {
    StepKeepsRoots(s, n);
    StepKeepsInv(s, n);
    StepWorks(s, n, |s.pcs|);
    hide After, Root, TotalWork, PcInv;
  }

  lemma {:induction false} Reachable(comp: seq<nat>, run: seq<State>)
    requires IsForest(comp) && Run(run) && run[0] == Start(comp)
    ensures var s := run[|run| - 1];
            && Inv(s) && SameRoots(comp, s.comp)
            && |run| - 1 + TotalWork(s, |s.pcs|) <= TotalWork(run[0], |comp|)
  {
    if |run| == 1 {
      StartKeeps(comp);
    } else {
      hide Inv, After, Start, TotalWork, SameRoots;
      var pre := run[..|run| - 1];
      forall k | 0 <= k < |pre| - 1
        ensures Linked(pre[k], pre[k + 1])
      {
        assert Linked(run[k], run[k + 1]);
      }
      Reachable(comp, pre);
      var s := run[|run| - 2];
      assert Linked(s, run[|run| - 2 + 1]);
      var n: nat :| StepOf(s, run[|run| - 1], n);
      OneStep(comp, s, n);
    }
  }

  lemma Progress(s: State)
    requires Inv(s)
    ensures AllDone(s) || Enabled(s)
  {
    if !AllDone(s) {
      var n: nat :| n < |s.pcs| && !s.pcs[n].Done?;
      assert StepOf(s, After(s, n), n);
    }
  }

  /** No schedule runs for longer than a fixed number of steps, and none gets stuck early. */
  lemma CompressTerminates(comp: seq<nat>, run: seq<State>)
    requires IsForest(comp) && Run(run) && run[0] == Start(comp)
    ensures |run| - 1 <= TotalWork(run[0], |comp|)
    ensures AllDone(run[|run| - 1]) || Enabled(run[|run| - 1])
  {
    Reachable(comp, run);
    Progress(run[|run| - 1]);
  }

  ghost predicate CompressPhase(comp: seq<nat>, comp': seq<nat>) {
    exists run: seq<State> ::
      Run(run) && run[0] == Start(comp) && AllDone(run[|run| - 1]) && run[|run| - 1].comp == comp'
  }

  /** Every run goes on to an end, so a phase has an outcome. */
  lemma {:induction false} Completes(comp: seq<nat>, run: seq<State>) returns (full: seq<State>)
    requires IsForest(comp) && Run(run) && run[0] == Start(comp)
    ensures Run(full) && full[0] == run[0] && AllDone(full[|full| - 1])
    decreases TotalWork(run[0], |comp|) + 1 - |run|
  {
    CompressTerminates(comp, run);
    if AllDone(run[|run| - 1]) {
      full := run;
    } else {
      var s := run[|run| - 1];
      var n: nat :| n < |s.pcs| && StepOf(s, After(s, n), n);
      Longer(run, After(s, n));
      full := Completes(comp, run + [After(s, n)]);
    }
  }

  lemma Longer(run: seq<State>, s': State)
    requires Run(run) && Linked(run[|run| - 1], s')
    ensures Run(run + [s'])
  {
    forall k | 0 <= k < |run|
      ensures Linked((run + [s'])[k], (run + [s'])[k + 1])
    {
      if k + 1 < |run| {
        assert Linked(run[k], run[k + 1]);
      }
    }
  }

  lemma CompressPhaseExists(comp: seq<nat>) returns (comp': seq<nat>)
    requires IsForest(comp)
    ensures CompressPhase(comp, comp')
  {
    var run := Completes(comp, [Start(comp)]);
    comp' := run[|run| - 1].comp;
  }

  /** Under every interleaving the outcome is the one flat forest with the same roots. */
  lemma CompressFlattens(comp: seq<nat>, comp': seq<nat>)
    requires IsForest(comp) && CompressPhase(comp, comp')
    ensures |comp'| == |comp| && Stars(comp') && SameRoots(comp, comp')
    ensures forall x :: 0 <= x < |comp| ==> comp'[x] == Root(comp, x)
  {
    var run: seq<State> :|
      Run(run) && run[0] == Start(comp) && AllDone(run[|run| - 1]) && run[|run| - 1].comp == comp';
    Reachable(comp, run);
    forall x | 0 <= x < |comp|
      ensures comp'[comp'[x]] == comp'[x] && comp'[x] == Root(comp, x)
    {
      assert PcInv(comp', x, run[|run| - 1].pcs[x]);
    }
  }

  lemma CompressStaysWithin(g: Graphs.Graph, comp: seq<nat>, comp': seq<nat>)
    requires WithinComponents(g, comp) && CompressPhase(comp, comp')
    ensures WithinComponents(g, comp') && Coarsens(comp, comp')
  {
    CompressFlattens(comp, comp');
    forall x | 0 <= x < |comp|
      ensures g.Connected(x, comp'[x])
    {
      RootConnected(g, comp, x);
    }
  }
}
