/**
 * Shiloach-Vishkin with its parallel loops left parallel.  The hooking test and the store are
 * separate, unsynchronised accesses, so a hook may overwrite another one; the rounds still
 * converge to the component labels.
 */
module HookProtocol {
  import opened Basics
  import opened Graphs
  import opened Forest
  import CompressProtocol
  import Afforest

  datatype Pc =
    | NextEdge                        // about to read comp[u] for the next neighbour
    | ReadV(cu: nat)                  // about to read comp[v]
    | Check(cu: nat, cv: nat)         // compare; about to read comp[high]
    | Flag(high: nat, low: nat)       // about to set `change`
    | Store(high: nat, low: nat)      // about to write comp[high]
    | Done

  datatype Thread = Thread(u: nat, k: nat, pc: Pc)
  datatype State = State(comp: seq<nat>, change: bool, threads: seq<Thread>)

  ghost predicate Shape(g: Graph, t: Thread)
    requires g.Valid()
  {
    && t.u < g.N() && t.k <= |g.out[t.u]|
    && match t.pc
       case NextEdge => true
       case ReadV(cu) => t.k < |g.out[t.u]| && cu < g.N()
       case Check(cu, cv) => t.k < |g.out[t.u]| && cu < g.N() && cv < g.N()
       case Flag(high, low) => t.k < |g.out[t.u]| && low < high < g.N()
       case Store(high, low) => t.k < |g.out[t.u]| && low < high < g.N()
       case Done => t.k == |g.out[t.u]|
  }

  /** One iteration of the loop over vertices, relative to the array s0 the round began with. */
  ghost predicate ThreadInv(g: Graph, s0: seq<nat>, change: bool, t: Thread)
    requires g.Valid() && |s0| == g.N()
  {
    && Shape(g, t)
    && (forall j :: 0 <= j < t.k ==> change || s0[t.u] == s0[g.out[t.u][j]])
    && match t.pc
       case ReadV(cu) => g.Connected(t.u, cu) && (change || cu == s0[t.u])
       case Check(cu, cv) =>
         && g.Connected(t.u, cu) && g.Connected(g.out[t.u][t.k], cv)
         && (change || (cu == s0[t.u] && cv == s0[g.out[t.u][t.k]]))
       case Flag(high, low) => s0[high] == high && g.Connected(high, low)
       case Store(high, low) => s0[high] == high && g.Connected(high, low) && change
       case _ => true
  }

  ghost predicate SomeStoring(threads: seq<Thread>) {
    exists i :: 0 <= i < |threads| && threads[i].pc.Store?
  }

  ghost predicate Inv(g: Graph, s0: seq<nat>, s: State)
    requires g.Valid()
  {
    && |s0| == g.N() && Stars(s0)
    && WithinComponents(g, s.comp) && Below(s0, s.comp)
    && (!s.change ==> s.comp == s0)
    && (s.change ==> Fell(s0, s.comp) || SomeStoring(s.threads))
    && forall i :: 0 <= i < |s.threads| ==> ThreadInv(g, s0, s.change, s.threads[i])
  }

  ghost function After(g: Graph, s: State, i: nat): State
    requires g.Valid() && |s.comp| == g.N() && i < |s.threads| && Shape(g, s.threads[i])
  {
    var t := s.threads[i];
    var next := s.threads[i := t.(k := t.k + 1, pc := NextEdge)];
    match t.pc
    case NextEdge =>
      s.(threads := s.threads[i := t.(pc := if t.k == |g.out[t.u]| then Done else ReadV(s.comp[t.u]))])
    case ReadV(cu) => s.(threads := s.threads[i := t.(pc := Check(cu, s.comp[g.out[t.u][t.k]]))])
    case Check(cu, cv) =>
      if cu == cv then s.(threads := next)
      else
        var high, low := High(cu, cv), Low(cu, cv);
        if high == s.comp[high] then s.(threads := s.threads[i := t.(pc := Flag(high, low))])
        else s.(threads := next)
    case Flag(high, low) => s.(change := true, threads := s.threads[i := t.(pc := Store(high, low))])
    case Store(high, low) => s.(comp := s.comp[high := low], threads := next)
    case Done => s
  }

  ghost predicate StepOf(g: Graph, s: State, s': State, i: nat)
    requires g.Valid()
  {
    && |s.comp| == g.N() && i < |s.threads| && Shape(g, s.threads[i])
    && !s.threads[i].pc.Done? && s' == After(g, s, i)
  }

  // ---- one step ----

  lemma CheckConnects(g: Graph, u: nat, v: nat, cu: nat, cv: nat)
    requires g.Valid() && u < g.N() && v in g.out[u] && v < g.N()
    requires g.Connected(u, cu) && g.Connected(v, cv) && cu != cv
    ensures g.Connected(High(cu, cv), Low(cu, cv))
  {
    g.ConnectedEdge(u, v);
    g.ConnectedSym(u, cu);
    g.ConnectedTrans(cu, u, v);
    g.ConnectedTrans(cu, v, cv);
    g.ConnectedSym(cu, cv);
  }

  lemma OwnStep(g: Graph, s0: seq<nat>, s: State, i: nat)
    requires g.Valid() && Inv(g, s0, s) && i < |s.threads|
    ensures ThreadInv(g, s0, After(g, s, i).change, After(g, s, i).threads[i])
  {
    var t := s.threads[i];
    if t.pc.Check? && t.pc.cu != t.pc.cv {
      CheckConnects(g, t.u, g.out[t.u][t.k], t.pc.cu, t.pc.cv);
    }
  }

  lemma StoreFell(g: Graph, s0: seq<nat>, s: State, i: nat)
    requires g.Valid() && Inv(g, s0, s) && i < |s.threads| && s.threads[i].pc.Store?
    ensures Fell(s0, After(g, s, i).comp) && Below(s0, After(g, s, i).comp)
    ensures WithinComponents(g, After(g, s, i).comp)
  {
    var t := s.threads[i];
    assert After(g, s, i).comp[t.pc.high] < s0[t.pc.high];
  }

  lemma StepKeepsChange(g: Graph, s0: seq<nat>, s: State, i: nat)
    requires g.Valid() && Inv(g, s0, s) && i < |s.threads|
    ensures var s' := After(g, s, i);
            s'.change ==> Fell(s0, s'.comp) || SomeStoring(s'.threads)
  {
    var s' := After(g, s, i);
    if s.threads[i].pc.Store? {
      StoreFell(g, s0, s, i);
    } else if s.threads[i].pc.Flag? {
      assert s'.threads[i].pc.Store?;
    } else if s.change && !Fell(s0, s.comp) {
      var j :| 0 <= j < |s.threads| && s.threads[j].pc.Store?;
      assert s'.threads[j].pc.Store?;
    }
  }

  lemma StepKeepsInv(g: Graph, s0: seq<nat>, s: State, i: nat)
    requires g.Valid() && Inv(g, s0, s) && i < |s.threads|
    ensures Inv(g, s0, After(g, s, i))
  {
    var s' := After(g, s, i);
    StepKeepsChange(g, s0, s, i);
    if s.threads[i].pc.Store? {
      StoreFell(g, s0, s, i);
    }
    forall j | 0 <= j < |s'.threads|
      ensures ThreadInv(g, s0, s'.change, s'.threads[j])
    {
      if j == i {
        OwnStep(g, s0, s, i);
      } else {
        assert ThreadInv(g, s0, s.change, s.threads[j]);
      }
    }
  }

  // ---- every step makes progress ----

  ghost function Work(g: Graph, t: Thread): nat
    requires g.Valid() && Shape(g, t)
  {
    6 * (|g.out[t.u]| - t.k) +
    match t.pc
    case NextEdge => 1
    case ReadV(_) => 0
    case Check(_, _) => -1
    case Flag(_, _) => -2
    case Store(_, _) => -3
    case Done => 0
  }

  ghost function TotalWork(g: Graph, threads: seq<Thread>): nat
    requires g.Valid() && forall i :: 0 <= i < |threads| ==> Shape(g, threads[i])
  {
    if threads == [] then 0 else Work(g, threads[0]) + TotalWork(g, threads[1..])
  }

  lemma {:induction false} TotalWorkUpdate(g: Graph, threads: seq<Thread>, i: nat, t: Thread)
    requires g.Valid() && (forall j :: 0 <= j < |threads| ==> Shape(g, threads[j]))
    requires i < |threads| && Shape(g, t)
    ensures TotalWork(g, threads[i := t]) == TotalWork(g, threads) - Work(g, threads[i]) + Work(g, t)
  {
    if i == 0 {
      assert threads[i := t][1..] == threads[1..];
    } else {
      assert threads[i := t][1..] == threads[1..][i - 1 := t];
      TotalWorkUpdate(g, threads[1..], i - 1, t);
    }
  }

  // ---- one round ----

  ghost function Start(g: Graph, comp: seq<nat>): State {
    State(comp, false, seq(g.N(), u requires 0 <= u < g.N() => Thread(u, 0, NextEdge)))
  }

  ghost predicate Linked(g: Graph, s: State, s': State)
    requires g.Valid()
  {
    exists i: nat :: StepOf(g, s, s', i)
  }

  ghost predicate Run(g: Graph, run: seq<State>)
    requires g.Valid()
  {
    |run| > 0 && forall k :: 0 <= k < |run| - 1 ==> Linked(g, run[k], run[k + 1])
  }

  ghost predicate AllDone(s: State) {
    forall i :: 0 <= i < |s.threads| ==> s.threads[i].pc.Done?
  }

  ghost predicate Owned(g: Graph, s: State) {
    |s.threads| == g.N() && forall i :: 0 <= i < g.N() ==> s.threads[i].u == i
  }

  lemma OwnWorks(g: Graph, s: State, s': State, i: nat)
    requires g.Valid() && StepOf(g, s, s', i) && Shape(g, s'.threads[i])
    ensures s'.threads == s.threads[i := s'.threads[i]]
    ensures s'.threads[i].u == s.threads[i].u
    ensures Work(g, s'.threads[i]) < Work(g, s.threads[i])
  {
  }

  lemma StepWorks(g: Graph, s0: seq<nat>, s: State, s': State, i: nat)
    requires g.Valid() && Inv(g, s0, s) && StepOf(g, s, s', i) && Owned(g, s)
    ensures Inv(g, s0, s') && Owned(g, s')
    ensures TotalWork(g, s'.threads) < TotalWork(g, s.threads)
  {
    StepKeepsInv(g, s0, s, i);
    assert ThreadInv(g, s0, s'.change, s'.threads[i]);
    OwnWorks(g, s, s', i);
    TotalWorkUpdate(g, s.threads, i, s'.threads[i]);
  }

  lemma {:induction false} Reachable(g: Graph, s0: seq<nat>, run: seq<State>)
    requires g.Valid() && Stars(s0) && WithinComponents(g, s0)
    requires Run(g, run) && run[0] == Start(g, s0)
    ensures var s := run[|run| - 1];
            && Inv(g, s0, s) && Owned(g, s)
            && |run| - 1 + TotalWork(g, s.threads) <= TotalWork(g, Start(g, s0).threads)
  {
    if |run| > 1 {
      var pre := run[..|run| - 1];
      forall k | 0 <= k < |pre| - 1
        ensures Linked(g, pre[k], pre[k + 1])
      {
        assert Linked(g, run[k], run[k + 1]);
      }
      Reachable(g, s0, pre);
      var s := run[|run| - 2];
      assert Linked(g, s, run[|run| - 2 + 1]);
      var i: nat :| StepOf(g, s, run[|run| - 1], i);
      StepWorks(g, s0, s, run[|run| - 1], i);
    }
  }

  ghost predicate CanStep(g: Graph, s: State, i: nat)
    requires g.Valid()
  {
    i < |s.threads| && Shape(g, s.threads[i]) && |s.comp| == g.N() && StepOf(g, s, After(g, s, i), i)
  }

  ghost predicate Enabled(g: Graph, s: State)
    requires g.Valid()
  {
    exists i: nat :: CanStep(g, s, i)
  }

  /** A round of hooking cannot run forever and never gets stuck. */
  lemma RoundTerminates(g: Graph, s0: seq<nat>, run: seq<State>)
    requires g.Valid() && Stars(s0) && WithinComponents(g, s0)
    requires Run(g, run) && run[0] == Start(g, s0)
    ensures |run| - 1 <= TotalWork(g, Start(g, s0).threads)
    ensures AllDone(run[|run| - 1]) || Enabled(g, run[|run| - 1])
  {
    Reachable(g, s0, run);
    var s := run[|run| - 1];
    if !AllDone(s) {
      var i: nat :| i < |s.threads| && !s.threads[i].pc.Done?;
      assert CanStep(g, s, i);
    }
  }

  /** One iteration of the outer loop: hook in some interleaving, then compress in some. */
  ghost predicate Round(g: Graph, comp: seq<nat>, change: bool, comp': seq<nat>)
    requires g.Valid()
  {
    exists run: seq<State> ::
      && Run(g, run) && run[0] == Start(g, comp) && AllDone(run[|run| - 1])
      && run[|run| - 1].change == change
      && CompressProtocol.CompressPhase(run[|run| - 1].comp, comp')
  }

  /** Every round begins and ends with stars inside components; a round that hooked anything
      strictly lowers the sum of the array, and one that did not has found the labels. */
  lemma RoundProgress(g: Graph, comp: seq<nat>, change: bool, comp': seq<nat>)
    requires g.Valid() && Stars(comp) && WithinComponents(g, comp)
    requires Round(g, comp, change, comp')
    ensures Stars(comp') && WithinComponents(g, comp')
    ensures change ==> Sum(comp') < Sum(comp)
    ensures !change ==> LabelsComponents(g, comp')
  {
    var run: seq<State> :|
      && Run(g, run) && run[0] == Start(g, comp) && AllDone(run[|run| - 1])
      && run[|run| - 1].change == change
      && CompressProtocol.CompressPhase(run[|run| - 1].comp, comp');
    Reachable(g, comp, run);
    hide Run, Start;
    var s := run[|run| - 1];
    HookedSum(g, comp, s);
    CompressedSum(g, s.comp, comp');
    if !change {
      NothingHooked(g, comp, s);
      CompressProtocol.CompressFlattens(s.comp, comp');
      StarsLabel(g, comp');
    }
  }

  lemma HookedSum(g: Graph, comp: seq<nat>, s: State)
    requires g.Valid() && Inv(g, comp, s) && AllDone(s)
    ensures WithinComponents(g, s.comp) && Sum(s.comp) <= Sum(comp)
    ensures s.change ==> Sum(s.comp) < Sum(comp)
    ensures !s.change ==> s.comp == comp
  {
    SumBelow(comp, s.comp);
  }

  lemma CompressedSum(g: Graph, comp: seq<nat>, comp': seq<nat>)
    requires WithinComponents(g, comp) && CompressProtocol.CompressPhase(comp, comp')
    ensures Stars(comp') && WithinComponents(g, comp') && Sum(comp') <= Sum(comp)
    ensures Stars(comp) ==> comp' == comp
  {
    CompressProtocol.CompressFlattens(comp, comp');
    CompressProtocol.CompressStaysWithin(g, comp, comp');
    hide CompressProtocol.CompressPhase;
    SumBelow(comp, comp');
    if Stars(comp) {
      StarsFixed(comp, comp');
    }
  }

  /** A round that changed nothing has seen equal labels at both ends of every edge. */
  lemma NothingHooked(g: Graph, comp: seq<nat>, s: State)
    requires g.Valid() && Stars(comp) && Inv(g, comp, s) && Owned(g, s) && AllDone(s) && !s.change && |comp| == g.N()
    ensures AllEdgesJoined(g, comp)
  {
    forall u, k | 0 <= u < g.N() && 0 <= k < |g.out[u]|
      ensures comp[u] == comp[g.out[u][k]]
    {
      assert ThreadInv(g, comp, s.change, s.threads[u]);
    }
    EqualLabelsJoin(g, comp);
  }

  /** The arrays at the starts of successive rounds; only the last round leaves `change` unset. */
  ghost predicate Execution(g: Graph, comps: seq<seq<nat>>, result: seq<nat>)
    requires g.Valid()
  {
    && |comps| > 0 && comps[0] == Afforest.Singletons(g.N())
    && (forall r :: 0 <= r < |comps| - 1 ==> Round(g, comps[r], true, comps[r + 1]))
    && Round(g, comps[|comps| - 1], false, result)
  }

  lemma {:induction false} RoundsProgress(g: Graph, comps: seq<seq<nat>>, r: nat)
    requires g.Valid() && r < |comps| && comps[0] == Afforest.Singletons(g.N())
    requires forall q :: 0 <= q < r ==> Round(g, comps[q], true, comps[q + 1])
    ensures Stars(comps[r]) && WithinComponents(g, comps[r])
    ensures r + Sum(comps[r]) <= Sum(comps[0])
    decreases r
  {
    if r == 0 {
      forall x | 0 <= x < g.N()
        ensures g.Connected(x, comps[0][x])
      {
        g.ConnectedRefl(x);
      }
    } else {
      RoundsProgress(g, comps, r - 1);
      RoundProgress(g, comps[r - 1], true, comps[r - 1 + 1]);
    }
  }

  /** Every round goes on to its end. */
  lemma {:induction false} Completes(g: Graph, s0: seq<nat>, run: seq<State>) returns (full: seq<State>)
    requires g.Valid() && Stars(s0) && WithinComponents(g, s0)
    requires Run(g, run) && run[0] == Start(g, s0)
    ensures Run(g, full) && full[0] == run[0] && AllDone(full[|full| - 1])
    decreases TotalWork(g, Start(g, s0).threads) + 1 - |run|
  {
    RoundTerminates(g, s0, run);
    if AllDone(run[|run| - 1]) {
      full := run;
    } else {
      hide Start;
      var s := run[|run| - 1];
      var i: nat :| CanStep(g, s, i);
      Longer(g, run, After(g, s, i));
      full := Completes(g, s0, run + [After(g, s, i)]);
    }
  }

  lemma Longer(g: Graph, run: seq<State>, s': State)
    requires g.Valid() && Run(g, run) && Linked(g, run[|run| - 1], s')
    ensures Run(g, run + [s'])
  {
    forall k | 0 <= k < |run|
      ensures Linked(g, (run + [s'])[k], (run + [s'])[k + 1])
    {
      if k + 1 < |run| {
        assert Linked(g, run[k], run[k + 1]);
      }
    }
  }

  lemma RoundExists(g: Graph, comp: seq<nat>) returns (change: bool, comp': seq<nat>)
    requires g.Valid() && Stars(comp) && WithinComponents(g, comp)
    ensures Round(g, comp, change, comp')
  {
    var run := Completes(g, comp, [Start(g, comp)]);
    Reachable(g, comp, run);
    var s := run[|run| - 1];
    HookedSum(g, comp, s);
    change := s.change;
    comp' := CompressProtocol.CompressPhaseExists(s.comp);
  }

  /** So does the outer loop: every graph has an execution. */
  lemma {:induction false} ExecutionFrom(g: Graph, comps: seq<seq<nat>>) returns (all: seq<seq<nat>>, result: seq<nat>)
    requires g.Valid() && |comps| > 0 && comps[0] == Afforest.Singletons(g.N())
    requires forall r :: 0 <= r < |comps| - 1 ==> Round(g, comps[r], true, comps[r + 1])
    ensures Execution(g, all, result)
    decreases Sum(comps[|comps| - 1])
  {
    hide Round, Sum;
    var comp := comps[|comps| - 1];
    RoundsProgress(g, comps, |comps| - 1);
    var change, comp' := RoundExists(g, comp);
    if change {
      RoundProgress(g, comp, true, comp');
      var more := comps + [comp'];
      forall r | 0 <= r < |more| - 1
        ensures Round(g, more[r], true, more[r + 1])
      {
        if r + 1 < |comps| {
          assert Round(g, comps[r], true, comps[r + 1]);
        }
      }
      all, result := ExecutionFrom(g, more);
    } else {
      all, result := comps, comp';
    }
  }

  lemma ExecutionExists(g: Graph) returns (comps: seq<seq<nat>>, result: seq<nat>)
    requires g.Valid()
    ensures Execution(g, comps, result)
  {
    comps, result := ExecutionFrom(g, [Afforest.Singletons(g.N())]);
  }

  /** The main result: however the loops are scheduled, the number of rounds is bounded and the
      array returned is exactly the one every outcome of Afforest returns. */
  lemma ShiloachVishkinCorrect(g: Graph, comps: seq<seq<nat>>, result: seq<nat>)
    requires g.Valid() && Execution(g, comps, result)
    ensures |comps| <= Sum(Afforest.Singletons(g.N())) + 1
    ensures LabelsComponents(g, result)
  {
    RoundsProgress(g, comps, |comps| - 1);
    RoundProgress(g, comps[|comps| - 1], false, result);
  }

  lemma SameAsAfforest(g: Graph, comps: seq<seq<nat>>, result: seq<nat>,
                       rounds: nat, sample: nat, phases: seq<seq<nat>>, result': seq<nat>)
    requires g.Valid() && Execution(g, comps, result)
    requires Afforest.Outcome(g, rounds, sample, phases, result')
    ensures result == result'
  {
    ShiloachVishkinCorrect(g, comps, result);
    Afforest.AfforestCorrect(g, rounds, sample, phases, result');
    LabelsUnique(g, result, result');
  }
}
