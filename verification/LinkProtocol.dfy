/**
 * Afforest's link phases as a state machine.  Every job is one iteration of the parallel loop
 * over vertices; each shared read and each compare-and-swap is a step of its own, and any job
 * may take the next step.
 */
module LinkProtocol {
  import opened Basics
  import opened Graphs
  import opened Forest

  /** One loop iteration: skip it if comp[u] is the given label, else link u to each target. */
  datatype Job = Job(u: nat, skip: Option<nat>, targets: seq<nat>)

  datatype Pc =
    | CheckSkip                                // about to read comp[u]
    | Next                                     // about to start the next Link: read p1
    | ReadP2(p1: nat)                          // about to read p2
    | Test(p1: nat, p2: nat)                   // loop test, then read comp[high]
    | Cas(high: nat, low: nat)                 // saw comp[high] == high: about to swap
    | RetryHigh(high: nat, low: nat)           // about to read comp[high]
    | RetryParent(high: nat, low: nat, t: nat) // about to read comp[t] into p1
    | RetryLow(high: nat, low: nat, p1: nat)   // about to read comp[low] into p2
    | Done

  datatype Thread = Thread(job: Job, k: nat, pc: Pc)
  datatype State = State(comp: seq<nat>, threads: seq<Thread>)

  /** The job's vertex is tied to one of the two ids and the current target to the other. */
  ghost predicate Tied(comp: seq<nat>, t: Thread, a: nat, b: nat)
    requires t.k < |t.job.targets|
  {
    var v := t.job.targets[t.k];
    || (Joined(comp, t.job.u, a) && Joined(comp, v, b))
    || (Joined(comp, t.job.u, b) && Joined(comp, v, a))
  }

  ghost predicate PcInv(comp: seq<nat>, t: Thread)
    requires IsForest(comp) && t.job.u < |comp| && t.k <= |t.job.targets|
  {
    var busy := t.k < |t.job.targets|;
    match t.pc
    case CheckSkip => t.job.skip.Some?
    case Next => true
    case ReadP2(p1) => busy && Joined(comp, t.job.u, p1)
    case Test(p1, p2) => busy && Tied(comp, t, p1, p2)
    case Cas(high, low) => busy && low < high && Tied(comp, t, high, low)
    case RetryHigh(high, low) => busy && low < high && Tied(comp, t, high, low) && comp[high] < high
    case RetryParent(high, low, p) =>
      busy && low < high && Tied(comp, t, high, low) && p < high && Joined(comp, high, p)
    case RetryLow(high, low, p1) => busy && low < high && p1 < high && Tied(comp, t, p1, low)
    case Done =>
      t.k == |t.job.targets| || (t.job.skip.Some? && Joined(comp, t.job.u, t.job.skip.value))
  }

  ghost predicate JobInRange(n: nat, job: Job) {
    job.u < n && forall j :: 0 <= j < |job.targets| ==> job.targets[j] < n
  }

  ghost predicate ThreadInv(comp: seq<nat>, t: Thread) {
    && IsForest(comp)
    && JobInRange(|comp|, t.job)
    && t.k <= |t.job.targets|
    && (forall j :: 0 <= j < t.k ==> Joined(comp, t.job.u, t.job.targets[j]))
    && PcInv(comp, t)
  }

  ghost predicate Inv(s: State) {
    IsForest(s.comp) && forall i :: 0 <= i < |s.threads| ==> ThreadInv(s.comp, s.threads[i])
  }

  /** What one thread does with one shared access. */
  ghost function StepThread(comp: seq<nat>, t: Thread): (r: (seq<nat>, Thread))
    requires ThreadInv(comp, t)
  {
    match t.pc
    case CheckSkip =>
      (comp, t.(pc := if comp[t.job.u] == t.job.skip.value then Done else Next))
    case Next =>
      (comp, t.(pc := if t.k == |t.job.targets| then Done else ReadP2(comp[t.job.u])))
    case ReadP2(p1) =>
      (comp, t.(pc := Test(p1, comp[t.job.targets[t.k]])))
    case Test(p1, p2) =>
      if p1 == p2 then (comp, t.(k := t.k + 1, pc := Next))
      else
        var high, low := High(p1, p2), Low(p1, p2);
        var pHigh := comp[high];
        if pHigh == low then (comp, t.(k := t.k + 1, pc := Next))
        else (comp, t.(pc := if pHigh == high then Cas(high, low) else RetryHigh(high, low)))
    case Cas(high, low) =>
      if comp[high] == high then (comp[high := low], t.(k := t.k + 1, pc := Next))
      else (comp, t.(pc := RetryHigh(high, low)))
    case RetryHigh(high, low) => (comp, t.(pc := RetryParent(high, low, comp[high])))
    case RetryParent(high, low, p) => (comp, t.(pc := RetryLow(high, low, comp[p])))
    case RetryLow(high, low, p1) => (comp, t.(pc := Test(p1, comp[low])))
    case Done => (comp, t)
  }

  ghost function After(s: State, i: nat): State
    requires Inv(s) && i < |s.threads|
  {
    var (comp, t) := StepThread(s.comp, s.threads[i]);
    State(comp, s.threads[i := t])
  }

  /** Thread i, not yet done, takes its next step. */
  ghost predicate StepOf(s: State, s': State, i: nat) {
    Inv(s) && i < |s.threads| && !s.threads[i].pc.Done? && s' == After(s, i)
  }

  // ---- one step ----

  /** What any step does to `comp`, seen from the outside. */
  ghost predicate Improves(before: seq<nat>, after: seq<nat>) {
    && IsForest(before) && IsForest(after) && Coarsens(before, after)
    && forall x :: 0 <= x < |before| ==> after[x] <= before[x]
  }

  lemma Stable(before: seq<nat>, after: seq<nat>, t: Thread)
    requires Improves(before, after) && ThreadInv(before, t)
    ensures ThreadInv(after, t)
  {
  }

  lemma StepImproves(comp: seq<nat>, t: Thread)
    requires ThreadInv(comp, t)
    ensures Improves(comp, StepThread(comp, t).0)
  {
    if t.pc.Cas? && comp[t.pc.high] == t.pc.high {
      HookJoins(comp, t.pc.high, t.pc.low);
    }
  }

  lemma TestKeepsOwn(comp: seq<nat>, t: Thread)
    requires ThreadInv(comp, t) && t.pc.Test?
    ensures ThreadInv(comp, StepThread(comp, t).1)
  {
    if t.pc.p1 != t.pc.p2 {
      var high, low := High(t.pc.p1, t.pc.p2), Low(t.pc.p1, t.pc.p2);
      assert Tied(comp, t, high, low);
      assert Joined(comp, high, comp[high]);
    }
  }

  lemma CasKeepsOwn(comp: seq<nat>, t: Thread)
    requires ThreadInv(comp, t) && t.pc.Cas?
    ensures ThreadInv(StepThread(comp, t).0, StepThread(comp, t).1)
  {
    if comp[t.pc.high] == t.pc.high {
      HookJoins(comp, t.pc.high, t.pc.low);
      StepImproves(comp, t);
      Stable(comp, StepThread(comp, t).0, t);
    }
  }

  lemma RetryKeepsOwn(comp: seq<nat>, t: Thread)
    requires ThreadInv(comp, t) && (t.pc.RetryHigh? || t.pc.RetryParent? || t.pc.RetryLow?)
    ensures ThreadInv(comp, StepThread(comp, t).1)
  {
    if t.pc.RetryParent? {
      assert Joined(comp, t.pc.t, comp[t.pc.t]);
      assert Tied(comp, t, comp[t.pc.t], t.pc.low);
    } else if t.pc.RetryLow? {
      assert Joined(comp, t.pc.low, comp[t.pc.low]);
      assert Tied(comp, t, t.pc.p1, comp[t.pc.low]);
    }
  }

  lemma StepKeepsOwn(comp: seq<nat>, t: Thread)
    requires ThreadInv(comp, t)
    ensures ThreadInv(StepThread(comp, t).0, StepThread(comp, t).1)
  {
    match t.pc
    case Test(_, _) => TestKeepsOwn(comp, t);
    case Cas(_, _) => CasKeepsOwn(comp, t);
    case RetryHigh(_, _) => RetryKeepsOwn(comp, t);
    case RetryParent(_, _, _) => RetryKeepsOwn(comp, t);
    case RetryLow(_, _, _) => RetryKeepsOwn(comp, t);
    case _ =>
  }

  lemma StepKeepsInv(s: State, s': State, i: nat)
    requires StepOf(s, s', i)
    ensures Inv(s') && Improves(s.comp, s'.comp)
  {
    StepImproves(s.comp, s.threads[i]);
    forall j | 0 <= j < |s'.threads|
      ensures ThreadInv(s'.comp, s'.threads[j])
    {
      if j == i {
        StepKeepsOwn(s.comp, s.threads[i]);
      } else {
        Stable(s.comp, s'.comp, s.threads[j]);
      }
    }
  }

  /** Jobs that only link vertices of one component never merge two components. */
  ghost predicate JobWithin(g: Graph, job: Job) {
    forall j :: 0 <= j < |job.targets| ==> g.Connected(job.u, job.targets[j])
  }

  lemma TiedConnected(g: Graph, comp: seq<nat>, u: nat, v: nat, a: nat, b: nat)
    requires WithinComponents(g, comp) && g.Connected(u, v)
    requires Joined(comp, u, a) && Joined(comp, v, b)
    ensures g.Connected(a, b) && g.Connected(b, a)
  {
    JoinedConnected(g, comp, a, u);
    JoinedConnected(g, comp, v, b);
    g.ConnectedTrans(a, u, v);
    g.ConnectedTrans(a, v, b);
    g.ConnectedSym(a, b);
  }

  lemma StepStaysWithin(g: Graph, s: State, s': State, i: nat)
    requires StepOf(s, s', i) && WithinComponents(g, s.comp) && JobWithin(g, s.threads[i].job)
    ensures WithinComponents(g, s'.comp)
  {
    var t := s.threads[i];
    StepKeepsInv(s, s', i);
    if t.pc.Cas? && s.comp[t.pc.high] == t.pc.high {
      var v := t.job.targets[t.k];
      if Joined(s.comp, t.job.u, t.pc.high) && Joined(s.comp, v, t.pc.low) {
        TiedConnected(g, s.comp, t.job.u, v, t.pc.high, t.pc.low);
      } else {
        TiedConnected(g, s.comp, t.job.u, v, t.pc.low, t.pc.high);
      }
    }
  }

  // ---- every step makes progress ----

  /** Upper bound on the steps a thread still needs, whatever the others do. */
  ghost function Work(n: nat, t: Thread): nat {
    var left := if t.k < |t.job.targets| then |t.job.targets| - t.k - 1 else 0;
    var rest := left * (8 * n + 10);
    var whole := (if t.k < |t.job.targets| then left + 1 else 0) * (8 * n + 10);
    match t.pc
    case CheckSkip => whole + 2
    case Next => whole + 1
    case ReadP2(p1) => rest + 8 * n + 6
    case Test(p1, p2) => rest + 8 * High(p1, p2) + 6
    case Cas(high, low) => rest + 8 * high + 5
    case RetryHigh(high, low) => rest + 8 * high + 4
    case RetryParent(high, low, p) => rest + 8 * high + 3
    case RetryLow(high, low, p1) => rest + 8 * high + 2
    case Done => 0
  }

  lemma WorkUnfolds(n: nat, t: Thread)
    requires t.k < |t.job.targets|
    ensures Work(n, t.(pc := Next)) == Work(n, t.(k := t.k + 1, pc := Next)) + 8 * n + 10
  {
    var left := |t.job.targets| - t.k - 1;
    assert (left + 1) * (8 * n + 10) == left * (8 * n + 10) + 8 * n + 10;
  }

  /** In particular max(p1, p2) is strictly smaller each time the loop of Link is tested again. */
  lemma StepWorks(comp: seq<nat>, t: Thread)
    requires ThreadInv(comp, t) && !t.pc.Done?
    ensures Work(|comp|, StepThread(comp, t).1) < Work(|comp|, t)
  {
    if t.k < |t.job.targets| {
      WorkUnfolds(|comp|, t);
      var w := Work(|comp|, t.(k := t.k + 1, pc := Next));
      var rest := (|t.job.targets| - t.k - 1) * (8 * |comp| + 10);
      assert w == rest + 1;
    }
  }

  ghost function TotalWork(n: nat, threads: seq<Thread>): nat {
    if threads == [] then 0 else Work(n, threads[0]) + TotalWork(n, threads[1..])
  }

  lemma {:induction false} TotalWorkUpdate(n: nat, threads: seq<Thread>, i: nat, t: Thread)
    requires i < |threads|
    ensures TotalWork(n, threads[i := t]) == TotalWork(n, threads) - Work(n, threads[i]) + Work(n, t)
  {
    if i == 0 {
      assert threads[i := t][1..] == threads[1..];
    } else {
      assert threads[i := t][1..] == threads[1..][i - 1 := t];
      TotalWorkUpdate(n, threads[1..], i - 1, t);
    }
  }

  // ---- whole runs ----

  ghost function Start(comp: seq<nat>, jobs: seq<Job>): State {
    State(comp, seq(|jobs|, i requires 0 <= i < |jobs| =>
                      Thread(jobs[i], 0, if jobs[i].skip.Some? then CheckSkip else Next)))
  }

  ghost predicate Linked(s: State, s': State) { exists i: nat :: StepOf(s, s', i) }

  ghost predicate Run(run: seq<State>) {
    |run| > 0 && forall k :: 0 <= k < |run| - 1 ==> Linked(run[k], run[k + 1])
  }

  ghost predicate Enabled(s: State) {
    Inv(s) && exists i: nat :: i < |s.threads| && StepOf(s, After(s, i), i)
  }

  ghost predicate AllDone(s: State) {
    forall i :: 0 <= i < |s.threads| ==> s.threads[i].pc.Done?
  }

  ghost predicate RunnableJobs(g: Graph, jobs: seq<Job>) {
    forall i :: 0 <= i < |jobs| ==> JobInRange(g.N(), jobs[i]) && JobWithin(g, jobs[i])
  }

  /** Every reachable state keeps comp[x] <= x, keeps all that was joined, stays within the
      graph's components, still runs the same jobs, and has used up one unit of work a step. */
  lemma {:induction false} Reachable(g: Graph, comp: seq<nat>, jobs: seq<Job>, run: seq<State>)
    requires WithinComponents(g, comp) && RunnableJobs(g, jobs)
    requires Run(run) && run[0] == Start(comp, jobs)
    ensures var s := run[|run| - 1];
            && Inv(s) && Improves(comp, s.comp) && WithinComponents(g, s.comp)
            && |s.threads| == |jobs| && (forall i :: 0 <= i < |jobs| ==> s.threads[i].job == jobs[i])
            && |run| - 1 + TotalWork(|comp|, s.threads) <= TotalWork(|comp|, run[0].threads)
  {
    if |run| > 1 {
      hide Improves, ThreadInv, Inv, After, Start, WithinComponents, JobWithin, Work, TotalWork, StepOf;
      var pre := run[..|run| - 1];
      forall k | 0 <= k < |pre| - 1
        ensures Linked(pre[k], pre[k + 1])
      {
        assert Linked(run[k], run[k + 1]);
      }
      Reachable(g, comp, jobs, pre);
      var s, s' := run[|run| - 2], run[|run| - 1];
      assert Linked(run[|run| - 2], run[|run| - 2 + 1]);
      var i: nat :| StepOf(s, s', i);
      OneStep(g, comp, jobs, s, s', i);
    }
  }

  /** What one step adds to a run from `comp`. */
  lemma OneStep(g: Graph, comp: seq<nat>, jobs: seq<Job>, s: State, s': State, i: nat)
    requires StepOf(s, s', i) && Inv(s) && Improves(comp, s.comp) && WithinComponents(g, s.comp) && RunnableJobs(g, jobs)
    requires |s.threads| == |jobs| && forall j :: 0 <= j < |jobs| ==> s.threads[j].job == jobs[j]
    ensures Inv(s') && Improves(comp, s'.comp) && WithinComponents(g, s'.comp)
    ensures |s'.threads| == |jobs| && forall j :: 0 <= j < |jobs| ==> s'.threads[j].job == jobs[j]
    ensures TotalWork(|comp|, s'.threads) < TotalWork(|comp|, s.threads)
  {
    assert |comp| == |s.comp|;
    hide Improves, ThreadInv, WithinComponents, JobWithin, Work, TotalWork;
    StepKeepsInv(s, s', i);
    StepStaysWithin(g, s, s', i);
    StepWorks(s.comp, s.threads[i]);
    TotalWorkUpdate(|comp|, s.threads, i, s'.threads[i]);
    ImprovesTrans(comp, s.comp, s'.comp);
  }

  lemma ImprovesTrans(a: seq<nat>, b: seq<nat>, c: seq<nat>)
    requires Improves(a, b) && Improves(b, c)
    ensures Improves(a, c)
  {
  }

  lemma Progress(s: State)
    requires Inv(s)
    ensures AllDone(s) || Enabled(s)
  {
    if !AllDone(s) {
      var i: nat :| i < |s.threads| && !s.threads[i].pc.Done?;
      assert StepOf(s, After(s, i), i);
    }
  }

  /** No schedule can keep the phase running for more than a fixed number of steps, and a
      phase that is not finished can always take a step. */
  lemma LinkPhaseTerminates(g: Graph, comp: seq<nat>, jobs: seq<Job>, run: seq<State>)
    requires WithinComponents(g, comp) && RunnableJobs(g, jobs)
    requires Run(run) && run[0] == Start(comp, jobs)
    ensures |run| - 1 <= TotalWork(|comp|, run[0].threads)
    ensures AllDone(run[|run| - 1]) || Enabled(run[|run| - 1])
  {
    Reachable(g, comp, jobs, run);
    Progress(run[|run| - 1]);
  }

  /** comp' is a possible outcome of running all jobs to completion from comp. */
  ghost predicate LinkPhase(comp: seq<nat>, jobs: seq<Job>, comp': seq<nat>) {
    exists run: seq<State> ::
      Run(run) && run[0] == Start(comp, jobs) && AllDone(run[|run| - 1]) && run[|run| - 1].comp == comp'
  }

  /** Every run goes on to an end, so a phase has an outcome. */
  lemma {:induction false} Completes(g: Graph, comp: seq<nat>, jobs: seq<Job>, run: seq<State>) returns (full: seq<State>)
    requires WithinComponents(g, comp) && RunnableJobs(g, jobs)
    requires Run(run) && run[0] == Start(comp, jobs)
    ensures Run(full) && full[0] == run[0] && AllDone(full[|full| - 1])
    decreases TotalWork(|comp|, run[0].threads) + 1 - |run|
  {
    LinkPhaseTerminates(g, comp, jobs, run);
    if AllDone(run[|run| - 1]) {
      full := run;
    } else {
      hide Inv, Start;
      var s := run[|run| - 1];
      var i: nat :| i < |s.threads| && StepOf(s, After(s, i), i);
      Longer(run, After(s, i));
      full := Completes(g, comp, jobs, run + [After(s, i)]);
    }
  }

  lemma Longer(run: seq<State>, s': State)
    requires Run(run) && Linked(run[|run| - 1], s')
    ensures Run(run + [s'])
  {
    forall k | 0 <= k < |run|
      ensures Linked((run + [s'])[k], (run + [s'])[k + 1])
    {
      if k + 1 < |run| {
        assert Linked(run[k], run[k + 1]);
      }
    }
  }

  lemma LinkPhaseExists(g: Graph, comp: seq<nat>, jobs: seq<Job>) returns (comp': seq<nat>)
    requires WithinComponents(g, comp) && RunnableJobs(g, jobs)
    ensures LinkPhase(comp, jobs, comp')
  {
    var run := Completes(g, comp, jobs, [Start(comp, jobs)]);
    comp' := run[|run| - 1].comp;
  }

  ghost predicate JobServed(comp: seq<nat>, job: Job) {
    || (forall j :: 0 <= j < |job.targets| ==> Joined(comp, job.u, job.targets[j]))
    || (job.skip.Some? && Joined(comp, job.u, job.skip.value))
  }

  /** Whatever the interleaving, a finished phase has joined what its jobs asked for, has
      forgotten nothing and has merged nothing else. */
  lemma LinkPhaseServes(g: Graph, comp: seq<nat>, jobs: seq<Job>, comp': seq<nat>)
    requires WithinComponents(g, comp) && RunnableJobs(g, jobs)
    requires LinkPhase(comp, jobs, comp')
    ensures WithinComponents(g, comp') && Coarsens(comp, comp')
    ensures forall i :: 0 <= i < |jobs| ==> JobServed(comp', jobs[i])
  {
    var run: seq<State> :| Run(run) && run[0] == Start(comp, jobs) && AllDone(run[|run| - 1]) && run[|run| - 1].comp == comp';
    Reachable(g, comp, jobs, run);
    var s := run[|run| - 1];
    forall i | 0 <= i < |jobs|
      ensures JobServed(comp', jobs[i])
    {
      assert ThreadInv(s.comp, s.threads[i]);
    }
  }
}
