/**
 * Afforest as a composition of phases: for each sampling round one link phase over a single
 * neighbour per vertex and a compress phase, then the final link phase that skips one label,
 * then the last compress phase.  Phases are separated by the barriers of the parallel loops.
 */
module Afforest {
  import opened Basics
  import opened Graphs
  import opened Forest
  import opened LinkProtocol
  import CompressProtocol

  ghost function Singletons(n: nat): seq<nat> { seq(n, i => i) }

  /** Neighbours of u from the given position on (the start is clamped to the degree). */
  ghost function NeighboursFrom(s: seq<nat>, start: nat): seq<nat> {
    if start <= |s| then s[start..] else []
  }

  ghost function SampleJobs(g: Graph, r: nat): seq<Job> {
    seq(g.N(), u requires 0 <= u < g.N() =>
          var rest := NeighboursFrom(g.out[u], r);
          Job(u, None, if rest == [] then [] else [rest[0]]))
  }

  ghost function FinalJobs(g: Graph, rounds: nat, sample: nat): seq<Job>
    requires |g.inn| == g.N()
  {
    seq(g.N(), u requires 0 <= u < g.N() =>
          Job(u, Some(sample),
              NeighboursFrom(g.out[u], rounds) + if g.directed then g.inn[u] else []))
  }

  ghost predicate Phase(comp: seq<nat>, jobs: seq<Job>, comp': seq<nat>) {
    exists linked :: LinkPhase(comp, jobs, linked) && CompressProtocol.CompressPhase(linked, comp')
  }

  /** result is a possible outcome of Afforest, for some schedule and some sampled label. */
  ghost predicate Outcome(g: Graph, rounds: nat, sample: nat, comps: seq<seq<nat>>, result: seq<nat>)
    requires g.Valid()
  {
    && |comps| == rounds + 1 && comps[0] == Singletons(g.N())
    && (forall r :: 0 <= r < rounds ==> Phase(comps[r], SampleJobs(g, r), comps[r + 1]))
    && Phase(comps[rounds], FinalJobs(g, rounds, sample), result)
  }

  lemma PhaseServes(g: Graph, comp: seq<nat>, jobs: seq<Job>, comp': seq<nat>)
    requires WithinComponents(g, comp) && RunnableJobs(g, jobs) && Phase(comp, jobs, comp')
    ensures WithinComponents(g, comp') && Stars(comp') && Coarsens(comp, comp')
    ensures forall i :: 0 <= i < |jobs| ==> JobServed(comp', jobs[i])
  {
    var linked :| LinkPhase(comp, jobs, linked) && CompressProtocol.CompressPhase(linked, comp');
    LinkPhaseServes(g, comp, jobs, linked);
    CompressProtocol.CompressFlattens(linked, comp');
    CompressProtocol.CompressStaysWithin(g, linked, comp');
    forall i | 0 <= i < |jobs|
      ensures JobServed(comp', jobs[i])
    {
      assert JobServed(linked, jobs[i]);
    }
  }

  lemma SampleJobsRunnable(g: Graph, r: nat)
    requires g.Valid()
    ensures RunnableJobs(g, SampleJobs(g, r))
  {
    forall u: nat | u < g.N()
      ensures JobInRange(g.N(), SampleJobs(g, r)[u]) && JobWithin(g, SampleJobs(g, r)[u])
    {
      if r < |g.out[u]| {
        assert g.out[u][r] in g.out[u];
        g.ConnectedEdge(u, g.out[u][r]);
      }
    }
  }

  lemma FinalJobsRunnable(g: Graph, rounds: nat, sample: nat)
    requires g.Valid()
    ensures RunnableJobs(g, FinalJobs(g, rounds, sample))
  {
    var jobs := FinalJobs(g, rounds, sample);
    forall u: nat, j: nat | u < g.N() && j < |jobs[u].targets|
      ensures jobs[u].targets[j] < g.N() && g.Connected(u, jobs[u].targets[j])
    {
      var v := jobs[u].targets[j];
      assert v in g.out[u] || v in g.inn[u];
      assert g.Adjacent(u, v);
      g.ConnectedEdge(u, v);
    }
  }

  /** The edges the sampling rounds have linked so far. */
  ghost predicate SampledJoined(g: Graph, rounds: nat, comp: seq<nat>) {
    forall u, k :: 0 <= u < g.N() && 0 <= k < |g.out[u]| && k < rounds ==> Joined(comp, u, g.out[u][k])
  }

  lemma {:induction false} Sampling(g: Graph, rounds: nat, sample: nat, comps: seq<seq<nat>>, r: nat)
    requires g.Valid() && |comps| > r && comps[0] == Singletons(g.N())
    requires forall q :: 0 <= q < r ==> Phase(comps[q], SampleJobs(g, q), comps[q + 1])
    ensures WithinComponents(g, comps[r]) && SampledJoined(g, r, comps[r])
    decreases r
  {
    if r == 0 {
      forall x | 0 <= x < g.N()
        ensures g.Connected(x, comps[0][x])
      {
        g.ConnectedRefl(x);
      }
    } else {
      hide Phase, WithinComponents, SampledJoined;
      Sampling(g, rounds, sample, comps, r - 1);
      assert Phase(comps[r - 1], SampleJobs(g, r - 1), comps[r - 1 + 1]);
      SamplingRound(g, r - 1, comps[r - 1], comps[r]);
    }
  }

  /** One more round links the next neighbour of every vertex. */
  lemma SamplingRound(g: Graph, r: nat, comp: seq<nat>, comp': seq<nat>)
    requires g.Valid() && WithinComponents(g, comp) && SampledJoined(g, r, comp) && Phase(comp, SampleJobs(g, r), comp')
    ensures WithinComponents(g, comp') && SampledJoined(g, r + 1, comp')
  {
    SampleJobsRunnable(g, r);
    var jobs := SampleJobs(g, r);
    PhaseServes(g, comp, jobs, comp');
    hide Phase;
    forall u, k | 0 <= u < g.N() && 0 <= k < |g.out[u]| && k < r + 1
      ensures Joined(comp', u, g.out[u][k])
    {
      if k == r {
        assert JobServed(comp', jobs[u]);
        assert jobs[u].targets[0] == g.out[u][k];
      }
    }
  }

  /** An edge from u to v is joined once u's job is served, or u carries the skipped label. */
  lemma OutEdgeServed(g: Graph, rounds: nat, sample: nat, comp: seq<nat>, u: nat, v: nat)
    requires g.Valid() && u < g.N() && v in g.out[u]
    requires SampledJoined(g, rounds, comp) && JobServed(comp, FinalJobs(g, rounds, sample)[u])
    ensures Joined(comp, u, v) || Joined(comp, u, sample)
  {
    var job := FinalJobs(g, rounds, sample)[u];
    var k :| 0 <= k < |g.out[u]| && g.out[u][k] == v;
    if k >= rounds {
      assert job.targets[k - rounds] == v;
    }
  }

  /** Seen from its head, the same edge is in v's list whether or not the graph is directed. */
  lemma InEdgeServed(g: Graph, rounds: nat, sample: nat, comp: seq<nat>, u: nat, v: nat)
    requires g.Valid() && u < g.N() && v in g.out[u] && v < g.N()
    requires SampledJoined(g, rounds, comp) && JobServed(comp, FinalJobs(g, rounds, sample)[v])
    ensures Joined(comp, u, v) || Joined(comp, v, sample)
  {
    var job := FinalJobs(g, rounds, sample)[v];
    assert u in g.inn[v];
    if g.directed {
      var k :| 0 <= k < |g.inn[v]| && g.inn[v][k] == u;
      assert job.targets[|NeighboursFrom(g.out[v], rounds)| + k] == u;
    } else {
      OutEdgeServed(g, rounds, sample, comp, v, u);
    }
  }

  /** The main result: for every schedule, every number of sampling rounds and every label the
      sampler may return, each vertex ends with the smallest id of its component. */
  lemma AfforestCorrect(g: Graph, rounds: nat, sample: nat, comps: seq<seq<nat>>, result: seq<nat>)
    requires g.Valid() && Outcome(g, rounds, sample, comps, result)
    ensures LabelsComponents(g, result)
  {
    Sampling(g, rounds, sample, comps, rounds);
    FinalJobsRunnable(g, rounds, sample);
    var jobs := FinalJobs(g, rounds, sample);
    PhaseServes(g, comps[rounds], jobs, result);
    forall u: nat, v: nat | u < g.N() && v in g.out[u]
      ensures Joined(result, u, v)
    {
      assert JobServed(result, jobs[u]) && JobServed(result, jobs[v]);
      OutEdgeServed(g, rounds, sample, result, u, v);
      InEdgeServed(g, rounds, sample, result, u, v);
    }
    assert AllEdgesJoined(g, result);
    StarsLabel(g, result);
  }

  lemma PhaseExists(g: Graph, comp: seq<nat>, jobs: seq<Job>) returns (comp': seq<nat>)
    requires WithinComponents(g, comp) && RunnableJobs(g, jobs)
    ensures Phase(comp, jobs, comp')
  {
    var linked := LinkPhaseExists(g, comp, jobs);
    LinkPhaseServes(g, comp, jobs, linked);
    comp' := CompressProtocol.CompressPhaseExists(linked);
  }

  lemma {:induction false} SamplingExists(g: Graph, rounds: nat, sample: nat) returns (comps: seq<seq<nat>>)
    requires g.Valid()
    ensures |comps| == rounds + 1 && comps[0] == Singletons(g.N())
    ensures forall r :: 0 <= r < rounds ==> Phase(comps[r], SampleJobs(g, r), comps[r + 1])
  {
    hide Phase;
    if rounds == 0 {
      comps := [Singletons(g.N())];
    } else {
      var pre := SamplingExists(g, rounds - 1, sample);
      Sampling(g, rounds - 1, sample, pre, rounds - 1);
      SampleJobsRunnable(g, rounds - 1);
      var next := PhaseExists(g, pre[rounds - 1], SampleJobs(g, rounds - 1));
      comps := pre + [next];
    }
  }

  /** Every graph, number of rounds and sampled label has an outcome, so the result above is never empty. */
  lemma OutcomeExists(g: Graph, rounds: nat, sample: nat) returns (comps: seq<seq<nat>>, result: seq<nat>)
    requires g.Valid()
    ensures Outcome(g, rounds, sample, comps, result)
  {
    comps := SamplingExists(g, rounds, sample);
    Sampling(g, rounds, sample, comps, rounds);
    FinalJobsRunnable(g, rounds, sample);
    result := PhaseExists(g, comps[rounds], FinalJobs(g, rounds, sample));
  }
}
