/**
 * The whole direction-optimising search with its threads: rounds of concurrent top-down steps and
 * of concurrent bottom-up steps, in whatever order the heuristic picks the directions.
 */
module ConcurrentSearch {
  import opened Pigeonhole
  import opened Graphs
  import opened BreadthFirstTree
  import opened BreadthFirst
  import opened Shares
  import TD = TopDownProtocol
  import BU = BottomUpProtocol

  /** What the search is given: buffers of `capacity` vertices, `workers` threads. */
  datatype Params = Params(g: Graph, s: nat, capacity: nat, workers: nat, beta: nat) {
    ghost predicate Valid() { g.Valid() && s < g.N() && capacity > 0 && workers > 0 && beta > 0 }
  }

  /** The search between two rounds; the window is what was pushed from `start` on. */
  datatype Config = Config(tree: Tree, d: nat, pushed: seq<nat>, start: nat, front: seq<bool>) {
    ghost predicate Over() { start >= |pushed| }

    ghost function Window(): seq<nat> { if start <= |pushed| then pushed[start..] else [] }
  }

  ghost predicate Good(p: Params, c: Config) {
    p.Valid() && SearchInv(p.g, p.s, c.d, c.tree, c.tree.parent, c.pushed, c.start, c.front)
  }

  // ---- a top-down round ----

  ghost function DownParams(p: Params, c: Config): TD.Params {
    TD.Params(p.g, p.s, c.d, c.tree, c.pushed, c.start, p.capacity, p.workers)
  }

  ghost predicate DownRun(p: Params, c: Config, c': Config, shares: seq<seq<nat>>, run: seq<TD.State>) {
    && TD.Run(DownParams(p, c), run) && TD.IsStart(DownParams(p, c), run[0], shares) && TD.AllDone(run[|run| - 1])
    && var end := run[|run| - 1];
       end.sharedIn <= |end.slots| && c' == Config(end.tree, c.d + 1, end.slots[..end.sharedIn], |c.pushed|, c.front)
  }

  /** Some interleaving of a concurrent top-down step, then the window slides. */
  ghost predicate DownRound(p: Params, c: Config, c': Config) {
    exists shares: seq<seq<nat>>, run: seq<TD.State> :: DownRun(p, c, c', shares, run)
  }

  lemma DownKeeps(p: Params, c: Config, c': Config)
    requires Good(p, c) && DownRound(p, c, c')
    ensures Good(p, c') && Turned(c.tree, c'.tree, |c'.pushed| - c'.start)
  {
    hide TD.Run, TD.IsStart, TD.AllDone, LevelState, QueueHoldsLevel, HarmlessBits, Turned, Unseen, OutVisited;
    var shares: seq<seq<nat>>, run: seq<TD.State> :| DownRun(p, c, c', shares, run);
    assert p.g.Valid();
    TD.TopDownCorrect(DownParams(p, c), shares, run);
    BitsAge(p.g, p.s, c.d, c.tree, c'.tree, c.front);
    TopDownTurned(p.g, p.s, c.d, c.tree, c'.tree, c'.pushed, c'.start);
  }

  // ---- a bottom-up round ----

  /** Between two bottom-up steps; `awake` is the number of vertices found in the last one. */
  datatype Sweep = Sweep(tree: Tree, d: nat, front: seq<bool>, awake: nat)

  ghost function UpParams(p: Params, x: Sweep): BU.Params { BU.Params(p.g, p.s, x.d, x.tree, x.front, p.workers) }

  ghost predicate UpRun(p: Params, x: Sweep, x': Sweep, shares: seq<seq<nat>>, run: seq<BU.State>) {
    && BU.Run(UpParams(p, x), run) && BU.IsStart(UpParams(p, x), run[0], shares) && BU.AllDone(run[|run| - 1])
    && var end := run[|run| - 1];
       x' == Sweep(end.tree, x.d + 1, end.next, BU.Awake(end.threads))
  }

  /** Some interleaving of a concurrent bottom-up step; then the bitmaps are swapped. */
  ghost predicate Swept(p: Params, x: Sweep, x': Sweep) {
    exists shares: seq<seq<nat>>, run: seq<BU.State> :: UpRun(p, x, x', shares, run)
  }

  /** The test of the inner loop. */
  predicate GoesOn(p: Params, x: Sweep, x': Sweep)
    requires p.beta > 0
  {
    x'.awake >= x.awake || x'.awake > p.g.N() / p.beta
  }

  /** Bottom-up steps one after the other for as long as the test says. */
  ghost predicate Sweeps(p: Params, xs: seq<Sweep>)
    requires p.beta > 0
  {
    && |xs| > 0 && (forall k :: 0 <= k < |xs| - 1 ==> Swept(p, xs[k], xs[k + 1]))
    && forall k :: 0 <= k < |xs| - 2 ==> GoesOn(p, xs[k], xs[k + 1])
  }

  ghost predicate WithWindow(front: seq<bool>, window: seq<nat>, front': seq<bool>) {
    |front'| == |front| && forall v: nat :: v < |front| ==> (front'[v] <==> front[v] || v in window)
  }

  /** The vertices of the bits, each once, in whatever order the threads flush them. */
  ghost predicate Listing(bits: seq<bool>, list: seq<nat>) {
    NoRepeat(list) && forall v: nat :: v in list <==> v < |bits| && bits[v]
  }

  ghost predicate UpPhase(p: Params, c: Config, c': Config, xs: seq<Sweep>)
    requires p.beta > 0
  {
    && Sweeps(p, xs) && |xs| > 1 && !GoesOn(p, xs[|xs| - 2], xs[|xs| - 1])
    && xs[0].tree == c.tree && xs[0].d == c.d && xs[0].awake == |c.Window()| && WithWindow(c.front, c.Window(), xs[0].front)
    && c.pushed <= c'.pushed && c'.start == |c.pushed| && Listing(c'.front, c'.Window())
    && var end := xs[|xs| - 1];
       c'.tree == end.tree && c'.d == end.d && c'.front == end.front
  }

  ghost predicate UpRound(p: Params, c: Config, c': Config)
    requires p.beta > 0
  {
    exists xs: seq<Sweep> :: UpPhase(p, c, c', xs)
  }

  /** What every bottom-up step keeps; what was pushed lies above or in the current level. */
  ghost predicate SweepOk(p: Params, pushed: seq<nat>, x: Sweep) {
    && p.g.Valid() && LevelState(p.g, p.s, x.d, x.tree) && HarmlessBits(p.g, x.d, x.tree, x.front)
    && AllLevelBits(x.tree, x.d, x.front) && PushedDownTo(x.tree, x.d, pushed)
  }

  ghost predicate PushedDownTo(t: Tree, d: nat, pushed: seq<nat>) {
    NoRepeat(pushed) && forall i :: 0 <= i < |pushed| ==> Visited(t, pushed[i]) && t.level[pushed[i]] <= d
  }

  /** After at least one step the bits are exactly the current level. */
  ghost predicate SweptOk(p: Params, pushed: seq<nat>, x: Sweep, x': Sweep) {
    && SweepOk(p, pushed, x') && QueueAbove(x'.tree, x'.d, pushed) && x'.d == x.d + 1
    && NextBits(x'.tree, x.d, x'.front) && x'.awake + Unseen(x'.tree.level) == Unseen(x.tree.level)
    && (x'.awake == 0 ==> forall v: nat :: v < p.g.N() ==> x'.tree.level[v] != x'.d)
  }

  lemma SweepKeeps(p: Params, pushed: seq<nat>, x: Sweep, x': Sweep)
    requires SweepOk(p, pushed, x) && Swept(p, x, x')
    ensures SweptOk(p, pushed, x, x')
  {
    var shares: seq<seq<nat>>, run: seq<BU.State> :| UpRun(p, x, x', shares, run);
    hide BU.Run, BU.IsStart, BU.AllDone, BU.Awake;
    BU.BottomUpCorrect(UpParams(p, x), shares, run);
    QueueSinks(x.tree, x'.tree, x.d, pushed);
    NextBitsHarmless(p.g, x.d, x'.tree, x'.front);
    if x'.awake == 0 {
      NobodyAwake(x.tree, x'.tree, x.d);
    }
    hide Unseen, HarmlessBits, AllLevelBits;
  }

  lemma {:induction false} SweepsKeep(p: Params, pushed: seq<nat>, xs: seq<Sweep>)
    requires p.beta > 0 && Sweeps(p, xs) && SweepOk(p, pushed, xs[0]) && xs[0].awake > 0
    ensures SweepOk(p, pushed, xs[|xs| - 1]) && Unseen(xs[|xs| - 1].tree.level) <= Unseen(xs[0].tree.level)
    ensures |xs| > 1 ==>
              && SweptOk(p, pushed, xs[|xs| - 2], xs[|xs| - 1])
              && Unseen(xs[|xs| - 2].tree.level) <= Unseen(xs[0].tree.level)
    ensures |xs| > 1 && GoesOn(p, xs[|xs| - 2], xs[|xs| - 1]) ==> xs[|xs| - 1].awake > 0
  {
    hide Swept, SweepOk;
    if |xs| > 1 {
      var pre := xs[..|xs| - 1];
      Prefix(p, xs);
      SweepsKeep(p, pushed, pre);
      assert Swept(p, xs[|xs| - 2], xs[|xs| - 2 + 1]);
      SweepKeeps(p, pushed, xs[|xs| - 2], xs[|xs| - 1]);
      if |pre| > 1 {
        assert GoesOn(p, xs[|xs| - 3], xs[|xs| - 3 + 1]);
      }
    }
  }

  lemma Prefix(p: Params, xs: seq<Sweep>)
    requires p.beta > 0 && Sweeps(p, xs) && |xs| > 1
    ensures Sweeps(p, xs[..|xs| - 1])
  {
    var pre := xs[..|xs| - 1];
    forall k | 0 <= k < |pre| - 1
      ensures Swept(p, pre[k], pre[k + 1])
    {
      assert Swept(p, xs[k], xs[k + 1]);
    }
    forall k | 0 <= k < |pre| - 2
      ensures GoesOn(p, pre[k], pre[k + 1])
    {
      assert GoesOn(p, xs[k], xs[k + 1]);
    }
  }

  lemma PhaseBegins(p: Params, c: Config, x: Sweep)
    requires Good(p, c) && x.tree == c.tree && x.d == c.d && WithWindow(c.front, c.Window(), x.front)
    ensures SweepOk(p, c.pushed, x)
  {
    WindowBits(p.g, c.d, c.tree, c.pushed, c.start, c.front, x.front);
  }

  /** Listing the bits puts the current level into the window. */
  lemma Listed(t: Tree, d: nat, pushed0: seq<nat>, pushed: seq<nat>, bits: seq<bool>)
    requires QueueAbove(t, d, pushed0) && pushed0 <= pushed && Listing(bits, pushed[|pushed0|..])
    requires |bits| == |t.level| && forall v: nat :: v < |bits| ==> (bits[v] <==> t.level[v] == d)
    ensures QueueHoldsLevel(t, d, pushed, |pushed0|)
  {
    var list := pushed[|pushed0|..];
    assert pushed == pushed0 + list;
    forall i | 0 <= i < |pushed|
      ensures Visited(t, pushed[i]) && (i < |pushed0| <==> t.level[pushed[i]] != d)
    {
      if i >= |pushed0| {
        assert list[i - |pushed0|] in list;
      }
    }
    forall i, j | 0 <= i < j < |pushed|
      ensures pushed[i] != pushed[j]
    {
      if i >= |pushed0| {
        assert list[i - |pushed0|] != list[j - |pushed0|];
      }
    }
  }

  lemma UpKeeps(p: Params, c: Config, c': Config)
    requires Good(p, c) && !c.Over() && UpRound(p, c, c')
    ensures Good(p, c') && Turned(c.tree, c'.tree, |c'.pushed| - c'.start)
  {
    var xs: seq<Sweep> :| UpPhase(p, c, c', xs);
    PhaseBegins(p, c, xs[0]);
    hide Swept, LevelState, HarmlessBits;
    SweepsKeep(p, c.pushed, xs);
    Listed(c'.tree, c'.d, c.pushed, c'.pushed, c'.front);
    if xs[|xs| - 1].awake == 0 {
      WindowOfLevel(c'.tree, c'.d, c'.pushed, c'.start);
    }
  }

  // ---- whole searches ----

  ghost predicate Round(p: Params, c: Config, c': Config) {
    p.Valid() && !c.Over() && (DownRound(p, c, c') || UpRound(p, c, c'))
  }

  ghost predicate Begins(p: Params, c: Config) {
    && p.Valid() && |c.tree.parent| == p.g.N() && c.tree.level == FirstLevels(p.g.N(), p.s)
    && (forall v: nat :: v < p.g.N() ==> c.tree.parent[v] == if v == p.s then p.s else Unvisited(p.g, v))
    && c.d == 0 && c.pushed == [p.s] && c.start == 0
    && |c.front| == p.g.N() && forall v :: 0 <= v < p.g.N() ==> !c.front[v]
  }

  /** Any number of rounds from the start of the search. */
  ghost predicate Search(p: Params, cs: seq<Config>) {
    && |cs| > 0 && Begins(p, cs[0])
    && forall k :: 0 <= k < |cs| - 1 ==> Round(p, cs[k], cs[k + 1])
  }

  lemma BeginsGood(p: Params, c: Config)
    requires Begins(p, c)
    ensures Good(p, c) && !c.Over()
  {
    var t := InitialTree(p.g, p.s, c.tree.parent);
    assert t == c.tree;
    SearchBegins(p.g, p.s, t, c.front);
  }

  lemma RoundKeeps(p: Params, c: Config, c': Config)
    requires Good(p, c) && Round(p, c, c')
    ensures Good(p, c') && Turned(c.tree, c'.tree, |c'.pushed| - c'.start)
  {
    hide SearchInv, Turned;
    if DownRound(p, c, c') {
      DownKeeps(p, c, c');
    } else {
      UpKeeps(p, c, c');
    }
  }

  function Open(c: Config): nat { if c.start < |c.pushed| then 1 else 0 }

  lemma {:induction false} SearchKeeps(p: Params, cs: seq<Config>)
    requires Search(p, cs)
    ensures Good(p, cs[|cs| - 1])
    ensures |cs| - 1 + Unseen(cs[|cs| - 1].tree.level) + Open(cs[|cs| - 1]) <= Unseen(cs[0].tree.level) + 1
  {
    hide Good, Unseen, Begins, DownRound, UpRound;
    if |cs| == 1 {
      BeginsGood(p, cs[0]);
    } else {
      var pre := cs[..|cs| - 1];
      forall k | 0 <= k < |pre| - 1
        ensures Round(p, pre[k], pre[k + 1])
      {
        assert Round(p, cs[k], cs[k + 1]);
      }
      SearchKeeps(p, pre);
      assert Round(p, cs[|cs| - 2], cs[|cs| - 2 + 1]);
      RoundKeeps(p, cs[|cs| - 2], cs[|cs| - 1]);
    }
  }

  /** The last loop. */
  function Settled(parent: seq<int>): (r: seq<int>)
    ensures |r| == |parent| && forall v :: 0 <= v < |parent| ==> r[v] == if parent[v] < -1 then -1 else parent[v]
  {
    seq(|parent|, v requires 0 <= v < |parent| => if parent[v] < -1 then -1 else parent[v])
  }

  /** The main result: whatever the directions and the interleavings, a search that is over has
      found the breadth-first tree. */
  lemma SearchCorrect(p: Params, cs: seq<Config>)
    requires Search(p, cs) && cs[|cs| - 1].Over()
    ensures BreadthFirstTree.BreadthFirst(p.g, p.s, Settled(cs[|cs| - 1].tree.parent))
  {
    hide Begins, Round;
    SearchKeeps(p, cs);
    var c := cs[|cs| - 1];
    SearchEnds(p.g, p.s, c.d, c.tree, c.tree.parent, c.pushed, c.front);
    CertificateSuffices(p.g, p.s, c.d, c.tree, Settled(c.tree.parent));
  }

  // ---- progress ----

  /** From every state either direction can be taken to its end. */
  lemma DownGoes(p: Params, c: Config) returns (c': Config)
    requires Good(p, c)
    ensures DownRound(p, c, c')
  {
    var q := DownParams(p, c);
    var shares := OneShare(c.Window(), p.workers);
    Pigeons(c.pushed, p.g.N());
    var s := TD.State(c.tree, c.pushed + seq(p.g.N() - |c.pushed|, _ => 0), |c.pushed|, [],
                      seq(p.workers, i requires 0 <= i < p.workers => TD.Thread(TD.Take, if i < |shares| then shares[i] else [], [])));
    assert TD.IsStart(q, s, shares);
    hide TD.IsStart, TD.StepThread, TD.Inv;
    var run := TD.Completes(q, shares, [s]);
    TD.TopDownCorrect(q, shares, run);
    var end := run[|run| - 1];
    c' := Config(end.tree, c.d + 1, end.slots[..end.sharedIn], |c.pushed|, c.front);
    assert DownRun(p, c, c', shares, run);
  }

  lemma SweepGoes(p: Params, pushed: seq<nat>, x: Sweep) returns (x': Sweep)
    requires p.Valid() && SweepOk(p, pushed, x)
    ensures Swept(p, x, x')
  {
    var q := UpParams(p, x);
    var shares := OneShare(BU.AllChunks(p.g.N()), p.workers);
    var s := BU.State(x.tree, seq(p.g.N(), _ => false),
                      seq(p.workers, i requires 0 <= i < p.workers => BU.Thread(BU.TakeChunk, if i < |shares| then shares[i] else [], 0)));
    assert BU.IsStart(q, s, shares);
    hide BU.IsStart, BU.StepThread, BU.Inv;
    var run := BU.Completes(q, shares, [s]);
    var end := run[|run| - 1];
    x' := Sweep(end.tree, x.d + 1, end.next, BU.Awake(end.threads));
    assert UpRun(p, x, x', shares, run);
  }

  /** The inner loop ends: each step but the last finds somebody. */
  lemma {:induction false} SweepsGo(p: Params, pushed: seq<nat>, xs: seq<Sweep>) returns (all: seq<Sweep>)
    requires p.Valid() && Sweeps(p, xs) && SweepOk(p, pushed, xs[0]) && xs[0].awake > 0
    requires |xs| > 1 ==> GoesOn(p, xs[|xs| - 2], xs[|xs| - 1])
    ensures Sweeps(p, all) && all[0] == xs[0] && |all| > 1 && !GoesOn(p, all[|all| - 2], all[|all| - 1])
    decreases Unseen(xs[|xs| - 1].tree.level)
  {
    hide Swept, SweepOk;
    var x := xs[|xs| - 1];
    SweepsKeep(p, pushed, xs);
    var x' := SweepGoes(p, pushed, x);
    SweepKeeps(p, pushed, x, x');
    OneMoreSweep(p, xs, x');
    if GoesOn(p, x, x') {
      all := SweepsGo(p, pushed, xs + [x']);
    } else {
      all := xs + [x'];
    }
  }

  lemma OneMoreSweep(p: Params, xs: seq<Sweep>, x': Sweep)
    requires p.beta > 0 && Sweeps(p, xs) && Swept(p, xs[|xs| - 1], x')
    requires |xs| > 1 ==> GoesOn(p, xs[|xs| - 2], xs[|xs| - 1])
    ensures Sweeps(p, xs + [x'])
  {
    hide Swept, GoesOn;
    var all := xs + [x'];
    forall k | 0 <= k < |all| - 1
      ensures Swept(p, all[k], all[k + 1])
    {
      if k < |xs| - 1 {
        assert Swept(p, xs[k], xs[k + 1]);
      }
    }
    forall k | 0 <= k < |all| - 2
      ensures GoesOn(p, all[k], all[k + 1])
    {
      if k < |xs| - 2 {
        assert GoesOn(p, xs[k], xs[k + 1]);
      }
    }
  }

  lemma {:induction false} ListBits(bits: seq<bool>) returns (list: seq<nat>)
    ensures Listing(bits, list)
  {
    if bits == [] {
      list := [];
    } else {
      var n := |bits| - 1;
      var rest := ListBits(bits[..n]);
      list := if bits[n] then rest + [n] else rest;
      forall i | 0 <= i < |rest|
        ensures rest[i] < n
      {
        assert rest[i] in rest;
      }
    }
  }

  lemma UpGoes(p: Params, c: Config) returns (c': Config)
    requires Good(p, c) && !c.Over()
    ensures UpRound(p, c, c')
  {
    var front := seq(p.g.N(), v requires 0 <= v < p.g.N() => (v < |c.front| && c.front[v]) || v in c.Window());
    var x := Sweep(c.tree, c.d, front, |c.Window()|);
    PhaseBegins(p, c, x);
    hide Swept, SweepOk, SearchInv;
    var xs := SweepsGo(p, c.pushed, [x]);
    var end := xs[|xs| - 1];
    var list := ListBits(end.front);
    c' := Config(end.tree, end.d, c.pushed + list, |c.pushed|, end.front);
    assert c'.Window() == list;
    assert UpPhase(p, c, c', xs);
  }

  ghost predicate GoesEitherWay(p: Params, c: Config) {
    p.Valid() && (exists c': Config :: DownRound(p, c, c')) && exists c': Config :: UpRound(p, c, c')
  }

  /** No search takes more rounds than there are vertices, and one that is not over can go on in
      either direction. */
  lemma SearchTerminates(p: Params, cs: seq<Config>)
    requires Search(p, cs)
    ensures |cs| - 1 <= p.g.N()
    ensures !cs[|cs| - 1].Over() ==> GoesEitherWay(p, cs[|cs| - 1])
  {
    hide DownRound, UpRound, Good;
    SearchKeeps(p, cs);
    AllButSource(cs[0].tree.level, p.s);
    if !cs[|cs| - 1].Over() {
      var down := DownGoes(p, cs[|cs| - 1]);
      var up := UpGoes(p, cs[|cs| - 1]);
    }
  }

  lemma {:induction false} AllButSource(level: seq<int>, s: nat)
    requires s < |level| && level[s] >= 0
    ensures Unseen(level) <= |level| - 1
  {
    if s > 0 {
      AllButSource(level[1..], s - 1);
    } else {
      AtMostAll(level[1..]);
    }
  }

  lemma {:induction false} AtMostAll(level: seq<int>)
    ensures Unseen(level) <= |level|
  {
    if level != [] {
      AtMostAll(level[1..]);
    }
  }
}
