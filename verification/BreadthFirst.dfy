/**
 * Direction-optimising breadth-first search: the parent array, the two bitmaps and the sliding
 * queue are updated in place, level by level.
 */
module BreadthFirst {
  import opened Pigeonhole
  import opened Graphs
  import opened BreadthFirstTree

  /** Appends are not seen in the window until the window slides. */
  class SlidingQueue {
    var shared: array<nat>
    var sharedIn: nat
    var sharedOutStart: nat
    var sharedOutEnd: nat

    ghost predicate Valid()
      reads this
    {
      sharedOutStart <= sharedOutEnd <= sharedIn <= shared.Length
    }

    ghost function Pushed(): seq<nat>
      requires Valid()
      reads this, shared
    {
      shared[..sharedIn]
    }

    constructor (size: nat)
      ensures Valid() && fresh(shared) && shared.Length == size
      ensures sharedIn == sharedOutStart == sharedOutEnd == 0
    {
      shared := new nat[size](i => 0);
      sharedIn, sharedOutStart, sharedOutEnd := 0, 0, 0;
    }

    method PushBack(x: nat)
      requires Valid() && sharedIn < shared.Length
      modifies this`sharedIn, shared
      ensures Valid() && Pushed() == old(Pushed()) + [x]
    {
      shared[sharedIn] := x;
      sharedIn := sharedIn + 1;
    }

    method SlideWindow()
      requires Valid()
      modifies this`sharedOutStart, this`sharedOutEnd
      ensures Valid() && sharedOutStart == old(sharedOutEnd) && sharedOutEnd == sharedIn
    {
      sharedOutStart := sharedOutEnd;
      sharedOutEnd := sharedIn;
    }
  }

  // ---- what every level keeps ----

  /** All vertices down to level d are found and nothing below it yet. */
  ghost predicate LevelState(g: Graph, s: nat, d: nat, t: Tree)
    requires g.Valid()
  {
    Levelled(g, s, d, t) && forall v: nat :: Visited(t, v) ==> t.level[v] <= d
  }

  /** The window holds exactly level d; all that was ever pushed is distinct and visited. */
  ghost predicate QueueHoldsLevel(t: Tree, d: nat, pushed: seq<nat>, start: nat) {
    && start <= |pushed| && NoRepeat(pushed)
    && (forall i :: 0 <= i < |pushed| ==> Visited(t, pushed[i]))
    && (forall v: nat :: Visited(t, v) && t.level[v] == d <==> v in pushed[start..])
  }

  /** Bits left over in `front` are harmless: their vertices are in the current level, or have
      nothing unvisited behind them. */
  ghost predicate HarmlessBits(g: Graph, d: nat, t: Tree, front: seq<bool>)
    requires g.Valid()
  {
    && |front| == g.N() == |t.level|
    && forall b: nat :: b < g.N() && front[b] ==> Visited(t, b) && (t.level[b] == d || OutVisited(g, t, b, |g.out[b]|))
  }

  /** The first k neighbours of u are visited. */
  ghost predicate OutVisited(g: Graph, t: Tree, u: nat, k: nat)
    requires g.Valid() && u < g.N() && k <= |g.out[u]|
  {
    forall j :: 0 <= j < k ==> Visited(t, g.out[u][j])
  }

  /** Vertices keep the level they were found on; new ones are on level d+1. */
  ghost predicate Extends(t: Tree, t': Tree, d: nat) {
    && |t'.level| == |t.level|
    && (forall v: nat :: Visited(t, v) ==> t'.level[v] == t.level[v])
    && (forall v: nat :: Visited(t', v) && !Visited(t, v) ==> t'.level[v] == d + 1)
  }

  /** Giving v the parent u, one level up. */
  ghost function Adopt(t: Tree, v: nat, u: nat, d: nat): Tree
    requires v < |t.parent| == |t.level|
  {
    Tree(t.parent[v := u], t.level[v := d + 1])
  }

  /** Between levels d and d+1. */
  ghost predicate Between(g: Graph, s: nat, d: nat, t: Tree)
    requires g.Valid()
  {
    Levelled(g, s, d, t) && forall v: nat :: Visited(t, v) ==> t.level[v] <= d + 1
  }

  lemma AdoptKeeps(g: Graph, s: nat, d: nat, t: Tree, u: nat, v: nat)
    requires g.Valid() && Between(g, s, d, t) && u < g.N() && v < g.N() && v in g.out[u]
    requires t.level[u] == d && t.parent[v] < 0
    ensures !Visited(t, v) && Between(g, s, d, Adopt(t, v, u, d)) && Extends(t, Adopt(t, v, u, d), d)
  {
    assert TreeVertex(g, s, t, v);
    var t' := Adopt(t, v, u, d);
    forall x: nat | x < g.N()
      ensures TreeVertex(g, s, t', x)
    {
      assert TreeVertex(g, s, t, x);
    }
  }

  // ---- top-down step ----

  /** What has been appended since the step began: level d+1 so far, each vertex once. */
  ghost predicate Appended(t: Tree, d: nat, pushed0: seq<nat>, pushed: seq<nat>) {
    && pushed0 <= pushed && NoRepeat(pushed)
    && (forall i :: 0 <= i < |pushed| ==> Visited(t, pushed[i]))
    && (forall v: nat :: Visited(t, v) && t.level[v] == d + 1 <==> v in pushed[|pushed0|..])
  }

  lemma AppendAdopted(t: Tree, d: nat, pushed0: seq<nat>, pushed: seq<nat>, v: nat, u: nat)
    requires Appended(t, d, pushed0, pushed) && v < |t.level| == |t.parent| && !Visited(t, v)
    ensures |pushed| < |t.level|
    ensures Appended(Adopt(t, v, u, d), d, pushed0, pushed + [v])
  {
    Pigeons(pushed + [v], |t.level|);
    assert (pushed + [v])[|pushed0|..] == pushed[|pushed0|..] + [v];
  }

  ghost predicate StepInv(g: Graph, s: nat, d: nat, t: Tree, pushed0: seq<nat>, pushed: seq<nat>)
    requires g.Valid()
  {
    Between(g, s, d, t) && Appended(t, d, pushed0, pushed)
  }

  /** The swap on one neighbour's parent; returns what it adds to the scout count. */
  method Claim(g: Graph, ghost s: nat, ghost d: nat, u: nat, v: nat, parent: array<int>, queue: SlidingQueue,
               ghost t: Tree, ghost pushed0: seq<nat>) returns (scout: int, ghost t': Tree)
    requires g.Valid() && u < g.N() && v in g.out[u] && v < g.N()
    requires queue.Valid() && queue.shared.Length == g.N()
    requires StepInv(g, s, d, t, pushed0, queue.Pushed()) && t.parent == parent[..] && t.level[u] == d
    modifies parent, queue`sharedIn, queue.shared
    ensures queue.Valid() && StepInv(g, s, d, t', pushed0, queue.Pushed()) && t'.parent == parent[..]
    ensures Extends(t, t', d) && Visited(t', v)
  {
    scout, t' := 0, t;
    var currVal := parent[v];
    if currVal < 0 {
      AdoptKeeps(g, s, d, t, u, v);
      AppendAdopted(t, d, pushed0, queue.Pushed(), v, u);
      ghost var q0 := queue.Pushed();
      queue.PushBack(v);
      parent[v] := u;
      t' := Adopt(t, v, u, d);
      assert parent[..] == t.parent[v := u];
      assert queue.Pushed() == q0 + [v];
      scout := -currVal;
    } else {
      assert TreeVertex(g, s, t, v);
    }
  }

  lemma OneMoreVisited(g: Graph, d: nat, t0: Tree, t: Tree, t': Tree, u: nat, k: nat)
    requires g.Valid() && u < g.N() && k < |g.out[u]|
    requires OutVisited(g, t, u, k) && Extends(t0, t, d) && Extends(t, t', d) && Visited(t', g.out[u][k])
    ensures OutVisited(g, t', u, k + 1) && Extends(t0, t', d)
  {
  }

  /** Inner loop of the top-down step. */
  method ClaimNeighbours(g: Graph, ghost s: nat, ghost d: nat, u: nat, parent: array<int>, queue: SlidingQueue,
                         ghost t0: Tree, ghost pushed0: seq<nat>) returns (scout: int, ghost t: Tree)
    requires g.Valid() && u < g.N()
    requires queue.Valid() && queue.shared.Length == g.N()
    requires StepInv(g, s, d, t0, pushed0, queue.Pushed()) && t0.parent == parent[..] && t0.level[u] == d
    modifies parent, queue`sharedIn, queue.shared
    ensures queue.Valid() && StepInv(g, s, d, t, pushed0, queue.Pushed()) && t.parent == parent[..]
    ensures OutVisited(g, t, u, |g.out[u]|) && Extends(t0, t, d)
  {
    scout, t := 0, t0;
    for k := 0 to |g.out[u]|
      invariant queue.Valid()
      invariant StepInv(g, s, d, t, pushed0, queue.Pushed()) && t.parent == parent[..] && t.level[u] == d
      invariant OutVisited(g, t, u, k) && Extends(t0, t, d)
    {
      ghost var before := t;
      var more;
      more, t := Claim(g, s, d, u, g.out[u][k], parent, queue, t, pushed0);
      OneMoreVisited(g, d, t0, before, t, u, k);
      scout := scout + more;
    }
  }

  ghost predicate WindowVisited(g: Graph, t: Tree, window: seq<nat>)
    requires g.Valid()
  {
    forall i :: 0 <= i < |window| ==> window[i] < g.N() && OutVisited(g, t, window[i], |g.out[window[i]]|)
  }

  lemma WindowGrows(g: Graph, d: nat, t: Tree, t': Tree, window: seq<nat>, u: nat)
    requires g.Valid() && u < g.N() && WindowVisited(g, t, window)
    requires Extends(t, t', d) && OutVisited(g, t', u, |g.out[u]|)
    ensures WindowVisited(g, t', window + [u])
  {
    forall i | 0 <= i < |window|
      ensures OutVisited(g, t', window[i], |g.out[window[i]]|)
    {
      assert OutVisited(g, t, window[i], |g.out[window[i]]|);
    }
  }

  /** When every vertex of level d has been expanded the next level is complete. */
  lemma LevelDone(g: Graph, s: nat, d: nat, t: Tree)
    requires g.Valid() && Between(g, s, d, t)
    requires forall u: nat :: u < g.N() && t.level[u] == d ==> OutVisited(g, t, u, |g.out[u]|)
    ensures LevelState(g, s, d + 1, t)
  {
    forall u: nat, k: nat | u < g.N() && k < |g.out[u]| && 0 <= t.level[u] < d + 1
      ensures t.level[g.out[u][k]] >= 0
    {
      if t.level[u] == d {
        assert Visited(t, g.out[u][k]);
      }
    }
  }

  lemma TopDownDone(g: Graph, s: nat, d: nat, t0: Tree, t: Tree, pushed0: seq<nat>, start: nat, pushed: seq<nat>)
    requires g.Valid() && LevelState(g, s, d, t0) && QueueHoldsLevel(t0, d, pushed0, start) && Extends(t0, t, d)
    requires StepInv(g, s, d, t, pushed0, pushed) && WindowVisited(g, t, pushed0[start..])
    ensures LevelState(g, s, d + 1, t) && QueueHoldsLevel(t, d + 1, pushed, |pushed0|)
  {
    forall u: nat | u < g.N() && t.level[u] == d
      ensures OutVisited(g, t, u, |g.out[u]|)
    {
      assert u in pushed0[start..];
      var i :| 0 <= i < |pushed0[start..]| && pushed0[start..][i] == u;
    }
    LevelDone(g, s, d, t);
  }

  method TDStep(g: Graph, ghost s: nat, ghost d: nat, parent: array<int>, queue: SlidingQueue, ghost t0: Tree)
    returns (scoutCount: int, ghost t: Tree)
    requires g.Valid() && LevelState(g, s, d, t0) && t0.parent == parent[..]
    requires queue.Valid() && queue.shared.Length == g.N() && queue.sharedOutEnd == queue.sharedIn
    requires QueueHoldsLevel(t0, d, queue.Pushed(), queue.sharedOutStart)
    modifies parent, queue`sharedIn, queue.shared
    ensures queue.Valid() && LevelState(g, s, d + 1, t) && t.parent == parent[..] && Extends(t0, t, d)
    ensures QueueHoldsLevel(t, d + 1, queue.Pushed(), queue.sharedOutEnd)
  {
    assert |t0.level| == g.N();
    hide LevelState, StepInv, OutVisited;
    ghost var pushed0, start := queue.Pushed(), queue.sharedOutStart;
    scoutCount, t := 0, t0;
    StepBegins(g, s, d, t0, pushed0, start);
    for i := queue.sharedOutStart to queue.sharedOutEnd
      invariant queue.Valid()
      invariant StepInv(g, s, d, t, pushed0, queue.Pushed()) && t.parent == parent[..]
      invariant WindowVisited(g, t, pushed0[start..i]) && Extends(t0, t, d)
    {
      var u := queue.shared[i];
      WindowEntry(t0, d, pushed0, start, queue.Pushed(), i);
      ghost var before := t;
      var scout;
      scout, t := ClaimNeighbours(g, s, d, u, parent, queue, t, pushed0);
      scoutCount := scoutCount + scout;
      WindowGrows(g, d, before, t, pushed0[start..i], u);
      WindowNext(pushed0, start, i);
    }
    assert pushed0[start..] == pushed0[start..|pushed0|];
    TopDownDone(g, s, d, t0, t, pushed0, start, queue.Pushed());
  }

  lemma StepBegins(g: Graph, s: nat, d: nat, t: Tree, pushed0: seq<nat>, start: nat)
    requires g.Valid() && LevelState(g, s, d, t) && QueueHoldsLevel(t, d, pushed0, start)
    ensures StepInv(g, s, d, t, pushed0, pushed0)
  {
  }

  lemma WindowNext(pushed: seq<nat>, start: nat, i: nat)
    requires start <= i < |pushed|
    ensures pushed[start..i + 1] == pushed[start..i] + [pushed[i]]
  {
  }

  lemma WindowEntry(t0: Tree, d: nat, pushed0: seq<nat>, start: nat, pushed: seq<nat>, i: nat)
    requires QueueHoldsLevel(t0, d, pushed0, start) && pushed0 <= pushed && start <= i < |pushed0|
    ensures pushed[i] == pushed0[i] && Visited(t0, pushed0[i]) && t0.level[pushed0[i]] == d
  {
    assert pushed0[start..][i - start] == pushed0[i];
  }

  // ---- bottom-up step ----

  ghost function Unseen(level: seq<int>): nat {
    if level == [] then 0 else (if level[0] < 0 then 1 else 0) + Unseen(level[1..])
  }

  lemma {:induction false} UnseenFalls(level: seq<int>, v: nat, x: int)
    requires v < |level| && level[v] < 0 <= x
    ensures Unseen(level[v := x]) == Unseen(level) - 1
  {
    if v == 0 {
      assert level[v := x][1..] == level[1..];
    } else {
      assert level[v := x][1..] == level[1..][v - 1 := x];
      UnseenFalls(level[1..], v - 1, x);
    }
  }

  /** The bits of `next` are the vertices found in this step. */
  ghost predicate NextBits(t: Tree, d: nat, next: seq<bool>) {
    |next| == |t.level| && forall v: nat :: v < |next| ==> (next[v] <==> t.level[v] == d + 1)
  }

  ghost predicate AllLevelBits(t: Tree, d: nat, front: seq<bool>) {
    |front| == |t.level| && forall v: nat :: v < |front| && t.level[v] == d ==> front[v]
  }

  /** A bit can only make a parent of a vertex of the current level: stale bits have nothing
      unvisited behind them. */
  lemma BitIsFresh(g: Graph, d: nat, t0: Tree, t: Tree, front: seq<bool>, u: nat, v: nat)
    requires g.Valid() && HarmlessBits(g, d, t0, front) && Extends(t0, t, d)
    requires u < g.N() && v < g.N() && u in g.out[v] && front[v] && !Visited(t, u)
    ensures t.level[v] == d
  {
  }

  /** u has been looked at: it is visited, or none of its in-neighbours is in level d. */
  ghost predicate LookedAt(g: Graph, d: nat, t: Tree, u: nat)
    requires g.Valid() && u < g.N() && |t.level| == g.N()
  {
    Visited(t, u) || forall k :: 0 <= k < |g.inn[u]| ==> t.level[g.inn[u][k]] != d
  }

  lemma BottomUpDone(g: Graph, s: nat, d: nat, t: Tree)
    requires g.Valid() && Between(g, s, d, t) && forall u: nat :: u < g.N() ==> LookedAt(g, d, t, u)
    ensures LevelState(g, s, d + 1, t)
  {
    forall u: nat | u < g.N() && t.level[u] == d
      ensures OutVisited(g, t, u, |g.out[u]|)
    {
      forall j | 0 <= j < |g.out[u]|
        ensures Visited(t, g.out[u][j])
      {
        var v := g.out[u][j];
        assert v in g.out[u] && u in g.inn[v];
        assert LookedAt(g, d, t, v);
      }
    }
    LevelDone(g, s, d, t);
  }

  /** Scan of the in-neighbours of one unvisited vertex. */
  method FindParent(g: Graph, ghost d: nat, u: nat, front: array<bool>, ghost t0: Tree, ghost t: Tree) returns (found: bool, v: nat)
    requires g.Valid() && u < g.N() && front.Length == g.N()
    requires HarmlessBits(g, d, t0, front[..]) && AllLevelBits(t, d, front[..]) && Extends(t0, t, d) && !Visited(t, u)
    ensures found ==> v < g.N() && u in g.out[v] && t.level[v] == d
    ensures !found ==> LookedAt(g, d, t, u)
  {
    v := 0;
    for k := 0 to |g.inn[u]|
      invariant forall j :: 0 <= j < k ==> t.level[g.inn[u][j]] != d
    {
      v := g.inn[u][k];
      assert v in g.inn[u] && u in g.out[v];
      if front[v] {
        BitIsFresh(g, d, t0, t, front[..], u, v);
        return true, v;
      }
    }
    return false, v;
  }

  lemma LookedAtStays(g: Graph, d: nat, t: Tree, t': Tree, u: nat)
    requires g.Valid() && u < g.N() && |t.level| == g.N() && Extends(t, t', d) && LookedAt(g, d, t, u)
    ensures LookedAt(g, d, t', u)
  {
  }

  ghost predicate AllLookedAt(g: Graph, d: nat, t: Tree, n: nat)
    requires g.Valid() && |t.level| == g.N() && n <= g.N()
  {
    forall u: nat :: u < n ==> LookedAt(g, d, t, u)
  }

  lemma LookedAtGrows(g: Graph, d: nat, t0: Tree, t: Tree, t': Tree, u: nat)
    requires g.Valid() && u < g.N() && |t.level| == g.N() && AllLookedAt(g, d, t, u)
    requires Extends(t0, t, d) && Extends(t, t', d) && LookedAt(g, d, t', u)
    ensures AllLookedAt(g, d, t', u + 1) && Extends(t0, t', d)
  {
    forall x: nat | x < u
      ensures LookedAt(g, d, t', x)
    {
      LookedAtStays(g, d, t, t', x);
    }
  }

  ghost predicate BottomUpInv(g: Graph, s: nat, d: nat, t0: Tree, t: Tree, front: seq<bool>, next: seq<bool>, awake: nat)
    requires g.Valid()
  {
    && Between(g, s, d, t) && Extends(t0, t, d)
    && HarmlessBits(g, d, t0, front) && AllLevelBits(t, d, front) && NextBits(t, d, next)
    && awake + Unseen(t.level) == Unseen(t0.level)
  }

  lemma BottomUpAdopt(g: Graph, s: nat, d: nat, t0: Tree, t: Tree, front: seq<bool>, next: seq<bool>, awake: nat, u: nat, v: nat)
    requires g.Valid() && BottomUpInv(g, s, d, t0, t, front, next, awake)
    requires u < g.N() && v < g.N() && u in g.out[v] && t.level[v] == d && t.parent[u] < 0
    ensures BottomUpInv(g, s, d, t0, Adopt(t, u, v, d), front, next[u := true], awake + 1)
    ensures Extends(t, Adopt(t, u, v, d), d)
  {
    AdoptKeeps(g, s, d, t, v, u);
    UnseenFalls(t.level, u, d + 1);
  }

  /** One vertex of the bottom-up loop. */
  method Wake(g: Graph, ghost s: nat, ghost d: nat, u: nat, parent: array<int>, front: array<bool>, next: array<bool>,
              awake0: nat, ghost t0: Tree, ghost t: Tree) returns (awake: nat, ghost t': Tree)
    requires g.Valid() && u < g.N() && front != next && front.Length == next.Length == g.N()
    requires t.parent == parent[..] && BottomUpInv(g, s, d, t0, t, front[..], next[..], awake0)
    modifies parent, next
    ensures t'.parent == parent[..] && BottomUpInv(g, s, d, t0, t', front[..], next[..], awake)
    ensures Extends(t, t', d) && LookedAt(g, d, t', u)
  {
    awake, t' := awake0, t;
    assert TreeVertex(g, s, t, u);
    if parent[u] < 0 {
      var found, v := FindParent(g, d, u, front, t0, t);
      if found {
        ghost var n0 := next[..];
        BottomUpAdopt(g, s, d, t0, t, front[..], n0, awake, u, v);
        parent[u] := v;
        awake := awake + 1;
        next[u] := true;
        t' := Adopt(t, u, v, d);
        assert next[..] == n0[u := true] && parent[..] == t.parent[u := v];
      }
    }
  }

  method BUStep(g: Graph, ghost s: nat, ghost d: nat, parent: array<int>, front: array<bool>, next: array<bool>, ghost t0: Tree)
    returns (awakeCount: nat, ghost t: Tree)
    requires g.Valid() && LevelState(g, s, d, t0) && t0.parent == parent[..]
    requires front != next && front.Length == next.Length == g.N()
    requires HarmlessBits(g, d, t0, front[..]) && AllLevelBits(t0, d, front[..])
    modifies parent, next
    ensures t.parent == parent[..] && LevelState(g, s, d + 1, t) && Extends(t0, t, d)
    ensures NextBits(t, d, next[..]) && awakeCount + Unseen(t.level) == Unseen(t0.level)
  {
    awakeCount, t := 0, t0;
    for i := 0 to next.Length
      invariant forall j :: 0 <= j < i ==> !next[j]
      invariant parent[..] == t0.parent
    {
      next[i] := false;
    }
    for u := 0 to g.N()
      invariant t.parent == parent[..] && BottomUpInv(g, s, d, t0, t, front[..], next[..], awakeCount)
      invariant AllLookedAt(g, d, t, u)
    {
      ghost var before := t;
      awakeCount, t := Wake(g, s, d, u, parent, front, next, awakeCount, t0, t);
      LookedAtGrows(g, d, t0, before, t, u);
    }
    BottomUpDone(g, s, d, t);
  }

  // ---- the whole search ----

  /** Division of the C++ operator: towards zero. */
  function TruncDiv(a: int, b: nat): int
    requires b > 0
  {
    if a >= 0 then a / b else -((-a) / b)
  }

  function NumEdgesDirected(out: seq<seq<nat>>): nat {
    if out == [] then 0 else |out[0]| + NumEdgesDirected(out[1..])
  }

  method InitParent(g: Graph) returns (parent: array<int>)
    ensures fresh(parent) && parent.Length == g.N()
    ensures forall v: nat :: v < g.N() ==> parent[v] == Unvisited(g, v)
  {
    parent := new int[g.N()](v requires 0 <= v < g.N() => Unvisited(g, v));
  }

  /** Levels before the first turn. */
  ghost function FirstLevels(n: nat, s: nat): (r: seq<int>)
    ensures |r| == n && forall v :: 0 <= v < n ==> r[v] == if v == s then 0 else -1
  {
    seq(n, v => if v == s then 0 else -1)
  }

  lemma InitialTree(g: Graph, s: nat, parent: seq<int>) returns (t: Tree)
    requires g.Valid() && s < g.N() && |parent| == g.N()
    requires forall v: nat :: v < g.N() ==> parent[v] == if v == s then s else Unvisited(g, v)
    ensures t == Tree(parent, FirstLevels(g.N(), s)) && LevelState(g, s, 0, t) && QueueHoldsLevel(t, 0, [s], 0)
  {
    t := Tree(parent, FirstLevels(g.N(), s));
    assert [s][0..][0] == s;
  }

  /** Turns the window into bits of `front`, next to whatever was left there. */
  method QueueToBitmap(queue: SlidingQueue, front: array<bool>)
    requires queue.Valid() && forall i :: 0 <= i < queue.sharedIn ==> queue.shared[i] < front.Length
    modifies front
    ensures forall v: nat :: v < front.Length ==>
              (front[v] <==> old(front[v]) || v in queue.shared[queue.sharedOutStart..queue.sharedOutEnd])
  {
    ghost var start := queue.sharedOutStart;
    for i := queue.sharedOutStart to queue.sharedOutEnd
      invariant forall v: nat :: v < front.Length ==> (front[v] <==> old(front[v]) || v in queue.shared[start..i])
    {
      assert queue.shared[start..i + 1] == queue.shared[start..i] + [queue.shared[i]];
      front[queue.shared[i]] := true;
    }
  }

  lemma WindowBits(g: Graph, d: nat, t: Tree, pushed: seq<nat>, start: nat, front: seq<bool>, front': seq<bool>)
    requires g.Valid() && |front| == |front'| == |t.level| == g.N() && QueueHoldsLevel(t, d, pushed, start)
    requires HarmlessBits(g, d, t, front)
    requires forall v: nat :: v < g.N() ==> (front'[v] <==> front[v] || v in pushed[start..])
    ensures HarmlessBits(g, d, t, front') && AllLevelBits(t, d, front')
  {
  }

  /** Everything in the queue lies above level d: the window is still to be filled from bits. */
  ghost predicate QueueAbove(t: Tree, d: nat, pushed: seq<nat>) {
    NoRepeat(pushed) && forall i :: 0 <= i < |pushed| ==> Visited(t, pushed[i]) && t.level[pushed[i]] < d
  }

  lemma PushBit(t: Tree, d: nat, pushed0: seq<nat>, pushed: seq<nat>, n: nat)
    requires QueueAbove(t, d, pushed0) && n < |t.level| && t.level[n] == d
    requires pushed0 <= pushed && BitsPushed(t, d, pushed0, pushed, n)
    ensures |pushed| < |t.level| && BitsPushed(t, d, pushed0, pushed + [n], n + 1)
  {
    Pigeons(pushed + [n], |t.level|);
    assert (pushed + [n])[|pushed0|..] == pushed[|pushed0|..] + [n];
  }

  /** The vertices of level d below n have been appended, in order. */
  ghost predicate BitsPushed(t: Tree, d: nat, pushed0: seq<nat>, pushed: seq<nat>, n: nat) {
    && pushed0 <= pushed && NoRepeat(pushed) && n <= |t.level|
    && (forall i :: 0 <= i < |pushed| ==> Visited(t, pushed[i]))
    && (forall i :: |pushed0| <= i < |pushed| ==> pushed[i] < n)
    && (forall v: nat :: v < n && t.level[v] == d <==> v in pushed[|pushed0|..])
  }

  method BitmapToQueue(g: Graph, ghost d: nat, bm: array<bool>, queue: SlidingQueue, ghost t: Tree)
    requires bm.Length == g.N() == |t.level| && queue.Valid() && queue.shared.Length == g.N()
    requires queue.sharedOutStart == queue.sharedOutEnd == queue.sharedIn && QueueAbove(t, d, queue.Pushed())
    requires forall v: nat :: v < g.N() ==> (bm[v] <==> t.level[v] == d)
    modifies queue, queue.shared
    ensures queue.Valid() && queue.shared == old(queue.shared) && queue.sharedOutEnd == queue.sharedIn
    ensures QueueHoldsLevel(t, d, queue.Pushed(), queue.sharedOutStart)
  {
    ghost var pushed0 := queue.Pushed();
    for n := 0 to g.N()
      invariant queue.Valid() && queue.shared == old(queue.shared)
      invariant queue.sharedOutEnd == |pushed0|
      invariant BitsPushed(t, d, pushed0, queue.Pushed(), n)
    {
      if bm[n] {
        PushBit(t, d, pushed0, queue.Pushed(), n);
        queue.PushBack(n);
      }
    }
    queue.SlideWindow();
  }

  /** A level after a bottom-up phase: `front` holds exactly its vertices. */
  lemma NextBitsHarmless(g: Graph, d: nat, t: Tree, next: seq<bool>)
    requires g.Valid() && |t.level| == g.N() && NextBits(t, d, next)
    ensures HarmlessBits(g, d + 1, t, next) && AllLevelBits(t, d + 1, next)
  {
  }

  /** After a top-down step every leftover bit has nothing unvisited behind it. */
  lemma BitsAge(g: Graph, s: nat, d: nat, t0: Tree, t: Tree, front: seq<bool>)
    requires g.Valid() && HarmlessBits(g, d, t0, front) && LevelState(g, s, d + 1, t) && Extends(t0, t, d)
    ensures HarmlessBits(g, d + 1, t, front)
    ensures forall b: nat :: b < g.N() && front[b] ==> OutVisited(g, t, b, |g.out[b]|)
  {
    forall b: nat, k | b < g.N() && front[b] && 0 <= k < |g.out[b]|
      ensures Visited(t, g.out[b][k])
    {
      if t0.level[b] != d {
        assert Visited(t0, g.out[b][k]);
      }
    }
  }

  lemma QueueSinks(t0: Tree, t: Tree, d: nat, pushed: seq<nat>)
    requires Extends(t0, t, d) && NoRepeat(pushed)
    requires forall i :: 0 <= i < |pushed| ==> Visited(t0, pushed[i]) && t0.level[pushed[i]] <= d
    ensures QueueAbove(t, d + 1, pushed)
  {
  }

  /** Bottom-up steps until the frontier has become small, from bits back to bits. */
  method BottomUpPhase(g: Graph, ghost s: nat, ghost d0: nat, parent: array<int>, front0: array<bool>, curr0: array<bool>,
                       queueSize: nat, beta: nat, ghost t0: Tree, ghost pushed: seq<nat>)
    returns (front: array<bool>, curr: array<bool>, ghost d: nat, ghost t: Tree)
    requires g.Valid() && LevelState(g, s, d0, t0) && t0.parent == parent[..] && beta > 0 && queueSize > 0
    requires front0 != curr0 && front0.Length == curr0.Length == g.N()
    requires HarmlessBits(g, d0, t0, front0[..]) && AllLevelBits(t0, d0, front0[..])
    requires NoRepeat(pushed) && forall i :: 0 <= i < |pushed| ==> Visited(t0, pushed[i]) && t0.level[pushed[i]] <= d0
    modifies parent, front0, curr0
    ensures {front, curr} == {front0, curr0} && front != curr
    ensures LevelState(g, s, d, t) && t.parent == parent[..] && QueueAbove(t, d, pushed)
    ensures HarmlessBits(g, d, t, front[..]) && forall v: nat :: v < g.N() ==> (front[v] <==> t.level[v] == d)
    ensures Unseen(t.level) <= Unseen(t0.level)
    ensures Unseen(t.level) == Unseen(t0.level) ==> forall v: nat :: v < g.N() ==> t.level[v] != d
  {
    front, curr, d, t := front0, curr0, d0, t0;
    var oldAwakeCount, awakeCount := queueSize, queueSize;
    while true
      invariant {front, curr} == {front0, curr0} && front != curr
      invariant LevelState(g, s, d, t) && t.parent == parent[..]
      invariant HarmlessBits(g, d, t, front[..]) && AllLevelBits(t, d, front[..])
      invariant NoRepeat(pushed) && forall i :: 0 <= i < |pushed| ==> Visited(t, pushed[i]) && t.level[pushed[i]] <= d
      invariant awakeCount > 0 && Unseen(t.level) <= Unseen(t0.level)
      decreases Unseen(t.level)
    {
      oldAwakeCount := awakeCount;
      ghost var before := t;
      awakeCount, t := BUStep(g, s, d, parent, front, curr, t);
      QueueSinks(before, t, d, pushed);
      front, curr := curr, front;
      d := d + 1;
      NextBitsHarmless(g, d - 1, t, front[..]);
      if !(awakeCount >= oldAwakeCount || awakeCount > g.N() / beta) {
        if awakeCount == 0 {
          NobodyAwake(before, t, d - 1);
        }
        return;
      }
    }
  }

  lemma {:induction false} UnseenBound(a: seq<int>, b: seq<int>)
    requires |a| == |b| && forall v :: 0 <= v < |a| && a[v] >= 0 ==> b[v] == a[v]
    ensures Unseen(b) <= Unseen(a) && (Unseen(b) == Unseen(a) ==> forall v :: 0 <= v < |a| && b[v] >= 0 ==> a[v] >= 0)
  {
    if a != [] {
      UnseenBound(a[1..], b[1..]);
    }
  }

  lemma NobodyAwake(t0: Tree, t: Tree, d: nat)
    requires Extends(t0, t, d) && Unseen(t.level) == Unseen(t0.level)
    requires forall v: nat :: Visited(t0, v) ==> t0.level[v] <= d
    ensures forall v: nat :: v < |t.level| ==> t.level[v] != d + 1
  {
    forall v | 0 <= v < |t0.level| && t0.level[v] >= 0
      ensures t.level[v] == t0.level[v]
    {
      assert Visited(t0, v);
    }
    UnseenBound(t0.level, t.level);
  }

  /** What holds each time the outer loop is tested: level d is complete and in the window, and
      whatever an earlier bottom-up phase left in `front` is harmless. */
  ghost predicate SearchInv(g: Graph, s: nat, d: nat, t: Tree, parent: seq<int>, pushed: seq<nat>, start: nat, front: seq<bool>)
    requires g.Valid()
  {
    && LevelState(g, s, d, t) && t.parent == parent
    && QueueHoldsLevel(t, d, pushed, start) && HarmlessBits(g, d, t, front)
  }

  /** Progress of one turn: something was found, or the window is now empty. */
  ghost predicate Turned(t0: Tree, t: Tree, window: nat) {
    Unseen(t.level) < Unseen(t0.level) || (Unseen(t.level) == Unseen(t0.level) && window == 0)
  }

  lemma TopDownTurned(g: Graph, s: nat, d: nat, t0: Tree, t: Tree, pushed: seq<nat>, start: nat)
    requires g.Valid() && LevelState(g, s, d, t0) && Extends(t0, t, d) && |t0.level| == g.N()
    requires QueueHoldsLevel(t, d + 1, pushed, start)
    ensures Turned(t0, t, |pushed| - start)
  {
    forall v | 0 <= v < |t0.level| && t0.level[v] >= 0
      ensures t.level[v] == t0.level[v]
    {
      assert Visited(t0, v);
    }
    UnseenBound(t0.level, t.level);
    if Unseen(t.level) == Unseen(t0.level) {
      NobodyAwake(t0, t, d);
      WindowOfLevel(t, d + 1, pushed, start);
    }
  }

  method TopDownTurn(g: Graph, ghost s: nat, ghost d: nat, parent: array<int>, queue: SlidingQueue,
                     front: array<bool>, ghost t0: Tree) returns (scoutCount: int, ghost t: Tree)
    requires g.Valid() && queue.Valid() && queue.shared.Length == g.N() && queue.sharedOutEnd == queue.sharedIn
    requires SearchInv(g, s, d, t0, parent[..], queue.Pushed(), queue.sharedOutStart, front[..])
    modifies parent, queue, queue.shared
    ensures queue.Valid() && queue.shared == old(queue.shared) && queue.sharedOutEnd == queue.sharedIn
    ensures SearchInv(g, s, d + 1, t, parent[..], queue.Pushed(), queue.sharedOutStart, front[..])
    ensures Turned(t0, t, queue.sharedOutEnd - queue.sharedOutStart)
  {
    ghost var f0 := front[..];
    scoutCount, t := TDStep(g, s, d, parent, queue, t0);
    assert front[..] == f0;
    BitsAge(g, s, d, t0, t, f0);
    TopDownTurned(g, s, d, t0, t, queue.Pushed(), queue.sharedOutEnd);
    queue.SlideWindow();
  }

  method BottomUpTurn(g: Graph, ghost s: nat, ghost d0: nat, parent: array<int>, queue: SlidingQueue,
                      front0: array<bool>, curr0: array<bool>, beta: nat, ghost t0: Tree)
    returns (front: array<bool>, curr: array<bool>, ghost d: nat, ghost t: Tree)
    requires g.Valid() && queue.Valid() && queue.shared.Length == g.N() && queue.sharedOutEnd == queue.sharedIn
    requires SearchInv(g, s, d0, t0, parent[..], queue.Pushed(), queue.sharedOutStart, front0[..]) && beta > 0
    requires queue.sharedOutStart < queue.sharedOutEnd
    requires front0 != curr0 && front0.Length == curr0.Length == g.N()
    modifies parent, queue, queue.shared, front0, curr0
    ensures {front, curr} == {front0, curr0} && front != curr
    ensures queue.Valid() && queue.shared == old(queue.shared) && queue.sharedOutEnd == queue.sharedIn
    ensures SearchInv(g, s, d, t, parent[..], queue.Pushed(), queue.sharedOutStart, front[..])
    ensures Turned(t0, t, queue.sharedOutEnd - queue.sharedOutStart)
  {
    ghost var f0, pushed, start, p0 := front0[..], queue.Pushed(), queue.sharedOutStart, parent[..];
    QueueToBitmap(queue, front0);
    assert queue.shared[queue.sharedOutStart..queue.sharedOutEnd] == pushed[start..];
    WindowBits(g, d0, t0, pushed, start, f0, front0[..]);
    var awakeCount := queue.sharedOutEnd - queue.sharedOutStart;
    queue.SlideWindow();
    assert parent[..] == p0;
    front, curr, d, t := BottomUpPhase(g, s, d0, parent, front0, curr0, awakeCount, beta, t0, pushed);
    assert queue.Pushed() == pushed;
    BitmapToQueue(g, d, front, queue, t);
    WindowOfLevel(t, d, queue.Pushed(), queue.sharedOutStart);
  }

  lemma WindowOfLevel(t: Tree, d: nat, pushed: seq<nat>, start: nat)
    requires QueueHoldsLevel(t, d, pushed, start)
    ensures (forall v: nat :: v < |t.level| ==> t.level[v] != d) ==> |pushed| == start
  {
    if start < |pushed| {
      assert pushed[start..][0] in pushed[start..];
    }
  }

  /** One turn of the outer loop, in the direction the heuristic picks. */
  method Turn(g: Graph, ghost s: nat, ghost d0: nat, parent: array<int>, queue: SlidingQueue,
              front0: array<bool>, curr0: array<bool>, alpha: nat, beta: nat,
              edges0: int, scout0: int, ghost t0: Tree)
    returns (front: array<bool>, curr: array<bool>, edgesToCheck: int, scoutCount: int, ghost d: nat, ghost t: Tree)
    requires g.Valid() && queue.Valid() && queue.shared.Length == g.N() && queue.sharedOutEnd == queue.sharedIn
    requires SearchInv(g, s, d0, t0, parent[..], queue.Pushed(), queue.sharedOutStart, front0[..])
    requires alpha > 0 && beta > 0 && queue.sharedOutStart != queue.sharedOutEnd
    requires front0 != curr0 && front0.Length == curr0.Length == g.N()
    modifies parent, queue, queue.shared, front0, curr0
    ensures {front, curr} == {front0, curr0} && front != curr
    ensures queue.Valid() && queue.shared == old(queue.shared) && queue.sharedOutEnd == queue.sharedIn
    ensures SearchInv(g, s, d, t, parent[..], queue.Pushed(), queue.sharedOutStart, front[..])
    ensures Turned(t0, t, queue.sharedOutEnd - queue.sharedOutStart)
  {
    if scout0 > TruncDiv(edges0, alpha) {
      edgesToCheck := edges0;
      front, curr, d, t := BottomUpTurn(g, s, d0, parent, queue, front0, curr0, beta, t0);
      scoutCount := 1;
    } else {
      edgesToCheck := edges0 - scout0;
      front, curr, d := front0, curr0, d0 + 1;
      scoutCount, t := TopDownTurn(g, s, d0, parent, queue, front0, t0);
    }
  }

  method StartQueue(n: nat, source: nat) returns (queue: SlidingQueue)
    requires source < n
    ensures fresh(queue) && fresh(queue.shared) && queue.Valid() && queue.shared.Length == n
    ensures queue.sharedOutStart == 0 && queue.sharedOutEnd == queue.sharedIn && queue.Pushed() == [source]
  {
    queue := new SlidingQueue(n);
    queue.PushBack(source);
    queue.SlideWindow();
  }

  /** The main result: for every graph, source and switching parameters the search ends with
      the breadth-first tree, in a queue of one slot per vertex. */
  method DOBFS(g: Graph, source: nat, alpha: nat, beta: nat) returns (parent: array<int>)
    requires g.Valid() && source < g.N() && alpha > 0 && beta > 0
    ensures fresh(parent) && BreadthFirst(g, source, parent[..])
  {
    parent := InitParent(g);
    parent[source] := source;
    ghost var d: nat := 0;
    ghost var t := InitialTree(g, source, parent[..]);
    var queue := StartQueue(g.N(), source);
    var curr := new bool[g.N()](i => false);
    var front := new bool[g.N()](i => false);
    SearchBegins(g, source, t, front[..]);
    hide SearchInv, LevelState, QueueHoldsLevel;
    var edgesToCheck: int := NumEdgesDirected(g.out);
    var scoutCount: int := |g.out[source]|;
    while queue.sharedOutStart != queue.sharedOutEnd
      invariant fresh(parent) && fresh(queue) && fresh(queue.shared) && fresh(front) && fresh(curr)
      invariant front != curr && front.Length == curr.Length == g.N()
      invariant queue.Valid() && queue.shared.Length == g.N() && queue.sharedOutEnd == queue.sharedIn
      invariant SearchInv(g, source, d, t, parent[..], queue.Pushed(), queue.sharedOutStart, front[..])
      decreases Unseen(t.level), queue.sharedOutEnd - queue.sharedOutStart
    {
      front, curr, edgesToCheck, scoutCount, d, t :=
        Turn(g, source, d, parent, queue, front, curr, alpha, beta, edgesToCheck, scoutCount, t);
    }
    SearchEnds(g, source, d, t, parent[..], queue.Pushed(), front[..]);
    Finish(g, source, d, parent, t);
  }

  lemma SearchBegins(g: Graph, s: nat, t: Tree, front: seq<bool>)
    requires g.Valid() && LevelState(g, s, 0, t) && QueueHoldsLevel(t, 0, [s], 0)
    requires |front| == g.N() && forall v :: 0 <= v < |front| ==> !front[v]
    ensures SearchInv(g, s, 0, t, t.parent, [s], 0, front)
  {
  }

  /** An empty window means that the search is over. */
  lemma SearchEnds(g: Graph, s: nat, d: nat, t: Tree, parent: seq<int>, pushed: seq<nat>, front: seq<bool>)
    requires g.Valid() && SearchInv(g, s, d, t, parent, pushed, |pushed|, front)
    ensures Levelled(g, s, d, t) && t.parent == parent && forall v: nat :: Visited(t, v) ==> t.level[v] < d
  {
    NoneLeft(t, d, pushed);
  }

  lemma NoneLeft(t: Tree, d: nat, pushed: seq<nat>)
    requires QueueHoldsLevel(t, d, pushed, |pushed|) && forall v: nat :: Visited(t, v) ==> t.level[v] <= d
    ensures forall v: nat :: Visited(t, v) ==> t.level[v] < d
  {
  }

  /** Last loop: the degrees kept in unvisited entries become -1. */
  method Finish(g: Graph, ghost s: nat, ghost d: nat, parent: array<int>, ghost t: Tree)
    requires g.Valid() && Levelled(g, s, d, t) && t.parent == parent[..]
    requires forall v: nat :: Visited(t, v) ==> t.level[v] < d
    modifies parent
    ensures BreadthFirst(g, s, parent[..])
  {
    for n := 0 to g.N()
      invariant forall v :: 0 <= v < g.N() ==>
                  parent[v] == if v < n && t.parent[v] < -1 then -1 else t.parent[v]
    {
      if parent[n] < -1 {
        parent[n] := -1;
      }
    }
    CertificateSuffices(g, s, d, t, parent[..]);
  }
}
