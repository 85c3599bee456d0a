/**
 * The top-down step as its threads run it.  Every read of a parent, every compare-and-swap, every
 * reservation of queue slots and every copy of a local buffer is a step of its own, and any thread
 * may take the next step.
 */
module TopDownProtocol {
  import opened Pigeonhole
  import opened Basics
  import opened Graphs
  import opened BreadthFirstTree
  import opened BreadthFirst
  import opened Shares

  /** The search at the start of the step; buffers hold `capacity` vertices. */
  datatype Params = Params(g: Graph, s: nat, d: nat, t0: Tree, pushed0: seq<nat>, start: nat, capacity: nat, workers: nat) {
    ghost predicate Valid() {
      && g.Valid() && LevelState(g, s, d, t0) && QueueHoldsLevel(t0, d, pushed0, start)
      && capacity > 0 && workers > 0
    }

    ghost function Window(): seq<nat>
      requires start <= |pushed0|
    {
      pushed0[start..]
    }

    ghost predicate IsEdge(u: nat, k: nat) { u < g.N() && k < |g.out[u]| }
  }

  datatype Pc =
    | Take                              // about to take the next vertex of the share
    | Look(u: nat, k: nat)              // about to read the parent of edge k's target
    | Cas(u: nat, k: nat, was: int)     // saw it unvisited: about to swap
    | Append(u: nat, k: nat)            // swapped: about to append the target to the buffer
    | Reserve(u: nat, k: nat)           // the buffer is full: about to reserve slots
    | Copy(u: nat, k: nat, from: nat)   // reserved: about to copy the buffer
    | Last                              // share done: about to reserve slots for the rest
    | LastCopy(from: nat)
    | Done

  datatype Thread = Thread(pc: Pc, rest: seq<nat>, buffer: seq<nat>)

  /** The tree's parents are shared; levels and the log of reservations are history. */
  datatype State = State(tree: Tree, slots: seq<nat>, sharedIn: nat, log: seq<nat>, threads: seq<Thread>)

  // ---- what a thread may rely on ----

  predicate Copying(pc: Pc) { pc.Copy? || pc.LastCopy? }

  ghost predicate OnLevel(p: Params, t: Tree, u: nat) { u < |t.level| && t.level[u] == p.d && u < p.g.N() }

  ghost predicate PcOk(p: Params, t: Tree, pc: Pc)
    requires p.g.Valid()
  {
    match pc
    case Look(u, k) => OnLevel(p, t, u) && k <= |p.g.out[u]|
    case Cas(u, k, was) => OnLevel(p, t, u) && p.IsEdge(u, k) && was == Unvisited(p.g, p.g.out[u][k])
    case Append(u, k) => OnLevel(p, t, u) && p.IsEdge(u, k) && Visited(t, p.g.out[u][k])
    case Reserve(u, k) => OnLevel(p, t, u) && p.IsEdge(u, k) && Visited(t, p.g.out[u][k])
    case Copy(u, k, _) => OnLevel(p, t, u) && p.IsEdge(u, k) && Visited(t, p.g.out[u][k])
    case _ => true
  }

  /** A buffer being copied is a part of the log. */
  ghost predicate CopyOk(p: Params, log: seq<nat>, t: Thread) {
    Copying(t.pc) ==>
      && |p.pushed0| <= t.pc.from && t.pc.from - |p.pushed0| + |t.buffer| <= |log|
      && t.buffer == log[t.pc.from - |p.pushed0|..t.pc.from - |p.pushed0| + |t.buffer|]
  }

  ghost predicate ThreadOk(p: Params, tree: Tree, log: seq<nat>, t: Thread)
    requires p.g.Valid()
  {
    && PcOk(p, tree, t.pc) && CopyOk(p, log, t)
    && (forall i :: 0 <= i < |t.rest| ==> OnLevel(p, tree, t.rest[i]))
    && (t.pc.Last? || t.pc.LastCopy? || t.pc.Done? ==> t.rest == [])
    && (t.pc.Done? ==> t.buffer == [])
  }

  // ---- one thread, one access ----

  datatype Move = Move(tree: Tree, slots: seq<nat>, sharedIn: nat, log: seq<nat>, t: Thread)

  ghost predicate InTree(p: Params, tree: Tree) { |tree.parent| == |tree.level| == p.g.N() }

  ghost function StepThread(p: Params, s: State, t: Thread): Move
    requires p.g.Valid() && InTree(p, s.tree) && ThreadOk(p, s.tree, s.log, t)
  {
    var same := Move(s.tree, s.slots, s.sharedIn, s.log, t);
    match t.pc
    case Take =>
      if t.rest == [] then same.(t := t.(pc := Last))
      else same.(t := t.(pc := Look(t.rest[0], 0), rest := t.rest[1..]))
    case Look(u, k) =>
      if k == |p.g.out[u]| then same.(t := t.(pc := Take))
      else
        var was := s.tree.parent[p.g.out[u][k]];
        same.(t := t.(pc := if was < 0 then Cas(u, k, was) else Look(u, k + 1)))
    case Cas(u, k, was) =>
      var v := p.g.out[u][k];
      if s.tree.parent[v] == was
      then same.(tree := Adopt(s.tree, v, u, p.d), t := t.(pc := Append(u, k)))
      else same.(t := t.(pc := Look(u, k + 1)))
    case Append(u, k) =>
      if |t.buffer| == p.capacity then same.(t := t.(pc := Reserve(u, k)))
      else same.(t := t.(pc := Look(u, k + 1), buffer := t.buffer + [p.g.out[u][k]]))
    case Reserve(u, k) =>
      same.(sharedIn := s.sharedIn + |t.buffer|, log := s.log + t.buffer, t := t.(pc := Copy(u, k, s.sharedIn)))
    case Copy(u, k, from) =>
      same.(slots := Overwritten(s.slots, from, t.buffer), t := t.(pc := Append(u, k), buffer := []))
    case Last =>
      same.(sharedIn := s.sharedIn + |t.buffer|, log := s.log + t.buffer, t := t.(pc := LastCopy(s.sharedIn)))
    case LastCopy(from) =>
      same.(slots := Overwritten(s.slots, from, t.buffer), t := t.(pc := Done, buffer := []))
    case Done => same
  }

  // ---- the invariant ----

  ghost function Occurs(list: seq<nat>, v: nat): nat {
    if list == [] then 0 else (if list[0] == v then 1 else 0) + Occurs(list[1..], v)
  }

  /** How often a thread holds v: in its buffer, unless that is in the log already, or about to append it. */
  ghost function Hold(p: Params, t: Thread, v: nat): nat {
    (if Copying(t.pc) then 0 else Occurs(t.buffer, v)) +
    if (t.pc.Append? || t.pc.Reserve? || t.pc.Copy?) && p.IsEdge(t.pc.u, t.pc.k) && p.g.out[t.pc.u][t.pc.k] == v
    then 1 else 0
  }

  ghost function Held(p: Params, threads: seq<Thread>, v: nat): nat {
    if threads == [] then 0 else Hold(p, threads[0], v) + Held(p, threads[1..], v)
  }

  ghost predicate Fresh(p: Params, tree: Tree, v: nat) { Visited(tree, v) && tree.level[v] == p.d + 1 }

  /** Every vertex found in this step is held by one thread once, or logged once. */
  ghost predicate OnceEach(p: Params, s: State) {
    forall v: nat :: Occurs(s.log, v) + Held(p, s.threads, v) == if Fresh(p, s.tree, v) then 1 else 0
  }

  /** The thread will still come to edge j of u. */
  ghost predicate Todo(t: Thread, u: nat, j: nat) {
    u in t.rest || match t.pc
    case Look(x, k) => x == u && k <= j
    case Cas(x, k, _) => x == u && k <= j
    case Append(x, k) => x == u && k < j
    case Reserve(x, k) => x == u && k < j
    case Copy(x, k, _) => x == u && k < j
    case _ => false
  }

  ghost predicate TodoBy(s: State, i: nat, u: nat, j: nat) { i < |s.threads| && Todo(s.threads[i], u, j) }

  ghost predicate SeenOrTodo(p: Params, s: State, u: nat, j: nat)
    requires p.IsEdge(u, j)
  {
    Visited(s.tree, p.g.out[u][j]) || exists i: nat :: TodoBy(s, i, u, j)
  }

  ghost predicate Covered(p: Params, s: State) {
    forall u: nat, j: nat :: p.IsEdge(u, j) && OnLevel(p, p.t0, u) ==> SeenOrTodo(p, s, u, j)
  }

  ghost predicate CopiesBy(s: State, i: nat, x: nat) {
    && i < |s.threads| && Copying(s.threads[i].pc)
    && s.threads[i].pc.from <= x < s.threads[i].pc.from + |s.threads[i].buffer|
  }

  /** A reserved slot holds its logged vertex or is about to be written. */
  ghost predicate SlotOk(p: Params, s: State, x: nat) {
    |p.pushed0| <= x < s.sharedIn ==>
      x < |s.slots| && x - |p.pushed0| < |s.log| &&
      (s.slots[x] == s.log[x - |p.pushed0|] || exists i: nat :: CopiesBy(s, i, x))
  }

  ghost predicate SlotsOk(p: Params, s: State) {
    && |s.slots| == p.g.N() && |p.pushed0| <= |s.slots| && s.slots[..|p.pushed0|] == p.pushed0
    && s.sharedIn == |p.pushed0| + |s.log| <= |s.slots|
    && forall x: nat :: SlotOk(p, s, x)
  }

  ghost predicate TreeOk(p: Params, s: State) {
    p.Valid() && InTree(p, s.tree) && Between(p.g, p.s, p.d, s.tree) && Extends(p.t0, s.tree, p.d)
  }

  ghost predicate Inv(p: Params, s: State) {
    && p.g.Valid() && TreeOk(p, s) && |s.threads| == p.workers
    && (forall i :: 0 <= i < |s.threads| ==> ThreadOk(p, s.tree, s.log, s.threads[i]))
    && OnceEach(p, s) && Covered(p, s) && SlotsOk(p, s)
  }

  ghost function After(p: Params, s: State, i: nat): State
    requires Inv(p, s) && i < |s.threads|
  {
    var m := StepThread(p, s, s.threads[i]);
    State(m.tree, m.slots, m.sharedIn, m.log, s.threads[i := m.t])
  }

  ghost predicate StepOf(p: Params, s: State, s': State, i: nat) {
    Inv(p, s) && i < |s.threads| && !s.threads[i].pc.Done? && s' == After(p, s, i)
  }

  // ---- the tree ----

  lemma StepGrows(p: Params, s: State, i: nat)
    requires Inv(p, s) && i < |s.threads|
    ensures TreeOk(p, After(p, s, i)) && Extends(s.tree, After(p, s, i).tree, p.d)
    ensures s.log <= After(p, s, i).log
  {
    hide OnceEach, Covered, SlotsOk, Levelled, TreeVertex;
    var t := s.threads[i];
    assert ThreadOk(p, s.tree, s.log, t);
    if t.pc.Cas? {
      var v := p.g.out[t.pc.u][t.pc.k];
      assert v < p.g.N();
      if s.tree.parent[v] == t.pc.was {
        AdoptKeeps(p.g, p.s, p.d, s.tree, t.pc.u, v);
      }
    }
  }

  /** Unvisited vertices, and no others, have the parent they had before the search. */
  lemma NegativeIsNew(p: Params, s: State, v: nat)
    requires TreeOk(p, s) && v < p.g.N()
    ensures s.tree.parent[v] < 0 <==> !Visited(s.tree, v)
    ensures s.tree.parent[v] < 0 ==> s.tree.parent[v] == Unvisited(p.g, v)
  {
    assert TreeVertex(p.g, p.s, s.tree, v);
  }

  // ---- threads ----

  lemma LevelStays(p: Params, t: Tree, t': Tree, u: nat)
    requires OnLevel(p, t, u) && Extends(t, t', p.d) && |t.level| == p.g.N()
    ensures OnLevel(p, t', u)
  {
    assert Visited(t, u);
  }

  lemma OtherOk(p: Params, s: State, i: nat, j: nat)
    requires Inv(p, s) && i < |s.threads| && j < |s.threads| && i != j
    ensures ThreadOk(p, After(p, s, i).tree, After(p, s, i).log, After(p, s, i).threads[j])
  {
    StepGrows(p, s, i);
    var t := s.threads[j];
    assert ThreadOk(p, s.tree, s.log, t);
    KeptOk(p, s.tree, s.log, After(p, s, i).tree, After(p, s, i).log, t);
  }

  lemma KeptOk(p: Params, tree: Tree, log: seq<nat>, tree': Tree, log': seq<nat>, t: Thread)
    requires p.g.Valid() && ThreadOk(p, tree, log, t) && Extends(tree, tree', p.d) && |tree.level| == p.g.N() && log <= log'
    ensures ThreadOk(p, tree', log', t)
  {
    forall u: nat | OnLevel(p, tree, u)
      ensures OnLevel(p, tree', u)
    {
      LevelStays(p, tree, tree', u);
    }
  }

  lemma OwnOk(p: Params, s: State, i: nat)
    requires Inv(p, s) && i < |s.threads|
    ensures ThreadOk(p, After(p, s, i).tree, After(p, s, i).log, After(p, s, i).threads[i])
  {
    var pc := s.threads[i].pc;
    hide Inv, StepThread, ThreadOk;
    if pc.Look? { OwnLookOk(p, s, i); }
    else if pc.Cas? { OwnCasOk(p, s, i); }
    else if pc.Reserve? || pc.Last? { OwnLogOk(p, s, i); }
    else { OwnPlainOk(p, s, i); }
  }

  lemma OwnLookOk(p: Params, s: State, i: nat)
    requires Inv(p, s) && i < |s.threads| && s.threads[i].pc.Look?
    ensures ThreadOk(p, After(p, s, i).tree, After(p, s, i).log, After(p, s, i).threads[i])
  {
    hide OnceEach, Covered, SlotsOk, Between, Extends, LevelState, QueueHoldsLevel;
    var t := s.threads[i];
    assert ThreadOk(p, s.tree, s.log, t);
    if t.pc.k < |p.g.out[t.pc.u]| {
      NegativeIsNew(p, s, p.g.out[t.pc.u][t.pc.k]);
    }
  }

  lemma OwnCasOk(p: Params, s: State, i: nat)
    requires Inv(p, s) && i < |s.threads| && s.threads[i].pc.Cas?
    ensures ThreadOk(p, After(p, s, i).tree, After(p, s, i).log, After(p, s, i).threads[i])
  {
    StepGrows(p, s, i);
    hide OnceEach, Covered, Between, LevelState, QueueHoldsLevel, SlotsOk;
    var t := s.threads[i];
    assert ThreadOk(p, s.tree, s.log, t);
    KeptOk(p, s.tree, s.log, After(p, s, i).tree, s.log, t);
  }

  lemma OwnLogOk(p: Params, s: State, i: nat)
    requires Inv(p, s) && i < |s.threads| && (s.threads[i].pc.Reserve? || s.threads[i].pc.Last?)
    ensures ThreadOk(p, After(p, s, i).tree, After(p, s, i).log, After(p, s, i).threads[i])
  {
    hide OnceEach, Covered, TreeOk;
    var t := s.threads[i];
    assert ThreadOk(p, s.tree, s.log, t);
    assert (s.log + t.buffer)[|s.log|..|s.log| + |t.buffer|] == t.buffer;
  }

  lemma OwnPlainOk(p: Params, s: State, i: nat)
    requires Inv(p, s) && i < |s.threads|
    requires var pc := s.threads[i].pc; !pc.Look? && !pc.Cas? && !pc.Reserve? && !pc.Last?
    ensures ThreadOk(p, After(p, s, i).tree, After(p, s, i).log, After(p, s, i).threads[i])
  {
    hide OnceEach, Covered, TreeOk, SlotsOk;
    assert ThreadOk(p, s.tree, s.log, s.threads[i]);
  }

  // ---- counting ----

  lemma {:induction false} OccursConcat(a: seq<nat>, b: seq<nat>, v: nat)
    ensures Occurs(a + b, v) == Occurs(a, v) + Occurs(b, v)
  {
    if a == [] {
      assert a + b == b;
    } else {
      assert (a + b)[1..] == a[1..] + b;
      OccursConcat(a[1..], b, v);
    }
  }

  lemma {:induction false} HeldUpdate(p: Params, threads: seq<Thread>, i: nat, t: Thread, v: nat)
    requires i < |threads|
    ensures Held(p, threads[i := t], v) == Held(p, threads, v) - Hold(p, threads[i], v) + Hold(p, t, v)
  {
    if i == 0 {
      assert threads[i := t][1..] == threads[1..];
    } else {
      assert threads[i := t][1..] == threads[1..][i - 1 := t];
      HeldUpdate(p, threads[1..], i - 1, t, v);
    }
  }

  /** Only a successful swap adds an occurrence, of the vertex it has just visited. */
  lemma OwnCount(p: Params, s: State, i: nat, v: nat)
    requires Inv(p, s) && i < |s.threads|
    ensures var s' := After(p, s, i);
            Occurs(s'.log, v) + Hold(p, s'.threads[i], v)
            == Occurs(s.log, v) + Hold(p, s.threads[i], v) + if Fresh(p, s'.tree, v) && !Fresh(p, s.tree, v) then 1 else 0
  {
    var pc := s.threads[i].pc;
    hide Inv, StepThread, Hold, Fresh, Occurs;
    if pc.Cas? { CasCount(p, s, i, v); }
    else if pc.Append? { AppendCount(p, s, i, v); }
    else if pc.Reserve? || pc.Last? { LogCount(p, s, i, v); }
    else { PlainCount(p, s, i, v); }
  }

  lemma CasCount(p: Params, s: State, i: nat, v: nat)
    requires Inv(p, s) && i < |s.threads| && s.threads[i].pc.Cas?
    ensures After(p, s, i).log == s.log
    ensures Hold(p, After(p, s, i).threads[i], v)
         == Hold(p, s.threads[i], v) + if Fresh(p, After(p, s, i).tree, v) && !Fresh(p, s.tree, v) then 1 else 0
  {
    hide OnceEach, Covered, SlotsOk, CopyOk, Occurs, Between, Extends, LevelState, QueueHoldsLevel;
    var t := s.threads[i];
    assert ThreadOk(p, s.tree, s.log, t);
    NegativeIsNew(p, s, p.g.out[t.pc.u][t.pc.k]);
  }

  lemma AppendCount(p: Params, s: State, i: nat, v: nat)
    requires Inv(p, s) && i < |s.threads| && s.threads[i].pc.Append?
    ensures After(p, s, i).log == s.log && After(p, s, i).tree == s.tree
    ensures Hold(p, After(p, s, i).threads[i], v) == Hold(p, s.threads[i], v)
  {
    hide OnceEach, Covered, TreeOk, SlotsOk, CopyOk;
    var t := s.threads[i];
    assert ThreadOk(p, s.tree, s.log, t);
    OccursConcat(t.buffer, [p.g.out[t.pc.u][t.pc.k]], v);
    assert [p.g.out[t.pc.u][t.pc.k]][1..] == [];
  }

  lemma LogCount(p: Params, s: State, i: nat, v: nat)
    requires Inv(p, s) && i < |s.threads| && (s.threads[i].pc.Reserve? || s.threads[i].pc.Last?)
    ensures After(p, s, i).tree == s.tree
    ensures Occurs(After(p, s, i).log, v) + Hold(p, After(p, s, i).threads[i], v)
         == Occurs(s.log, v) + Hold(p, s.threads[i], v)
  {
    hide OnceEach, Covered, TreeOk, SlotsOk, CopyOk, PcOk, Occurs, OnLevel;
    var t := s.threads[i];
    assert ThreadOk(p, s.tree, s.log, t);
    OccursConcat(s.log, t.buffer, v);
  }

  lemma PlainCount(p: Params, s: State, i: nat, v: nat)
    requires Inv(p, s) && i < |s.threads|
    requires var pc := s.threads[i].pc; !pc.Cas? && !pc.Append? && !pc.Reserve? && !pc.Last?
    ensures After(p, s, i).tree == s.tree && After(p, s, i).log == s.log
    ensures Hold(p, After(p, s, i).threads[i], v) == Hold(p, s.threads[i], v)
  {
    assert ThreadOk(p, s.tree, s.log, s.threads[i]);
    assert Occurs([], v) == 0;
    hide OnceEach, Covered, TreeOk, SlotsOk, CopyOk, Occurs, OnLevel;
  }

  lemma StepCounts(p: Params, s: State, i: nat)
    requires Inv(p, s) && i < |s.threads|
    ensures OnceEach(p, After(p, s, i))
  {
    var s' := After(p, s, i);
    StepGrows(p, s, i);
    forall v: nat
      ensures Occurs(s'.log, v) + Held(p, s'.threads, v) == if Fresh(p, s'.tree, v) then 1 else 0
    {
      OwnCount(p, s, i, v);
      HeldUpdate(p, s.threads, i, s'.threads[i], v);
      assert Occurs(s.log, v) + Held(p, s.threads, v) == if Fresh(p, s.tree, v) then 1 else 0;
    }
  }

  // ---- edges still to come ----

  lemma OwnTodo(p: Params, s: State, i: nat, u: nat, j: nat)
    requires Inv(p, s) && i < |s.threads| && p.IsEdge(u, j) && TodoBy(s, i, u, j)
    ensures SeenOrTodo(p, After(p, s, i), u, j)
  {
    var pc := s.threads[i].pc;
    if pc.Cas? && pc.u == u && pc.k == j {
      CasSeen(p, s, i);
    } else if pc.Look? && pc.k < |p.g.out[pc.u]| && pc.u == u && pc.k == j {
      LookTodo(p, s, i);
    } else {
      StillTodo(p, s, i, u, j);
    }
  }

  /** A target that looks visited is. */
  lemma LookTodo(p: Params, s: State, i: nat)
    requires Inv(p, s) && i < |s.threads| && s.threads[i].pc.Look? && p.IsEdge(s.threads[i].pc.u, s.threads[i].pc.k)
    ensures SeenOrTodo(p, After(p, s, i), s.threads[i].pc.u, s.threads[i].pc.k)
  {
    hide OnceEach, Covered, SlotsOk, Between, Extends, LevelState, QueueHoldsLevel, CopyOk;
    var pc := s.threads[i].pc;
    assert ThreadOk(p, s.tree, s.log, s.threads[i]);
    NegativeIsNew(p, s, p.g.out[pc.u][pc.k]);
    if !Visited(s.tree, p.g.out[pc.u][pc.k]) {
      assert TodoBy(After(p, s, i), i, pc.u, pc.k);
    }
  }

  lemma StillTodo(p: Params, s: State, i: nat, u: nat, j: nat)
    requires Inv(p, s) && i < |s.threads| && p.IsEdge(u, j) && TodoBy(s, i, u, j)
    requires var pc := s.threads[i].pc; (pc.Cas? || (pc.Look? && pc.k < |p.g.out[pc.u]|)) && pc.u == u ==> pc.k != j || u in s.threads[i].rest
    ensures TodoBy(After(p, s, i), i, u, j)
  {
    hide OnceEach, Covered, SlotsOk, TreeOk, CopyOk, OnLevel;
    var t := s.threads[i];
    assert t.pc.Take? ==> (u in t.rest ==> u == t.rest[0] || u in t.rest[1..]);
  }

  /** After the swap, successful or not, the target is visited. */
  lemma CasSeen(p: Params, s: State, i: nat)
    requires Inv(p, s) && i < |s.threads| && s.threads[i].pc.Cas? && p.IsEdge(s.threads[i].pc.u, s.threads[i].pc.k)
    ensures Visited(After(p, s, i).tree, p.g.out[s.threads[i].pc.u][s.threads[i].pc.k])
  {
    hide OnceEach, Covered, Between, LevelState, QueueHoldsLevel, SlotsOk, Extends;
    var t := s.threads[i];
    assert ThreadOk(p, s.tree, s.log, t);
    NegativeIsNew(p, s, p.g.out[t.pc.u][t.pc.k]);
  }

  lemma StepCovers(p: Params, s: State, i: nat)
    requires Inv(p, s) && i < |s.threads|
    ensures Covered(p, After(p, s, i))
  {
    var s' := After(p, s, i);
    StepGrows(p, s, i);
    forall u: nat, j: nat | p.IsEdge(u, j) && OnLevel(p, p.t0, u)
      ensures SeenOrTodo(p, s', u, j)
    {
      assert SeenOrTodo(p, s, u, j);
      hide Inv, TreeOk, StepThread, Todo;
      if !Visited(s.tree, p.g.out[u][j]) {
        var i': nat :| TodoBy(s, i', u, j);
        if i' == i {
          OwnTodo(p, s, i, u, j);
        } else {
          assert TodoBy(s', i', u, j);
        }
      }
    }
  }

  // ---- slots ----

  lemma {:induction false} OccursIn(list: seq<nat>, v: nat)
    ensures Occurs(list, v) > 0 <==> v in list
  {
    if list != [] {
      OccursIn(list[1..], v);
    }
  }

  lemma {:induction false} OccursTwice(list: seq<nat>, i: nat, j: nat)
    requires i < j < |list|
    ensures list[i] == list[j] ==> Occurs(list, list[i]) >= 2
  {
    if i == 0 {
      assert list[1..][j - 1] == list[j];
      OccursIn(list[1..], list[j]);
    } else {
      OccursTwice(list[1..], i - 1, j - 1);
    }
  }

  lemma PushedIsOld(p: Params, s: State, i: nat)
    requires TreeOk(p, s) && i < |p.pushed0|
    ensures Visited(s.tree, p.pushed0[i]) && !Fresh(p, s.tree, p.pushed0[i]) && p.pushed0[i] < p.g.N()
  {
    assert Visited(p.t0, p.pushed0[i]);
  }

  lemma LoggedIsFresh(p: Params, s: State, i: nat)
    requires OnceEach(p, s) && i < |s.log|
    ensures Fresh(p, s.tree, s.log[i])
  {
    OccursIn(s.log, s.log[i]);
    assert Occurs(s.log, s.log[i]) + Held(p, s.threads, s.log[i]) == if Fresh(p, s.tree, s.log[i]) then 1 else 0;
  }

  lemma LoggedOnce(p: Params, s: State, i: nat, j: nat)
    requires OnceEach(p, s) && i < j < |s.log|
    ensures s.log[i] != s.log[j]
  {
    OccursTwice(s.log, i, j);
    assert Occurs(s.log, s.log[i]) + Held(p, s.threads, s.log[i]) == if Fresh(p, s.tree, s.log[i]) then 1 else 0;
  }

  /** Nothing is pushed twice, so there is always room. */
  lemma LogDistinct(p: Params, s: State)
    requires TreeOk(p, s) && OnceEach(p, s)
    ensures NoRepeat(p.pushed0 + s.log) && |p.pushed0| + |s.log| <= p.g.N()
    ensures forall i :: 0 <= i < |p.pushed0 + s.log| ==> Visited(s.tree, (p.pushed0 + s.log)[i])
  {
    var all, m := p.pushed0 + s.log, |p.pushed0|;
    forall i: nat | i < |all|
      ensures Visited(s.tree, all[i]) && all[i] < p.g.N() && (Fresh(p, s.tree, all[i]) <==> i >= m)
    {
      if i < m { PushedIsOld(p, s, i); } else { LoggedIsFresh(p, s, i - m); }
    }
    assert NoRepeat(p.pushed0);
    hide TreeOk;
    forall i, j | 0 <= i < j < |all|
      ensures all[i] != all[j]
    {
      if i >= m {
        LoggedOnce(p, s, i - m, j - m);
      }
    }
    Pigeons(all, p.g.N());
  }

  lemma CopyFits(p: Params, s: State, i: nat)
    requires Inv(p, s) && i < |s.threads| && Copying(s.threads[i].pc)
    ensures var t := s.threads[i]; var m := |p.pushed0|;
            && t.pc.from >= m && t.pc.from - m + |t.buffer| <= |s.log|
            && forall k: nat :: k < |t.buffer| ==> t.buffer[k] == s.log[t.pc.from - m + k]
  {
    hide TreeOk, OnceEach, Covered, SlotsOk;
    assert ThreadOk(p, s.tree, s.log, s.threads[i]);
  }

  /** A copy writes what was logged. */
  lemma CopySlot(p: Params, s: State, i: nat, x: nat)
    requires Inv(p, s) && i < |s.threads| && Copying(s.threads[i].pc)
    ensures SlotOk(p, After(p, s, i), x)
  {
    hide OnceEach, Covered, PcOk, CopyOk, OnLevel, TreeOk;
    CopyFits(p, s, i);
    var t := s.threads[i];
    var s' := After(p, s, i);
    assert SlotOk(p, s, x);
    assert t.pc.from <= x < t.pc.from + |t.buffer| ==> t.buffer[x - t.pc.from] == s.log[x - |p.pushed0|];
    if |p.pushed0| <= x < s.sharedIn && s'.slots[x] != s'.log[x - |p.pushed0|] {
      var j: nat :| CopiesBy(s, j, x);
      assert CopiesBy(s', j, x);
    }
  }

  /** Reserved slots are about to be copied to. */
  lemma ReserveSlot(p: Params, s: State, i: nat, x: nat)
    requires Inv(p, s) && i < |s.threads| && (s.threads[i].pc.Reserve? || s.threads[i].pc.Last?)
    requires |p.pushed0| + |After(p, s, i).log| <= |s.slots|
    ensures SlotOk(p, After(p, s, i), x)
  {
    hide TreeOk, OnceEach, Covered;
    var s' := After(p, s, i);
    assert SlotOk(p, s, x);
    if s.sharedIn <= x < s'.sharedIn {
      assert CopiesBy(s', i, x);
    } else if |p.pushed0| <= x < s.sharedIn && s.slots[x] != s.log[x - |p.pushed0|] {
      var j: nat :| CopiesBy(s, j, x);
      assert CopiesBy(s', j, x);
    }
  }

  lemma SameSlot(p: Params, s: State, i: nat, x: nat)
    requires Inv(p, s) && i < |s.threads|
    requires var pc := s.threads[i].pc; !Copying(pc) && !pc.Reserve? && !pc.Last?
    ensures SlotOk(p, After(p, s, i), x)
  {
    hide TreeOk, OnceEach, Covered;
    assert ThreadOk(p, s.tree, s.log, s.threads[i]);
    var s' := After(p, s, i);
    assert SlotOk(p, s, x);
    if |p.pushed0| <= x < s.sharedIn && s.slots[x] != s.log[x - |p.pushed0|] {
      var j: nat :| CopiesBy(s, j, x);
      assert CopiesBy(s', j, x);
    }
  }

  lemma StepSlots(p: Params, s: State, i: nat)
    requires Inv(p, s) && i < |s.threads|
    ensures SlotsOk(p, After(p, s, i))
  {
    var s' := After(p, s, i);
    var pc := s.threads[i].pc;
    StepGrows(p, s, i);
    StepCounts(p, s, i);
    LogDistinct(p, s');
    forall x: nat
      ensures SlotOk(p, s', x)
    {
      if Copying(pc) { CopySlot(p, s, i, x); }
      else if pc.Reserve? || pc.Last? { ReserveSlot(p, s, i, x); }
      else { SameSlot(p, s, i, x); }
    }
    StepSizes(p, s, i);
  }

  lemma StepSizes(p: Params, s: State, i: nat)
    requires Inv(p, s) && i < |s.threads|
    ensures var s' := After(p, s, i);
            && |s'.slots| == |s.slots| && |p.pushed0| <= |s'.slots| && s'.slots[..|p.pushed0|] == p.pushed0
            && s'.sharedIn == |p.pushed0| + |s'.log|
  {
    hide TreeOk, OnceEach, Covered, SlotOk;
    var t := s.threads[i];
    assert ThreadOk(p, s.tree, s.log, t);
    assert Copying(t.pc) ==> t.pc.from >= |p.pushed0|;
  }

  lemma StepKeepsInv(p: Params, s: State, s': State, i: nat)
    requires StepOf(p, s, s', i)
    ensures Inv(p, s')
  {
    StepGrows(p, s, i);
    StepCounts(p, s, i);
    StepCovers(p, s, i);
    StepSlots(p, s, i);
    hide StepThread, Between, Extends, SlotsOk, Covered, OnceEach;
    forall j | 0 <= j < |s'.threads|
      ensures ThreadOk(p, s'.tree, s'.log, s'.threads[j])
    {
      if j == i { OwnOk(p, s, i); } else { OtherOk(p, s, i, j); }
    }
  }

  // ---- whole runs ----

  /** The window handed out; the array holds what was pushed before. */
  ghost predicate IsStart(p: Params, s: State, shares: seq<seq<nat>>) {
    && p.Valid() && IsSplit(p.Window(), shares, p.workers)
    && s.tree == p.t0 && s.log == [] && s.sharedIn == |p.pushed0|
    && |p.pushed0| <= |s.slots| == p.g.N() && s.slots[..|p.pushed0|] == p.pushed0
    && |s.threads| == p.workers && forall i :: 0 <= i < |s.threads| ==> s.threads[i] == Thread(Take, shares[i], [])
  }

  lemma {:induction false} NothingHeld(p: Params, threads: seq<Thread>, v: nat)
    requires forall i :: 0 <= i < |threads| ==> (threads[i].pc.Take? || threads[i].pc.Done?) && threads[i].buffer == []
    ensures Held(p, threads, v) == 0
  {
    if threads != [] {
      NothingHeld(p, threads[1..], v);
    }
  }

  lemma WindowLevel(p: Params, x: nat)
    requires p.Valid() && p.start <= |p.pushed0|
    ensures x in p.Window() <==> OnLevel(p, p.t0, x)
  {
    assert Visited(p.t0, x) && p.t0.level[x] == p.d <==> x in p.pushed0[p.start..];
    assert OnLevel(p, p.t0, x) ==> TreeVertex(p.g, p.s, p.t0, x);
    LevelNatural(p, x);
  }

  lemma LevelNatural(p: Params, x: nat)
    requires p.Valid()
    ensures OnLevel(p, p.t0, x) <==> Visited(p.t0, x) && p.t0.level[x] == p.d
  {
  }

  lemma StartOk(p: Params, s: State, shares: seq<seq<nat>>, i: nat)
    requires IsStart(p, s, shares) && i < |s.threads|
    ensures ThreadOk(p, s.tree, s.log, s.threads[i])
  {
    forall k | 0 <= k < |shares[i]|
      ensures OnLevel(p, p.t0, shares[i][k])
    {
      SplitHas(p.Window(), shares, p.workers, shares[i][k]);
      WindowLevel(p, shares[i][k]);
    }
  }

  lemma StartKeeps(p: Params, s: State, shares: seq<seq<nat>>)
    requires IsStart(p, s, shares)
    ensures Inv(p, s)
  {
    forall i | 0 <= i < |s.threads|
      ensures ThreadOk(p, s.tree, s.log, s.threads[i])
    {
      StartOk(p, s, shares, i);
    }
    forall v: nat
      ensures Occurs(s.log, v) + Held(p, s.threads, v) == if Fresh(p, s.tree, v) then 1 else 0
    {
      NothingHeld(p, s.threads, v);
    }
    forall u: nat, j: nat | p.IsEdge(u, j) && OnLevel(p, p.t0, u)
      ensures SeenOrTodo(p, s, u, j)
    {
      WindowLevel(p, u);
      SplitHas(p.Window(), shares, p.workers, u);
      var i :| 0 <= i < |shares| && u in shares[i];
      assert TodoBy(s, i, u, j);
    }
  }

  ghost predicate Linked(p: Params, s: State, s': State) { exists i: nat :: StepOf(p, s, s', i) }

  ghost predicate Run(p: Params, run: seq<State>) {
    |run| > 0 && forall k :: 0 <= k < |run| - 1 ==> Linked(p, run[k], run[k + 1])
  }

  ghost predicate AllDone(s: State) { forall i :: 0 <= i < |s.threads| ==> s.threads[i].pc.Done? }

  /** With all threads done the next level is complete, and queued. */
  lemma FinishedLevel(p: Params, s: State)
    requires Inv(p, s) && AllDone(s)
    ensures LevelState(p.g, p.s, p.d + 1, s.tree) && Extends(p.t0, s.tree, p.d)
    ensures s.sharedIn <= |s.slots| && QueueHoldsLevel(s.tree, p.d + 1, s.slots[..s.sharedIn], |p.pushed0|)
  {
    LogDistinct(p, s);
    FinishedSlots(p, s);
    FinishedAppended(p, s);
    FinishedWindow(p, s);
    TopDownDone(p.g, p.s, p.d, p.t0, s.tree, p.pushed0, p.start, p.pushed0 + s.log);
  }

  lemma FinishedSlots(p: Params, s: State)
    requires Inv(p, s) && AllDone(s)
    ensures s.sharedIn <= |s.slots| && s.slots[..s.sharedIn] == p.pushed0 + s.log
  {
    hide TreeOk, OnceEach, Covered;
    forall x: nat | |p.pushed0| <= x < s.sharedIn
      ensures x < |s.slots| && x - |p.pushed0| < |s.log| && s.slots[x] == s.log[x - |p.pushed0|]
    {
      assert SlotOk(p, s, x);
    }
    var a, b := s.slots[..s.sharedIn], p.pushed0 + s.log;
    forall x: nat | x < |a|
      ensures a[x] == b[x]
    {
      assert x < |p.pushed0| ==> s.slots[..|p.pushed0|][x] == p.pushed0[x];
    }
    assert a == b;
  }

  lemma FinishedAppended(p: Params, s: State)
    requires Inv(p, s) && AllDone(s) && NoRepeat(p.pushed0 + s.log)
    requires forall i :: 0 <= i < |p.pushed0 + s.log| ==> Visited(s.tree, (p.pushed0 + s.log)[i])
    ensures Appended(s.tree, p.d, p.pushed0, p.pushed0 + s.log)
  {
    forall i | 0 <= i < |s.threads|
      ensures s.threads[i].buffer == []
    {
      assert ThreadOk(p, s.tree, s.log, s.threads[i]);
    }
    assert (p.pushed0 + s.log)[|p.pushed0|..] == s.log;
    forall v: nat
      ensures Visited(s.tree, v) && s.tree.level[v] == p.d + 1 <==> v in s.log
    {
      NothingHeld(p, s.threads, v);
      OccursIn(s.log, v);
      assert Occurs(s.log, v) + Held(p, s.threads, v) == if Fresh(p, s.tree, v) then 1 else 0;
    }
    hide Inv;
  }

  lemma FinishedWindow(p: Params, s: State)
    requires Inv(p, s) && AllDone(s)
    ensures p.start <= |p.pushed0| && WindowVisited(p.g, s.tree, p.pushed0[p.start..])
  {
    var w := p.pushed0[p.start..];
    forall i, j | 0 <= i < |w| && 0 <= j < |p.g.out[w[i]]|
      ensures w[i] < p.g.N() && Visited(s.tree, p.g.out[w[i]][j])
    {
      FinishedEdge(p, s, w[i], j);
    }
    forall i | 0 <= i < |w|
      ensures w[i] < p.g.N()
    {
      WindowLevel(p, w[i]);
    }
  }

  lemma FinishedEdge(p: Params, s: State, u: nat, j: nat)
    requires Inv(p, s) && AllDone(s) && p.start <= |p.pushed0| && u in p.Window() && p.IsEdge(u, j)
    ensures Visited(s.tree, p.g.out[u][j])
  {
    WindowLevel(p, u);
    assert SeenOrTodo(p, s, u, j);
    forall i: nat
      ensures !TodoBy(s, i, u, j)
    {
      assert i < |s.threads| ==> ThreadOk(p, s.tree, s.log, s.threads[i]);
    }
  }

  // ---- termination ----

  ghost function RestWork(g: Graph, rest: seq<nat>): nat {
    if rest == [] then 0 else 6 * Degree(g, rest[0]) + 2 + RestWork(g, rest[1..])
  }

  ghost function Degree(g: Graph, u: nat): nat { if u < g.N() then |g.out[u]| else 0 }

  ghost function EdgeWork(g: Graph, u: nat, k: nat): nat { 5 + 6 * if k < Degree(g, u) then Degree(g, u) - k else 0 }

  /** Upper bound on the steps a thread still needs, whatever the others do. */
  ghost function Work(p: Params, t: Thread): nat {
    RestWork(p.g, t.rest) +
    match t.pc
    case Take => 4
    case Look(u, k) => EdgeWork(p.g, u, k)
    case Cas(u, k, _) => EdgeWork(p.g, u, k + 1) + 5
    case Append(u, k) => EdgeWork(p.g, u, k + 1) + if |t.buffer| == p.capacity then 4 else 1
    case Reserve(u, k) => EdgeWork(p.g, u, k + 1) + 3
    case Copy(u, k, _) => EdgeWork(p.g, u, k + 1) + 2
    case Last => 3
    case LastCopy(_) => 2
    case Done => 0
  }

  ghost function TotalWork(p: Params, threads: seq<Thread>): nat {
    if threads == [] then 0 else Work(p, threads[0]) + TotalWork(p, threads[1..])
  }

  lemma {:induction false} TotalWorkUpdate(p: Params, threads: seq<Thread>, i: nat, t: Thread)
    requires i < |threads|
    ensures TotalWork(p, threads[i := t]) == TotalWork(p, threads) - Work(p, threads[i]) + Work(p, t)
  {
    if i == 0 {
      assert threads[i := t][1..] == threads[1..];
    } else {
      assert threads[i := t][1..] == threads[1..][i - 1 := t];
      TotalWorkUpdate(p, threads[1..], i - 1, t);
    }
  }

  lemma StepWorks(p: Params, s: State, i: nat)
    requires Inv(p, s) && i < |s.threads| && !s.threads[i].pc.Done?
    ensures Work(p, After(p, s, i).threads[i]) < Work(p, s.threads[i])
  {
    hide Inv, StepThread, Work;
    var pc := s.threads[i].pc;
    if pc.Look? || pc.Cas? || pc.Append? { EdgeWorks(p, s, i); } else { FlushWorks(p, s, i); }
  }

  lemma EdgeWorks(p: Params, s: State, i: nat)
    requires Inv(p, s) && i < |s.threads|
    requires var pc := s.threads[i].pc; pc.Look? || pc.Cas? || pc.Append?
    ensures Work(p, After(p, s, i).threads[i]) < Work(p, s.threads[i])
  {
    hide TreeOk, OnceEach, Covered, SlotsOk, RestWork, CopyOk;
    assert ThreadOk(p, s.tree, s.log, s.threads[i]);
  }

  lemma FlushWorks(p: Params, s: State, i: nat)
    requires Inv(p, s) && i < |s.threads|
    requires var pc := s.threads[i].pc; !pc.Look? && !pc.Cas? && !pc.Append? && !pc.Done?
    ensures Work(p, After(p, s, i).threads[i]) < Work(p, s.threads[i])
  {
    hide Inv, StepThread, Work;
    var pc := s.threads[i].pc;
    if pc.Take? { TakeStep(p, s, i); }
    else if pc.Copy? { CopyStep(p, s, i); }
    else { ReserveStep(p, s, i); }
  }

  lemma TakeStep(p: Params, s: State, i: nat)
    requires Inv(p, s) && i < |s.threads| && s.threads[i].pc.Take?
    ensures Work(p, After(p, s, i).threads[i]) < Work(p, s.threads[i])
  {
    hide TreeOk, OnceEach, Covered, SlotsOk, RestWork, CopyOk, PcOk;
    TakeWorks(p, s.threads[i].rest);
  }

  lemma CopyStep(p: Params, s: State, i: nat)
    requires Inv(p, s) && i < |s.threads| && s.threads[i].pc.Copy?
    ensures Work(p, After(p, s, i).threads[i]) < Work(p, s.threads[i])
  {
    hide OnceEach, Covered, SlotsOk, RestWork, CopyOk, PcOk, Overwritten, EdgeWork, Between, Extends, LevelState, QueueHoldsLevel;
  }

  lemma ReserveStep(p: Params, s: State, i: nat)
    requires Inv(p, s) && i < |s.threads|
    requires var pc := s.threads[i].pc; pc.Reserve? || pc.Last? || pc.LastCopy?
    ensures Work(p, After(p, s, i).threads[i]) < Work(p, s.threads[i])
  {
    hide TreeOk, OnceEach, Covered, SlotsOk, RestWork, CopyOk, PcOk, Overwritten, EdgeWork;
  }

  lemma TakeWorks(p: Params, rest: seq<nat>)
    ensures rest != [] ==> RestWork(p.g, rest) == 6 * Degree(p.g, rest[0]) + 2 + RestWork(p.g, rest[1..])
  {
  }

  lemma {:induction false} Reachable(p: Params, shares: seq<seq<nat>>, run: seq<State>)
    requires Run(p, run) && IsStart(p, run[0], shares)
    ensures Inv(p, run[|run| - 1])
    ensures |run| - 1 + TotalWork(p, run[|run| - 1].threads) <= TotalWork(p, run[0].threads)
  {
    if |run| == 1 {
      StartKeeps(p, run[0], shares);
    } else {
      var pre := run[..|run| - 1];
      forall k | 0 <= k < |pre| - 1
        ensures Linked(p, pre[k], pre[k + 1])
      {
        assert Linked(p, run[k], run[k + 1]);
      }
      Reachable(p, shares, pre);
      var s, s' := run[|run| - 2], run[|run| - 1];
      assert Linked(p, run[|run| - 2], run[|run| - 2 + 1]);
      var i: nat :| StepOf(p, s, s', i);
      StepKeepsInv(p, s, s', i);
      StepWorks(p, s, i);
      TotalWorkUpdate(p, s.threads, i, s'.threads[i]);
    }
  }

  ghost predicate Enabled(p: Params, s: State) {
    Inv(p, s) && exists i: nat :: i < |s.threads| && StepOf(p, s, After(p, s, i), i)
  }

  /** No schedule runs longer than a fixed number of steps, and none gets stuck. */
  lemma TopDownTerminates(p: Params, shares: seq<seq<nat>>, run: seq<State>)
    requires Run(p, run) && IsStart(p, run[0], shares)
    ensures |run| - 1 <= TotalWork(p, run[0].threads)
    ensures AllDone(run[|run| - 1]) || Enabled(p, run[|run| - 1])
  {
    Reachable(p, shares, run);
    var s := run[|run| - 1];
    hide Inv;
    if !AllDone(s) {
      var i: nat :| i < |s.threads| && !s.threads[i].pc.Done?;
      Steps(p, s, i);
    }
  }

  /** So every run goes on to an end. */
  lemma {:induction false} Completes(p: Params, shares: seq<seq<nat>>, run: seq<State>) returns (full: seq<State>)
    requires Run(p, run) && IsStart(p, run[0], shares)
    ensures Run(p, full) && full[0] == run[0] && AllDone(full[|full| - 1])
    decreases TotalWork(p, run[|run| - 1].threads)
  {
    hide Inv, IsStart, StepThread;
    var s := run[|run| - 1];
    if AllDone(s) {
      full := run;
    } else {
      Reachable(p, shares, run);
      var i: nat :| i < |s.threads| && !s.threads[i].pc.Done?;
      Steps(p, s, i);
      var s' := After(p, s, i);
      StepWorks(p, s, i);
      TotalWorkUpdate(p, s.threads, i, s'.threads[i]);
      Longer(p, run, s');
      full := Completes(p, shares, run + [s']);
    }
  }

  lemma Longer(p: Params, run: seq<State>, s': State)
    requires Run(p, run) && Linked(p, run[|run| - 1], s')
    ensures Run(p, run + [s'])
  {
    forall k | 0 <= k < |run|
      ensures Linked(p, (run + [s'])[k], (run + [s'])[k + 1])
    {
      if k + 1 < |run| {
        assert Linked(p, run[k], run[k + 1]);
      }
    }
  }

  lemma Steps(p: Params, s: State, i: nat)
    requires Inv(p, s) && i < |s.threads| && !s.threads[i].pc.Done?
    ensures StepOf(p, s, After(p, s, i), i)
  {
  }

  /** Under every interleaving the step does what the single-threaded one does: the next level is
      complete and queued, each vertex once, and the queue needs no more slots than vertices. */
  lemma TopDownCorrect(p: Params, shares: seq<seq<nat>>, run: seq<State>)
    requires Run(p, run) && IsStart(p, run[0], shares) && AllDone(run[|run| - 1])
    ensures var s := run[|run| - 1];
            && LevelState(p.g, p.s, p.d + 1, s.tree) && Extends(p.t0, s.tree, p.d)
            && s.sharedIn <= |s.slots| == p.g.N()
            && QueueHoldsLevel(s.tree, p.d + 1, s.slots[..s.sharedIn], |p.pushed0|)
  {
    Reachable(p, shares, run);
    FinishedLevel(p, run[|run| - 1]);
  }
}
