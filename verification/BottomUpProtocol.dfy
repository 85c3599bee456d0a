/**
 * The bottom-up step as its threads run it.  Threads take chunks of vertices; every read of a
 * parent and of a frontier bit, every write of a parent, and the load and the store that set a
 * bit of the next frontier are steps of their own, and any thread may take the next step.
 */
module BottomUpProtocol {
  import opened Basics
  import opened Graphs
  import opened BreadthFirstTree
  import opened BreadthFirst
  import opened Shares

  /** Vertices are handed out in chunks; bits sit in words, and a chunk is a whole number of words. */
  const CHUNK: nat := 1024
  const WORD: nat := 64

  datatype Params = Params(g: Graph, s: nat, d: nat, t0: Tree, front: seq<bool>, workers: nat) {
    ghost predicate Valid() {
      && g.Valid() && LevelState(g, s, d, t0) && HarmlessBits(g, d, t0, front) && AllLevelBits(t0, d, front)
      && workers > 0
    }
  }

  datatype Pc =
    | TakeChunk
    | Vertex(c: nat, u: nat)                   // about to read the parent of u
    | Scan(c: nat, u: nat, k: nat)             // about to read the bit of in-neighbour k
    | Claim(c: nat, u: nat, v: nat)            // about to make v the parent of u
    | Load(c: nat, u: nat)                     // about to load the word of u's bit
    | Store(c: nat, u: nat, word: seq<bool>)   // about to store it with the bit set
    | Done

  datatype Thread = Thread(pc: Pc, chunks: seq<nat>, awake: nat)

  datatype State = State(tree: Tree, next: seq<bool>, threads: seq<Thread>)

  predicate InChunk(c: nat, u: nat) { c * CHUNK <= u < c * CHUNK + CHUNK }

  function High(c: nat, n: nat): nat { Min(c * CHUNK + CHUNK, n) }

  function WordLow(u: nat): nat { u / WORD * WORD }

  function WordHigh(u: nat, n: nat): nat { Min(u / WORD * WORD + WORD, n) }

  /** A vertex's word does not reach into another chunk. */
  lemma WordInChunk(c: nat, u: nat, v: nat, n: nat)
    requires InChunk(c, u) && u < n && WordLow(u) <= v < WordHigh(u, n)
    ensures InChunk(c, v) && WordLow(u) <= u < WordHigh(u, n)
  {
  }

  // ---- what a thread may rely on ----

  ghost predicate New(p: Params, t: Tree, c: nat, u: nat) { InChunk(c, u) && u < p.g.N() && !Visited(t, u) }

  ghost predicate Found(p: Params, t: Tree, c: nat, u: nat) {
    InChunk(c, u) && u < p.g.N() && u < |t.level| && t.level[u] == p.d + 1
  }

  ghost predicate PcOk(p: Params, t: Tree, next: seq<bool>, pc: Pc)
    requires p.g.Valid() && |p.front| == p.g.N() == |next|
  {
    match pc
    case Vertex(c, u) => c * CHUNK <= u <= High(c, p.g.N())
    case Scan(c, u, k) =>
      New(p, t, c, u) && k <= |p.g.inn[u]| && forall j :: 0 <= j < k ==> !p.front[p.g.inn[u][j]]
    case Claim(c, u, v) => New(p, t, c, u) && v < p.g.N() && v < |t.level| && t.level[v] == p.d && u in p.g.out[v]
    case Load(c, u) => Found(p, t, c, u)
    case Store(c, u, word) => Found(p, t, c, u) && word == next[WordLow(u)..WordHigh(u, p.g.N())]
    case _ => true
  }

  ghost predicate ThreadOk(p: Params, t: Tree, next: seq<bool>, th: Thread)
    requires p.g.Valid() && |p.front| == p.g.N() == |next|
  {
    && PcOk(p, t, next, th.pc) && (th.pc.Done? ==> th.chunks == [])
    && forall i :: 0 <= i < |th.chunks| ==> th.chunks[i] * CHUNK < p.g.N()
  }

  // ---- one thread, one access ----

  datatype Move = Move(tree: Tree, next: seq<bool>, t: Thread)

  ghost predicate Sized(p: Params, s: State) {
    p.g.Valid() && |s.tree.parent| == |s.tree.level| == p.g.N() == |s.next| == |p.front|
  }

  ghost function StepThread(p: Params, s: State, t: Thread): Move
    requires Sized(p, s) && ThreadOk(p, s.tree, s.next, t)
  {
    var same := Move(s.tree, s.next, t);
    match t.pc
    case TakeChunk =>
      if t.chunks == [] then same.(t := t.(pc := Done))
      else same.(t := t.(pc := Vertex(t.chunks[0], t.chunks[0] * CHUNK), chunks := t.chunks[1..]))
    case Vertex(c, u) =>
      if u == High(c, p.g.N()) then same.(t := t.(pc := TakeChunk))
      else same.(t := t.(pc := if s.tree.parent[u] < 0 then Scan(c, u, 0) else Vertex(c, u + 1)))
    case Scan(c, u, k) =>
      if k == |p.g.inn[u]| then same.(t := t.(pc := Vertex(c, u + 1)))
      else same.(t := t.(pc := if p.front[p.g.inn[u][k]] then Claim(c, u, p.g.inn[u][k]) else Scan(c, u, k + 1)))
    case Claim(c, u, v) =>
      same.(tree := Adopt(s.tree, u, v, p.d), t := t.(pc := Load(c, u), awake := t.awake + 1))
    case Load(c, u) => same.(t := t.(pc := Store(c, u, s.next[WordLow(u)..WordHigh(u, p.g.N())])))
    case Store(c, u, word) =>
      same.(next := Overwritten(s.next, WordLow(u), word[u - WordLow(u) := true]), t := t.(pc := Vertex(c, u + 1)))
    case Done => same
  }

  // ---- the invariant ----

  predicate HasChunk(pc: Pc, c: nat) { !pc.TakeChunk? && !pc.Done? && pc.c == c }

  ghost predicate HoldsBy(s: State, i: nat, c: nat) {
    i < |s.threads| && (c in s.threads[i].chunks || HasChunk(s.threads[i].pc, c))
  }

  /** No chunk is in two hands. */
  ghost predicate Apart(s: State) {
    forall i: nat, j: nat, c: nat :: HoldsBy(s, i, c) && HoldsBy(s, j, c) ==> i == j
  }

  /** The thread will still come to u. */
  ghost predicate Todo(t: Thread, u: nat) {
    || (exists c: nat :: c in t.chunks && InChunk(c, u))
    || match t.pc
       case Vertex(c, x) => InChunk(c, u) && x <= u
       case Scan(c, x, _) => InChunk(c, u) && x <= u
       case Claim(c, x, _) => InChunk(c, u) && x <= u
       case Load(c, x) => InChunk(c, u) && x < u
       case Store(c, x, _) => InChunk(c, u) && x < u
       case _ => false
  }

  ghost predicate TodoBy(s: State, i: nat, u: nat) { i < |s.threads| && Todo(s.threads[i], u) }

  ghost predicate DoneOrTodo(p: Params, s: State, u: nat)
    requires Sized(p, s) && u < p.g.N()
  {
    LookedAt(p.g, p.d, s.tree, u) || exists i: nat :: TodoBy(s, i, u)
  }

  ghost predicate Covered(p: Params, s: State)
    requires Sized(p, s)
  {
    forall u: nat :: u < p.g.N() ==> DoneOrTodo(p, s, u)
  }

  ghost predicate SetsBy(s: State, i: nat, v: nat) {
    i < |s.threads| && (s.threads[i].pc.Load? || s.threads[i].pc.Store?) && s.threads[i].pc.u == v
  }

  /** A vertex found in this step has its bit, or a thread is setting it; no other vertex has one. */
  ghost predicate BitOk(p: Params, s: State, v: nat)
    requires Sized(p, s) && v < p.g.N()
  {
    && (s.next[v] ==> s.tree.level[v] == p.d + 1)
    && (s.tree.level[v] == p.d + 1 ==> s.next[v] || exists i: nat :: SetsBy(s, i, v))
  }

  ghost predicate BitsOk(p: Params, s: State)
    requires Sized(p, s)
  {
    forall v: nat :: v < p.g.N() ==> BitOk(p, s, v)
  }

  ghost function Awake(threads: seq<Thread>): nat {
    if threads == [] then 0 else threads[0].awake + Awake(threads[1..])
  }

  ghost predicate TreeOk(p: Params, s: State) {
    && p.Valid() && Sized(p, s) && Between(p.g, p.s, p.d, s.tree) && Extends(p.t0, s.tree, p.d)
    && Awake(s.threads) + Unseen(s.tree.level) == Unseen(p.t0.level)
  }

  ghost predicate Inv(p: Params, s: State) {
    && Sized(p, s) && TreeOk(p, s) && |s.threads| == p.workers
    && (forall i :: 0 <= i < |s.threads| ==> ThreadOk(p, s.tree, s.next, s.threads[i]))
    && Apart(s) && Covered(p, s) && BitsOk(p, s)
  }

  ghost function After(p: Params, s: State, i: nat): State
    requires Inv(p, s) && i < |s.threads|
  {
    var m := StepThread(p, s, s.threads[i]);
    State(m.tree, m.next, s.threads[i := m.t])
  }

  ghost predicate StepOf(p: Params, s: State, s': State, i: nat) {
    Inv(p, s) && i < |s.threads| && !s.threads[i].pc.Done? && s' == After(p, s, i)
  }

  // ---- what one step changes ----

  lemma {:induction false} AwakeUpdate(threads: seq<Thread>, i: nat, t: Thread)
    requires i < |threads|
    ensures Awake(threads[i := t]) == Awake(threads) - threads[i].awake + t.awake
  {
    if i == 0 {
      assert threads[i := t][1..] == threads[1..];
    } else {
      assert threads[i := t][1..] == threads[1..][i - 1 := t];
      AwakeUpdate(threads[1..], i - 1, t);
    }
  }

  lemma NegativeIsNew(p: Params, s: State, u: nat)
    requires TreeOk(p, s) && u < p.g.N()
    ensures s.tree.parent[u] < 0 <==> !Visited(s.tree, u)
  {
    assert TreeVertex(p.g, p.s, s.tree, u);
  }

  lemma ClaimGrows(p: Params, s: State, c: nat, u: nat, v: nat)
    requires TreeOk(p, s) && New(p, s.tree, c, u) && v < p.g.N() && s.tree.level[v] == p.d && u in p.g.out[v]
    ensures var t' := Adopt(s.tree, u, v, p.d);
            Between(p.g, p.s, p.d, t') && Extends(s.tree, t', p.d) && Extends(p.t0, t', p.d)
            && Unseen(t'.level) == Unseen(s.tree.level) - 1
  {
    NegativeIsNew(p, s, u);
    AdoptKeeps(p.g, p.s, p.d, s.tree, v, u);
    UnseenFalls(s.tree.level, u, p.d + 1);
  }

  lemma StepGrows(p: Params, s: State, i: nat)
    requires Inv(p, s) && i < |s.threads|
    ensures Sized(p, After(p, s, i)) && TreeOk(p, After(p, s, i)) && Extends(s.tree, After(p, s, i).tree, p.d)
  {
    hide Covered, BitsOk, Apart, Between, LevelState, HarmlessBits, AllLevelBits, Unseen;
    var t := s.threads[i];
    assert ThreadOk(p, s.tree, s.next, t);
    AwakeUpdate(s.threads, i, After(p, s, i).threads[i]);
    if t.pc.Claim? {
      ClaimGrows(p, s, t.pc.c, t.pc.u, t.pc.v);
    }
  }

  /** A step changes levels and bits of its own chunk only. */
  ghost predicate Local(p: Params, s: State, s': State, c: nat)
    requires Sized(p, s) && Sized(p, s')
  {
    forall v: nat :: v < p.g.N() && !InChunk(c, v) ==> s'.tree.level[v] == s.tree.level[v] && s'.next[v] == s.next[v]
  }

  ghost predicate SameData(s: State, s': State) { s'.tree == s.tree && s'.next == s.next }

  lemma StepLocal(p: Params, s: State, i: nat)
    requires Inv(p, s) && i < |s.threads| && Sized(p, After(p, s, i))
    ensures SameData(s, After(p, s, i)) || (HasChunk(s.threads[i].pc, s.threads[i].pc.c) && Local(p, s, After(p, s, i), s.threads[i].pc.c))
  {
    hide Covered, BitsOk, Apart, TreeOk;
    var t := s.threads[i];
    assert ThreadOk(p, s.tree, s.next, t);
    if t.pc.Store? {
      forall v: nat | v < p.g.N() && !InChunk(t.pc.c, v)
        ensures !(WordLow(t.pc.u) <= v < WordHigh(t.pc.u, p.g.N()))
      {
        if WordLow(t.pc.u) <= v < WordHigh(t.pc.u, p.g.N()) {
          WordInChunk(t.pc.c, t.pc.u, v, p.g.N());
        }
      }
    }
  }

  // ---- threads ----

  /** Another thread's chunk is untouched. */
  lemma OtherOk(p: Params, s: State, i: nat, j: nat)
    requires Inv(p, s) && i < |s.threads| && j < |s.threads| && i != j
    ensures Sized(p, After(p, s, i)) && ThreadOk(p, After(p, s, i).tree, After(p, s, i).next, After(p, s, i).threads[j])
  {
    StepGrows(p, s, i);
    StepLocal(p, s, i);
    var s', t := After(p, s, i), s.threads[j];
    assert ThreadOk(p, s.tree, s.next, t);
    if !SameData(s, s') {
      var c := s.threads[i].pc.c;
      assert HoldsBy(s, i, c);
      assert HasChunk(t.pc, c) ==> HoldsBy(s, j, c);
      hide Inv, TreeOk, StepThread;
      KeptOk(p, s, s', c, t);
    }
  }

  lemma KeptOk(p: Params, s: State, s': State, c: nat, t: Thread)
    requires Sized(p, s) && Sized(p, s') && ThreadOk(p, s.tree, s.next, t) && Local(p, s, s', c)
    requires Extends(s.tree, s'.tree, p.d) && !HasChunk(t.pc, c)
    ensures ThreadOk(p, s'.tree, s'.next, t)
  {
    if t.pc.Store? {
      SameWord(p, s, s', c, t.pc.c, t.pc.u);
    }
    if !t.pc.TakeChunk? && !t.pc.Done? && !t.pc.Vertex? {
      ChunksDiffer(c, t.pc.c, t.pc.u);
    }
  }

  lemma ChunksDiffer(c: nat, e: nat, u: nat)
    requires c != e && InChunk(e, u)
    ensures !InChunk(c, u)
  {
  }

  lemma SameWord(p: Params, s: State, s': State, c: nat, e: nat, u: nat)
    requires Sized(p, s) && Sized(p, s') && Local(p, s, s', c) && c != e && InChunk(e, u) && u < p.g.N()
    ensures s'.next[WordLow(u)..WordHigh(u, p.g.N())] == s.next[WordLow(u)..WordHigh(u, p.g.N())]
  {
    forall v: nat | WordLow(u) <= v < WordHigh(u, p.g.N())
      ensures s'.next[v] == s.next[v]
    {
      WordInChunk(e, u, v, p.g.N());
      ChunksDiffer(c, e, v);
    }
  }

  lemma OwnOk(p: Params, s: State, i: nat)
    requires Inv(p, s) && i < |s.threads|
    ensures Sized(p, After(p, s, i)) && ThreadOk(p, After(p, s, i).tree, After(p, s, i).next, After(p, s, i).threads[i])
  {
    StepGrows(p, s, i);
    var pc := s.threads[i].pc;
    hide Inv, StepThread, ThreadOk;
    if pc.Vertex? { OwnVertexOk(p, s, i); }
    else if pc.Scan? { OwnScanOk(p, s, i); }
    else { OwnPlainOk(p, s, i); }
  }

  lemma OwnVertexOk(p: Params, s: State, i: nat)
    requires Inv(p, s) && i < |s.threads| && s.threads[i].pc.Vertex?
    ensures Sized(p, After(p, s, i)) && ThreadOk(p, After(p, s, i).tree, After(p, s, i).next, After(p, s, i).threads[i])
  {
    var u := s.threads[i].pc.u;
    assert ThreadOk(p, s.tree, s.next, s.threads[i]);
    if u < p.g.N() {
      NegativeIsNew(p, s, u);
    }
    hide Covered, BitsOk, Apart, TreeOk;
  }

  lemma OwnScanOk(p: Params, s: State, i: nat)
    requires Inv(p, s) && i < |s.threads| && s.threads[i].pc.Scan?
    ensures Sized(p, After(p, s, i)) && ThreadOk(p, After(p, s, i).tree, After(p, s, i).next, After(p, s, i).threads[i])
  {
    hide Covered, BitsOk, Apart, Between, LevelState, AllLevelBits;
    var pc := s.threads[i].pc;
    assert ThreadOk(p, s.tree, s.next, s.threads[i]);
    if pc.k < |p.g.inn[pc.u]| && p.front[p.g.inn[pc.u][pc.k]] {
      assert p.g.inn[pc.u][pc.k] in p.g.inn[pc.u];
      BitIsFresh(p.g, p.d, p.t0, s.tree, p.front, pc.u, p.g.inn[pc.u][pc.k]);
    }
    hide HarmlessBits, Extends, TreeOk;
  }

  lemma OwnPlainOk(p: Params, s: State, i: nat)
    requires Inv(p, s) && i < |s.threads| && !s.threads[i].pc.Vertex? && !s.threads[i].pc.Scan?
    ensures Sized(p, After(p, s, i)) && ThreadOk(p, After(p, s, i).tree, After(p, s, i).next, After(p, s, i).threads[i])
  {
    hide Covered, BitsOk, Apart, TreeOk;
    assert ThreadOk(p, s.tree, s.next, s.threads[i]);
  }

  // ---- chunks ----

  lemma StepApart(p: Params, s: State, i: nat)
    requires Inv(p, s) && i < |s.threads|
    ensures Apart(After(p, s, i))
  {
    hide Covered, BitsOk, TreeOk;
    assert ThreadOk(p, s.tree, s.next, s.threads[i]);
    var s' := After(p, s, i);
    forall j: nat, c: nat | HoldsBy(s', j, c)
      ensures HoldsBy(s, j, c)
    {
      if j == i && s.threads[i].pc.TakeChunk? && s.threads[i].chunks != [] {
        assert s.threads[i].chunks[0] in s.threads[i].chunks;
      }
    }
  }

  // ---- vertices still to come ----

  lemma StepCovers(p: Params, s: State, i: nat)
    requires Inv(p, s) && i < |s.threads| && Sized(p, After(p, s, i))
    ensures Covered(p, After(p, s, i))
  {
    var s' := After(p, s, i);
    StepGrows(p, s, i);
    forall u: nat | u < p.g.N()
      ensures DoneOrTodo(p, s', u)
    {
      assert DoneOrTodo(p, s, u);
      hide Inv, StepThread, Todo;
      if LookedAt(p.g, p.d, s.tree, u) {
        LookedAtStays(p.g, p.d, s.tree, s'.tree, u);
      } else {
        var j: nat :| TodoBy(s, j, u);
        if j == i {
          OwnTodo(p, s, i, u);
        } else {
          assert TodoBy(s', j, u);
        }
      }
    }
  }

  lemma OwnTodo(p: Params, s: State, i: nat, u: nat)
    requires Inv(p, s) && i < |s.threads| && u < p.g.N() && TodoBy(s, i, u) && Sized(p, After(p, s, i))
    ensures DoneOrTodo(p, After(p, s, i), u)
  {
    var s', t := After(p, s, i), s.threads[i];
    assert ThreadOk(p, s.tree, s.next, t);
    var pc := t.pc;
    if exists c: nat :: c in t.chunks && InChunk(c, u) {
      LaterTodo(p, s, i, u);
    } else if pc.Vertex? && pc.u == u {
      VertexTodo(p, s, i);
    } else if pc.Scan? && pc.u == u && pc.k == |p.g.inn[u]| {
      ScannedAll(p, s, i);
    } else {
      hide Covered, BitsOk, Apart, TreeOk, New, Found;
      if pc.Claim? && pc.u == u {
        assert LookedAt(p.g, p.d, s'.tree, u);
      } else {
        assert TodoBy(s', i, u);
      }
    }
  }

  lemma LaterTodo(p: Params, s: State, i: nat, u: nat)
    requires Inv(p, s) && i < |s.threads| && exists c: nat :: c in s.threads[i].chunks && InChunk(c, u)
    ensures TodoBy(After(p, s, i), i, u)
  {
    hide Covered, BitsOk, Apart, TreeOk, New, Found;
    var t := s.threads[i];
    assert ThreadOk(p, s.tree, s.next, t);
    var c: nat :| c in t.chunks && InChunk(c, u);
    if t.pc.TakeChunk? {
      assert c == t.chunks[0] || c in t.chunks[1..];
    }
  }

  lemma VertexTodo(p: Params, s: State, i: nat)
    requires Inv(p, s) && i < |s.threads| && s.threads[i].pc.Vertex? && Sized(p, After(p, s, i))
    requires s.threads[i].pc.u < p.g.N() && InChunk(s.threads[i].pc.c, s.threads[i].pc.u)
    ensures DoneOrTodo(p, After(p, s, i), s.threads[i].pc.u)
  {
    var t := s.threads[i];
    assert ThreadOk(p, s.tree, s.next, t);
    NegativeIsNew(p, s, t.pc.u);
    hide Covered, BitsOk, Apart, TreeOk, New, Found;
    if s.tree.parent[t.pc.u] < 0 {
      assert TodoBy(After(p, s, i), i, t.pc.u);
    } else {
      assert LookedAt(p.g, p.d, s.tree, t.pc.u);
    }
  }

  /** With no bit behind it, a vertex has no in-neighbour in level d. */
  lemma ScannedAll(p: Params, s: State, i: nat)
    requires Inv(p, s) && i < |s.threads| && s.threads[i].pc.Scan? && s.threads[i].pc.u < p.g.N()
    requires s.threads[i].pc.k == |p.g.inn[s.threads[i].pc.u]|
    ensures LookedAt(p.g, p.d, s.tree, s.threads[i].pc.u)
  {
    var u := s.threads[i].pc.u;
    assert ThreadOk(p, s.tree, s.next, s.threads[i]);
    forall k | 0 <= k < |p.g.inn[u]|
      ensures s.tree.level[p.g.inn[u][k]] != p.d
    {
      var v := p.g.inn[u][k];
      assert !p.front[v];
      OldLevel(p, s, v);
    }
  }

  /** Level d was complete before the step. */
  lemma OldLevel(p: Params, s: State, v: nat)
    requires TreeOk(p, s) && v < p.g.N()
    ensures s.tree.level[v] == p.d ==> p.front[v]
  {
    hide Between, HarmlessBits;
    assert Visited(s.tree, v) ==> Visited(p.t0, v) || s.tree.level[v] == p.d + 1;
  }

  // ---- bits ----

  lemma StepBits(p: Params, s: State, i: nat)
    requires Inv(p, s) && i < |s.threads| && Sized(p, After(p, s, i))
    ensures BitsOk(p, After(p, s, i))
  {
    var s' := After(p, s, i);
    forall v: nat | v < p.g.N()
      ensures BitOk(p, s', v)
    {
      StepBit(p, s, i, v);
    }
  }

  lemma StepBit(p: Params, s: State, i: nat, v: nat)
    requires Inv(p, s) && i < |s.threads| && v < p.g.N() && Sized(p, After(p, s, i))
    ensures BitOk(p, After(p, s, i), v)
  {
    var s', t := After(p, s, i), s.threads[i];
    assert ThreadOk(p, s.tree, s.next, t) && BitOk(p, s, v);
    StepGrows(p, s, i);
    hide Inv, TreeOk, Found, New;
    if t.pc.Store? {
      StoredWord(p, s, i, v);
    }
    if t.pc.Claim? && t.pc.u == v {
      assert SetsBy(s', i, v);
    } else if s'.tree.level[v] == p.d + 1 && !s'.next[v] {
      var j: nat :| SetsBy(s, j, v);
      assert SetsBy(s', j, v);
    }
  }

  /** Storing the word sets the bit of u and keeps all others, since nobody else writes the word. */
  lemma StoredWord(p: Params, s: State, i: nat, v: nat)
    requires Sized(p, s) && i < |s.threads| && ThreadOk(p, s.tree, s.next, s.threads[i]) && s.threads[i].pc.Store? && v < p.g.N()
    ensures StepThread(p, s, s.threads[i]).next[v] == (s.next[v] || v == s.threads[i].pc.u)
  {
    var pc, n := s.threads[i].pc, p.g.N();
    WordInChunk(pc.c, pc.u, pc.u, n);
    if WordLow(pc.u) <= v < WordHigh(pc.u, n) {
      assert s.next[WordLow(pc.u)..WordHigh(pc.u, n)][v - WordLow(pc.u)] == s.next[v];
    }
  }

  lemma StepKeepsInv(p: Params, s: State, s': State, i: nat)
    requires StepOf(p, s, s', i)
    ensures Inv(p, s')
  {
    StepGrows(p, s, i);
    StepApart(p, s, i);
    StepCovers(p, s, i);
    StepBits(p, s, i);
    hide StepThread, TreeOk, Covered, BitsOk, Apart;
    forall j | 0 <= j < |s'.threads|
      ensures ThreadOk(p, s'.tree, s'.next, s'.threads[j])
    {
      if j == i { OwnOk(p, s, i); } else { OtherOk(p, s, i, j); }
    }
  }

  // ---- termination ----

  ghost function VertexWork(p: Params, u: nat): nat { if u < |p.g.inn| then |p.g.inn[u]| + 5 else 5 }

  /** Upper bound on the steps for the vertices from u up to hi. */
  ghost function RangeWork(p: Params, u: nat, hi: nat): nat
    decreases hi - u
  {
    if u >= hi then 0 else VertexWork(p, u) + RangeWork(p, u + 1, hi)
  }

  ghost function ChunkWork(p: Params, c: nat): nat { RangeWork(p, c * CHUNK, High(c, p.g.N())) + 2 }

  ghost function ChunksWork(p: Params, chunks: seq<nat>): nat {
    if chunks == [] then 0 else ChunkWork(p, chunks[0]) + ChunksWork(p, chunks[1..])
  }

  ghost function PcWork(p: Params, pc: Pc): nat {
    match pc
    case TakeChunk => 1
    case Vertex(c, u) => RangeWork(p, u, High(c, p.g.N())) + 2
    case Scan(c, u, k) =>
      RangeWork(p, u + 1, High(c, p.g.N())) + 6 + if u < |p.g.inn| && k <= |p.g.inn[u]| then |p.g.inn[u]| - k else 0
    case Claim(c, u, _) => RangeWork(p, u + 1, High(c, p.g.N())) + 5
    case Load(c, u) => RangeWork(p, u + 1, High(c, p.g.N())) + 4
    case Store(c, u, _) => RangeWork(p, u + 1, High(c, p.g.N())) + 3
    case Done => 0
  }

  /** Upper bound on the steps a thread still needs, whatever the others do. */
  ghost function Work(p: Params, t: Thread): nat { PcWork(p, t.pc) + ChunksWork(p, t.chunks) }

  ghost function TotalWork(p: Params, threads: seq<Thread>): nat {
    if threads == [] then 0 else Work(p, threads[0]) + TotalWork(p, threads[1..])
  }

  lemma {:induction false} TotalWorkUpdate(p: Params, threads: seq<Thread>, i: nat, t: Thread)
    requires i < |threads|
    ensures TotalWork(p, threads[i := t]) == TotalWork(p, threads) - Work(p, threads[i]) + Work(p, t)
  {
    if i == 0 {
      assert threads[i := t][1..] == threads[1..];
    } else {
      assert threads[i := t][1..] == threads[1..][i - 1 := t];
      TotalWorkUpdate(p, threads[1..], i - 1, t);
    }
  }

  lemma StepWorks(p: Params, s: State, i: nat)
    requires Inv(p, s) && i < |s.threads| && !s.threads[i].pc.Done?
    ensures Work(p, After(p, s, i).threads[i]) < Work(p, s.threads[i])
  {
    hide Covered, BitsOk, Apart, TreeOk, Visited, Found;
    assert ThreadOk(p, s.tree, s.next, s.threads[i]);
  }

  // ---- whole runs ----

  /** How many chunks there are, and all of them. */
  function Chunks(n: nat): nat { (n + CHUNK - 1) / CHUNK }

  ghost function AllChunks(n: nat): (r: seq<nat>)
    ensures |r| == Chunks(n) && forall c :: 0 <= c < |r| ==> r[c] == c
  {
    seq(Chunks(n), c requires 0 <= c => c)
  }

  /** Chunks handed out, all bits of the next frontier cleared. */
  ghost predicate IsStart(p: Params, s: State, shares: seq<seq<nat>>) {
    && p.Valid() && IsSplit(AllChunks(p.g.N()), shares, p.workers)
    && s.tree == p.t0 && |s.next| == p.g.N() && (forall v :: 0 <= v < |s.next| ==> !s.next[v])
    && |s.threads| == p.workers && forall i :: 0 <= i < |s.threads| ==> s.threads[i] == Thread(TakeChunk, shares[i], 0)
  }

  lemma ChunkOf(n: nat, u: nat) returns (c: nat)
    requires u < n
    ensures c < Chunks(n) && InChunk(c, u)
  {
    c := u / CHUNK;
  }

  lemma {:induction false} NobodyYet(threads: seq<Thread>)
    requires forall i :: 0 <= i < |threads| ==> threads[i].awake == 0
    ensures Awake(threads) == 0
  {
    if threads != [] {
      NobodyYet(threads[1..]);
    }
  }

  lemma StartThread(p: Params, s: State, shares: seq<seq<nat>>, i: nat)
    requires IsStart(p, s, shares) && i < |s.threads|
    ensures ThreadOk(p, s.tree, s.next, s.threads[i])
  {
    forall k | 0 <= k < |shares[i]|
      ensures shares[i][k] * CHUNK < p.g.N()
    {
      SplitHas(AllChunks(p.g.N()), shares, p.workers, shares[i][k]);
      assert shares[i][k] < Chunks(p.g.N());
    }
  }

  lemma StartApart(p: Params, s: State, shares: seq<seq<nat>>)
    requires IsStart(p, s, shares)
    ensures Apart(s)
  {
    forall i: nat, j: nat, c: nat | HoldsBy(s, i, c) && HoldsBy(s, j, c)
      ensures i == j
    {
      if i != j {
        SplitOnce(AllChunks(p.g.N()), shares, p.workers, i, j, c);
      }
    }
  }

  lemma StartKeeps(p: Params, s: State, shares: seq<seq<nat>>)
    requires IsStart(p, s, shares)
    ensures Inv(p, s)
  {
    StartApart(p, s, shares);
    NobodyYet(s.threads);
    forall i | 0 <= i < |s.threads|
      ensures ThreadOk(p, s.tree, s.next, s.threads[i])
    {
      StartThread(p, s, shares, i);
    }
    forall u: nat | u < p.g.N()
      ensures DoneOrTodo(p, s, u)
    {
      var c := ChunkOf(p.g.N(), u);
      assert AllChunks(p.g.N())[c] == c;
      SplitHas(AllChunks(p.g.N()), shares, p.workers, c);
      var i :| 0 <= i < |shares| && c in shares[i];
      assert TodoBy(s, i, u);
    }
  }

  ghost predicate Linked(p: Params, s: State, s': State) { exists i: nat :: StepOf(p, s, s', i) }

  ghost predicate Run(p: Params, run: seq<State>) {
    |run| > 0 && forall k :: 0 <= k < |run| - 1 ==> Linked(p, run[k], run[k + 1])
  }

  ghost predicate AllDone(s: State) { forall i :: 0 <= i < |s.threads| ==> s.threads[i].pc.Done? }

  lemma {:induction false} Reachable(p: Params, shares: seq<seq<nat>>, run: seq<State>)
    requires Run(p, run) && IsStart(p, run[0], shares)
    ensures Inv(p, run[|run| - 1])
    ensures |run| - 1 + TotalWork(p, run[|run| - 1].threads) <= TotalWork(p, run[0].threads)
  {
    hide Inv, IsStart, StepThread;
    if |run| == 1 {
      StartKeeps(p, run[0], shares);
    } else {
      var pre := run[..|run| - 1];
      forall k | 0 <= k < |pre| - 1
        ensures Linked(p, pre[k], pre[k + 1])
      {
        assert Linked(p, run[k], run[k + 1]);
      }
      Reachable(p, shares, pre);
      var s, s' := run[|run| - 2], run[|run| - 1];
      assert Linked(p, run[|run| - 2], run[|run| - 2 + 1]);
      var i: nat :| StepOf(p, s, s', i);
      StepKeepsInv(p, s, s', i);
      StepWorks(p, s, i);
      TotalWorkUpdate(p, s.threads, i, s'.threads[i]);
    }
  }

  ghost predicate Enabled(p: Params, s: State) {
    Inv(p, s) && exists i: nat :: i < |s.threads| && StepOf(p, s, After(p, s, i), i)
  }

  /** No schedule runs longer than a fixed number of steps, and none gets stuck. */
  lemma BottomUpTerminates(p: Params, shares: seq<seq<nat>>, run: seq<State>)
    requires Run(p, run) && IsStart(p, run[0], shares)
    ensures |run| - 1 <= TotalWork(p, run[0].threads)
    ensures AllDone(run[|run| - 1]) || Enabled(p, run[|run| - 1])
  {
    Reachable(p, shares, run);
    var s := run[|run| - 1];
    hide Inv;
    if !AllDone(s) {
      var i: nat :| i < |s.threads| && !s.threads[i].pc.Done?;
      Steps(p, s, i);
    }
  }

  /** So every run goes on to an end. */
  lemma {:induction false} Completes(p: Params, shares: seq<seq<nat>>, run: seq<State>) returns (full: seq<State>)
    requires Run(p, run) && IsStart(p, run[0], shares)
    ensures Run(p, full) && full[0] == run[0] && AllDone(full[|full| - 1])
    decreases TotalWork(p, run[|run| - 1].threads)
  {
    hide Inv, IsStart, StepThread;
    var s := run[|run| - 1];
    if AllDone(s) {
      full := run;
    } else {
      Reachable(p, shares, run);
      var i: nat :| i < |s.threads| && !s.threads[i].pc.Done?;
      Steps(p, s, i);
      var s' := After(p, s, i);
      StepWorks(p, s, i);
      TotalWorkUpdate(p, s.threads, i, s'.threads[i]);
      Longer(p, run, s');
      full := Completes(p, shares, run + [s']);
    }
  }

  lemma Longer(p: Params, run: seq<State>, s': State)
    requires Run(p, run) && Linked(p, run[|run| - 1], s')
    ensures Run(p, run + [s'])
  {
    forall k | 0 <= k < |run|
      ensures Linked(p, (run + [s'])[k], (run + [s'])[k + 1])
    {
      if k + 1 < |run| {
        assert Linked(p, run[k], run[k + 1]);
      }
    }
  }

  lemma Steps(p: Params, s: State, i: nat)
    requires Inv(p, s) && i < |s.threads| && !s.threads[i].pc.Done?
    ensures StepOf(p, s, After(p, s, i), i)
  {
  }

  lemma FinishedLooked(p: Params, s: State, u: nat)
    requires Inv(p, s) && AllDone(s) && u < p.g.N()
    ensures LookedAt(p.g, p.d, s.tree, u)
  {
    assert DoneOrTodo(p, s, u);
    forall i: nat
      ensures !TodoBy(s, i, u)
    {
      assert i < |s.threads| ==> ThreadOk(p, s.tree, s.next, s.threads[i]);
    }
  }

  lemma FinishedBits(p: Params, s: State)
    requires Inv(p, s) && AllDone(s)
    ensures NextBits(s.tree, p.d, s.next)
  {
    forall v: nat | v < p.g.N()
      ensures s.next[v] <==> s.tree.level[v] == p.d + 1
    {
      assert BitOk(p, s, v);
    }
  }

  /** Under every interleaving the step does what the single-threaded one does: the next level is
      complete, its bits and no others are set, and the count is that of its vertices. */
  lemma BottomUpCorrect(p: Params, shares: seq<seq<nat>>, run: seq<State>)
    requires Run(p, run) && IsStart(p, run[0], shares) && AllDone(run[|run| - 1])
    ensures var s := run[|run| - 1];
            && LevelState(p.g, p.s, p.d + 1, s.tree) && Extends(p.t0, s.tree, p.d) && NextBits(s.tree, p.d, s.next)
            && Awake(s.threads) + Unseen(s.tree.level) == Unseen(p.t0.level)
  {
    Reachable(p, shares, run);
    var s := run[|run| - 1];
    forall u: nat | u < p.g.N()
      ensures LookedAt(p.g, p.d, s.tree, u)
    {
      FinishedLooked(p, s, u);
    }
    FinishedBits(p, s);
    hide Covered, BitsOk, Apart, Between, NextBits;
    BottomUpDone(p.g, p.s, p.d, s.tree);
  }
}
