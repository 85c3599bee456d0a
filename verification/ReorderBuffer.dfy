/** The reorder buffer's methods over its arrays: dependence, wake-up, execution and retirement. */
module ReorderBuffer {
  import opened Pigeonhole
  import opened RobState

  function Wrap(n: nat, x: nat): nat
    requires x < 2 * n
  {
    if x < n then x else x - n
  }

  // ---- the ready-to-execute rings ----

  ghost predicate SlotIs(slots: seq<nat>, n: nat, head: nat, contents: seq<nat>, k: nat)
    requires head < n == |slots| && k < n
  {
    slots[Wrap(n, head + k)] == if k < |contents| then contents[k] else n
  }

  /** A ring holds its contents from head on; the mark n stands for an empty slot. */
  ghost predicate RingIs(slots: seq<nat>, n: nat, head: nat, tail: nat, contents: seq<nat>) {
    && head < n == |slots| && |contents| <= n
    && tail == (if head + |contents| < n then head + |contents| else head + |contents| - n)
    && (forall k :: 0 <= k < |contents| ==> contents[k] < n)
    && forall k: nat :: k < n ==> SlotIs(slots, n, head, contents, k)
  }

  lemma PushKeeps(slots: seq<nat>, n: nat, head: nat, tail: nat, contents: seq<nat>, i: nat)
    requires RingIs(slots, n, head, tail, contents) && |contents| < n && i < n
    ensures tail < n && slots[tail] == n
    ensures RingIs(slots[tail := i], n, head, if tail + 1 == n then 0 else tail + 1, contents + [i])
  {
    assert SlotIs(slots, n, head, contents, |contents|);
    var slots', contents' := slots[tail := i], contents + [i];
    forall k: nat | k < n
      ensures SlotIs(slots', n, head, contents', k)
    {
      assert SlotIs(slots, n, head, contents, k);
    }
  }

  lemma PopKeeps(slots: seq<nat>, n: nat, head: nat, tail: nat, contents: seq<nat>)
    requires RingIs(slots, n, head, tail, contents)
    ensures slots[head] < n <==> contents != []
    ensures contents != [] ==>
              && slots[head] == contents[0]
              && RingIs(slots[head := n], n, if head + 1 == n then 0 else head + 1, tail, contents[1..])
  {
    assert SlotIs(slots, n, head, contents, 0);
    if contents != [] {
      var head' := if head + 1 == n then 0 else head + 1;
      var slots', contents' := slots[head := n], contents[1..];
      forall k: nat | k < n
        ensures SlotIs(slots', n, head', contents', k)
      {
        if k + 1 < n {
          assert SlotIs(slots, n, head, contents, k + 1);
        }
      }
    }
  }

  class ReadyRing {
    const n: nat
    const slots: array<nat>
    var head: nat
    var tail: nat
    ghost var contents: seq<nat>

    ghost predicate Valid()
      reads this, slots
    {
      RingIs(slots[..], n, head, tail, contents)
    }

    constructor (n: nat)
      requires n > 0
      ensures Valid() && this.n == n && contents == [] && fresh(slots)
    {
      this.n := n;
      slots := new nat[n](_ => n);
      head, tail, contents := 0, 0, [];
    }

    /** Appends an index; the flag reports an occupied slot, which a ring with room never has. */
    method Push(i: nat) returns (overflow: bool)
      requires Valid() && i < n && |contents| < n
      modifies this`tail, this`contents, slots
      ensures Valid() && !overflow && contents == old(contents) + [i]
    {
      PushKeeps(slots[..], n, head, tail, contents, i);
      overflow := slots[tail] < n;
      if overflow {
        return;
      }
      ghost var after := slots[..][tail := i];
      slots[tail] := i;
      assert slots[..] == after;
      contents := contents + [i];
      tail := tail + 1;
      if tail == n {
        tail := 0;
      }
    }

    /** The index at the head, or n. */
    method Peek() returns (i: nat)
      requires Valid()
      ensures i < n <==> contents != []
      ensures contents != [] ==> i == contents[0]
    {
      PopKeeps(slots[..], n, head, tail, contents);
      i := slots[head];
    }

    method Pop()
      requires Valid() && contents != []
      modifies this`head, this`contents, slots
      ensures Valid() && contents == old(contents)[1..]
    {
      PopKeeps(slots[..], n, head, tail, contents);
      ghost var after := slots[..][head := n];
      slots[head] := n;
      assert slots[..] == after;
      contents := contents[1..];
      head := head + 1;
      if head == n {
        head := 0;
      }
    }
  }

  /** An empty entry of the ring with k source registers. */
  function EmptyEntry(k: nat): (e: Entry)
    ensures IsNew(e, k) && !e.isMem && e.dst == [] && !e.regReady && forall j :: 0 <= j < k ==> e.src[j] == 0
  {
    Entry(false, seq(k, _ => 0), [], 0, 0, false, 0, seq(k, _ => false), {}, seq(k, _ => {}))
  }

  // ---- looking for producers ----

  /** Does the producer write the consumer's source register?  Register zero is none. */
  method RegRawDependency(ent: seq<Entry>, prior: nat, current: nat, j: nat, ghost s: Rob) returns (ent': seq<Entry>)
    requires Shape(s) && ent == s.ent && prior < s.n && current < s.n && prior != current && j < s.k
    ensures ent' == if Writes(ent[prior], ent[current].src[j]) then LinkOne(s, current, prior, j).ent else ent
  {
    var dst := ent[prior].dst;
    for i := 0 to |dst|
      invariant !Writes(ent[prior].(dst := dst[..i]), ent[current].src[j])
    {
      assert dst[..i + 1] == dst[..i] + [dst[i]];
      if dst[i] != 0 && dst[i] == ent[current].src[j] {
        assert Writes(ent[prior], ent[current].src[j]);
        var p, c := ent[prior], ent[current];
        ent' := ent[prior := p.(byIndex := p.byIndex[j := p.byIndex[j] + {current}], dependents := p.dependents + {current})];
        ent' := ent'[current := c.(numDep := c.numDep + 1, regReady := false, checked := c.checked[j := true])];
        return;
      }
    }
    assert dst[..|dst|] == dst;
    ent' := ent;
  }

  /** A buffer in the middle of scheduling entry b, the ages down to a seen and links made from c on. */
  datatype SweepState = SweepState(s: Rob, open: set<Link>, b: nat, a: int, c: int)

  ghost predicate IsSweep(w: SweepState) { Scheduling(w.s, w.open, w.b, w.a, w.c) }

  type Sweep = w: SweepState | IsSweep(w) ghost witness FirstSweep()

  ghost function FirstSweep(): (w: SweepState)
    ensures IsSweep(w)
  {
    var e := EmptyEntry(0);
    var s := Rob(1, 0, 0, 1, [e], [], [], [0]);
    assert To({}, 0) == {};
    SweepState(s, {}, 0, 0, 0)
  }

  lemma LinkStepTo(w: SweepState, p: nat, j: nat, w': SweepState)
    requires Older(w.s, p, w.b) && Scheduling(w.s, w.open, w.b, Age(w.s, p) + 1, Age(w.s, p))
    requires j < w.s.k && w.s.ent[p].executed != COMPLETED && !w.s.ent[w.b].checked[j]
    requires Writes(w.s.ent[p], w.s.ent[w.b].src[j])
    requires w'.s == LinkOne(w.s, w.b, p, j) && w'.open == w.open + {Link(p, w.b, j)} && w'.b == w.b
    requires w'.a == Age(w.s, p) + 1 && w'.c == Age(w.s, p)
    ensures IsSweep(w')
  {
    hide Scheduling, Linking, Core;
    LinkStep(w.s, w.open, w.b, p, j);
  }

  lemma LinkSweep(w: Sweep, p: nat, j: nat) returns (w': Sweep)
    requires Older(w.s, p, w.b) && w.a == Age(w.s, p) + 1 && w.c == Age(w.s, p) && j < w.s.k
    requires w.s.ent[p].executed != COMPLETED && !w.s.ent[w.b].checked[j] && Writes(w.s.ent[p], w.s.ent[w.b].src[j])
    ensures w'.s == LinkOne(w.s, w.b, p, j) && w'.b == w.b && w'.a == w.a && w'.c == w.c
  {
    var x := SweepState(LinkOne(w.s, w.b, p, j), w.open + {Link(p, w.b, j)}, w.b, w.a, w.c);
    LinkStepTo(w, p, j, x);
    w' := x;
  }

  lemma DescendTo(w: SweepState, p: nat, w': SweepState)
    requires Older(w.s, p, w.b) && Scheduling(w.s, w.open, w.b, Age(w.s, p) + 1, Age(w.s, p) + 1)
    requires w' == w.(a := Age(w.s, p) + 1, c := Age(w.s, p))
    ensures IsSweep(w')
  {
    hide Scheduling, Linking, Core;
    Descend(w.s, w.open, w.b, p);
  }

  lemma DescendSweep(w: Sweep, p: nat) returns (w': Sweep)
    requires Older(w.s, p, w.b) && w.a == w.c == Age(w.s, p) + 1
    ensures w'.s == w.s && w'.b == w.b && w'.a == w.a && w'.c == Age(w.s, p)
  {
    var x := w.(a := Age(w.s, p) + 1, c := Age(w.s, p));
    DescendTo(w, p, x);
    w' := x;
  }

  lemma DoneTo(w: SweepState, p: nat, w': SweepState)
    requires Older(w.s, p, w.b) && Scheduling(w.s, w.open, w.b, Age(w.s, p) + 1, Age(w.s, p)) && LookedAt(w.s, w.b, p)
    requires w' == w.(a := Age(w.s, p), c := Age(w.s, p))
    ensures IsSweep(w')
  {
    hide Scheduling, Linking, Core;
    AgeDone(w.s, w.open, w.b, p);
  }

  lemma DoneSweep(w: Sweep, p: nat) returns (w': Sweep)
    requires Older(w.s, p, w.b) && w.a == Age(w.s, p) + 1 && w.c == Age(w.s, p)
    requires w.s.ent[p].executed == COMPLETED || SettledBelow(w.s, w.b, p, w.s.k)
    ensures w'.s == w.s && w'.b == w.b && w'.a == w'.c == Age(w.s, p)
  {
    if w.s.ent[p].executed != COMPLETED {
      forall x: nat | x < w.s.k
        ensures w.s.ent[w.b].checked[x] || !Writes(w.s.ent[p], w.s.ent[w.b].src[x])
      {
        assert SettledAt(w.s.ent[p], w.s.ent[w.b], x);
      }
    }
    var y := w.(a := Age(w.s, p), c := Age(w.s, p));
    DoneTo(w, p, y);
    w' := y;
  }

  /** Source register x is checked, or the producer does not write it. */
  ghost predicate SettledAt(pe: Entry, c: Entry, x: nat) {
    x < |c.checked| && x < |c.src| && (c.checked[x] || !Writes(pe, c.src[x]))
  }

  /** What the scan may rely on while it links sources of b to p. */
  ghost predicate Kept(s: Rob, r: Rob, b: nat, p: nat) {
    && |r.ent| == |s.ent| && b < |s.ent| && p < |s.ent|
    && r.ent[p].executed == s.ent[p].executed && r.ent[p].dst == s.ent[p].dst && r.ent[b].src == s.ent[b].src
  }

  ghost predicate SettledBelow(r: Rob, b: nat, p: nat, j: nat) {
    b < |r.ent| && p < |r.ent| && forall x: nat :: x < j ==> SettledAt(r.ent[p], r.ent[b], x)
  }

  /** Linking some sources keeps codes and progress, and settles those sources. */
  lemma {:induction false} SourcesKeep(s: Rob, b: nat, p: nat, j: nat)
    requires Shape(s) && b < s.n && p < s.n && b != p && j <= s.k
    ensures var r := LinkSources(s, b, p, j); Kept(s, r, b, p) && SettledBelow(r, b, p, j)
  {
    if j > 0 {
      hide LinkSource, SettledBelow, Shape, Kept;
      var q := LinkSources(s, b, p, j - 1);
      SourcesKeep(s, b, p, j - 1);
      OneSettles(q, b, p, j - 1);
      KeptTrans(s, q, LinkSources(s, b, p, j), b, p);
    }
  }

  lemma KeptTrans(s: Rob, q: Rob, r: Rob, b: nat, p: nat)
    requires Kept(s, q, b, p) && Kept(q, r, b, p)
    ensures Kept(s, r, b, p)
  {
  }

  lemma OneSettles(s: Rob, b: nat, p: nat, j: nat)
    requires Shape(s) && b < s.n && p < s.n && p != b && j < s.k
    ensures Kept(s, LinkSource(s, b, p, j), b, p)
    ensures SettledBelow(s, b, p, j) ==> SettledBelow(LinkSource(s, b, p, j), b, p, j + 1)
  {
    var r := LinkSource(s, b, p, j);
    forall x: nat | SettledAt(s.ent[p], s.ent[b], x)
      ensures SettledAt(r.ent[p], r.ent[b], x)
    {
    }
  }

  /** One source register of the entry against one older entry that has not completed. */
  method LinkIfWriter(ent: seq<Entry>, prior: nat, current: nat, j: nat, ghost w: Sweep)
    returns (ent': seq<Entry>, ghost w': Sweep)
    requires ent == w.s.ent && current == w.b && Older(w.s, prior, current) && w.a == Age(w.s, prior) + 1
    requires w.c == Age(w.s, prior) && j < w.s.k && ent[prior].executed != COMPLETED
    ensures w'.s == LinkSource(w.s, current, prior, j)
    ensures ent' == w'.s.ent && w'.b == w.b && w'.a == w.a && w'.c == w.c
  {
    ent', w' := ent, w;
    if ent[current].src[j] != 0 && !ent[current].checked[j] {
      ent' := RegRawDependency(ent, prior, current, j, w.s);
      if Writes(ent[prior], ent[current].src[j]) {
        w' := LinkSweep(w, prior, j);
      }
    }
  }

  method LinkAll(ent: seq<Entry>, prior: nat, current: nat, ghost w: Sweep) returns (ent': seq<Entry>, ghost w': Sweep)
    requires ent == w.s.ent && current == w.b && Older(w.s, prior, current) && w.a == Age(w.s, prior) + 1
    requires w.c == Age(w.s, prior) && ent[prior].executed != COMPLETED
    ensures ent' == w'.s.ent && w'.b == w.b && w'.a == w.a && w'.c == w.c
    ensures w'.s == LinkSources(w.s, current, prior, w.s.k)
  {
    assert Shape(w.s) && |ent[current].src| == w.s.k;
    hide LinkOne, Scheduling, Writes, SettledAt, Older, Age;
    ent', w' := ent, w;
    for j := 0 to |ent[current].src|
      invariant w'.s == LinkSources(w.s, current, prior, j)
      invariant ent' == w'.s.ent && w'.b == w.b && w'.a == w.a && w'.c == w.c
    {
      SourcesKeep(w.s, current, prior, j);
      SameOlder(w.s, w'.s, prior, current);
      ent', w' := LinkIfWriter(ent', prior, current, j, w');
    }
  }

  /** All source registers of the entry against one older entry. */
  method LookAt(ent: seq<Entry>, prior: nat, current: nat, ghost w: Sweep) returns (ent': seq<Entry>, ghost w': Sweep)
    requires ent == w.s.ent && current == w.b && Older(w.s, prior, current) && w.a == w.c == Age(w.s, prior) + 1
    ensures ent' == w'.s.ent && w'.b == w.b && w'.a == w'.c == Age(w.s, prior)
    ensures w'.s == if ent[prior].executed != COMPLETED then LinkSources(w.s, current, prior, w.s.k) else w.s
  {
    ent' := ent;
    w' := DescendSweep(w, prior);
    if ent[prior].executed != COMPLETED {
      ent', w' := LinkAll(ent, prior, current, w');
      SourcesKeep(w.s, current, prior, w.s.k);
      SameOlder(w.s, w'.s, prior, current);
    }
    w' := DoneSweep(w', prior);
  }

  /** Backwards over the older entries, youngest first, around the end of the array. */
  method LookBack(ent: seq<Entry>, n: nat, head: nat, b: nat, ghost s: Rob, ghost open: set<Link>)
    returns (ent': seq<Entry>, ghost open': set<Link>)
    requires n == s.n && head == s.head && ent == s.ent && Inv(s, open) && Live(s, b) && ent[b].scheduled == 0
    ensures Scheduling(s.(ent := ent'), open', b, 0, 0) && Swept(s, s.(ent := ent'), b, 0)
  {
    BeginSchedule(s, open, b);
    NothingSwept(s, open, b);
    ghost var w: Sweep := SweepState(s, open, b, Age(s, b), Age(s, b));
    hide Inv, Scheduling, Swept;
    ent', w := LookBackFrom(ent, n, head, b, s, w);
    open' := w.open;
  }

  /** The loop, from the entry itself down to the head. */
  method LookBackFrom(ent: seq<Entry>, n: nat, head: nat, b: nat, ghost s: Rob, ghost w0: Sweep)
    returns (ent': seq<Entry>, ghost w: Sweep)
    requires n == s.n && head == s.head && ent == s.ent && Live(s, b) && Shape(s)
    requires w0.s == s && w0.b == b && w0.a == w0.c == Age(s, b) && Swept(s, s, b, Age(s, b))
    ensures w.s == s.(ent := ent') && w.b == b && w.a == w.c == 0 && Swept(s, w.s, b, 0)
  {
    assert Age(s, head) == 0 && b < n;
    hide Scheduling, Swept, LinkSources, Shape, Age, Older, Live;
    ent', w := ent, w0;
    var prior: nat := b;
    while prior != head
      invariant prior < n && Live(s, prior) && Age(s, prior) <= Age(s, b)
      invariant w.s == s.(ent := ent') && w.b == b && w.a == w.c == Age(s, prior)
      invariant Swept(s, w.s, b, Age(s, prior))
      decreases Age(s, prior)
    {
      ent', prior, w := LookOlder(ent', n, prior, b, s, w);
    }
  }

  /** One turn of the loop: the next older entry, around the end of the array. */
  method LookOlder(ent: seq<Entry>, n: nat, from: nat, b: nat, ghost s: Rob, ghost w: Sweep)
    returns (ent': seq<Entry>, prior: nat, ghost w': Sweep)
    requires n == s.n && Shape(s) && Live(s, b) && Live(s, from) && from != s.head && Age(s, from) <= Age(s, b)
    requires w.s == s.(ent := ent) && w.b == b && w.a == w.c == Age(s, from) && Swept(s, w.s, b, Age(s, from))
    ensures prior < n && Live(s, prior) && 0 <= Age(s, prior) < Age(s, from) <= Age(s, b)
    ensures w'.s == s.(ent := ent') && w'.b == b && w'.a == w'.c == Age(s, prior) && Swept(s, w'.s, b, Age(s, prior))
  {
    prior := if from == 0 then n - 1 else from - 1;
    OlderSwept(s, w, from, prior, b);
    hide Scheduling, Swept, LinkSources, Shape, Age, Older, Live;
    ent', w' := LookAt(ent, prior, b, w);
  }

  /** What looking at the next older entry makes of the sweep. */
  lemma OlderSwept(s: Rob, w: Sweep, from: nat, prior: nat, b: nat)
    requires Shape(s) && Live(s, b) && Live(s, from) && from != s.head && Age(s, from) <= Age(s, b)
    requires prior == if from == 0 then s.n - 1 else from - 1
    requires w.s == s.(ent := w.s.ent) && w.b == b && w.a == w.c == Age(s, from) && Swept(s, w.s, b, Age(s, from))
    ensures prior < s.n && Live(s, prior) && Age(s, from) == Age(s, prior) + 1 && Age(s, prior) >= 0
    ensures Shape(w.s) && Older(w.s, prior, b) && Age(w.s, prior) == Age(s, prior)
    ensures Swept(s, if w.s.ent[prior].executed != COMPLETED then LinkSources(w.s, b, prior, w.s.k) else w.s, b, Age(s, prior))
  {
    hide LinkSources, Older, Live, OnlyLinksAt, Scheduling;
    OneOlder(s, from, prior, b);
    SameOlder(s, w.s, prior, b);
    assert Shape(w.s);
    hide Swept, Shape, Age;
    SweepDown(s, w.s, b, prior, Age(s, from));
  }

  /** The slot before a live entry that is not the head holds the next older entry. */
  lemma OneOlder(s: Rob, from: nat, prior: nat, b: nat)
    requires Shape(s) && Live(s, from) && from != s.head && Live(s, b) && Age(s, from) <= Age(s, b)
    requires prior == if from == 0 then s.n - 1 else from - 1
    ensures prior < s.n && Live(s, prior) && Age(s, from) == Age(s, prior) + 1 && Age(s, prior) >= 0 && Older(s, prior, b)
  {
  }

  lemma SameOlder(s: Rob, s': Rob, p: nat, b: nat)
    requires Older(s, p, b) && s' == s.(ent := s'.ent)
    ensures Older(s', p, b) && Age(s', p) == Age(s, p)
  {
  }

  lemma FinishTo(s: Rob, open: set<Link>, b: nat, s': Rob)
    requires Scheduling(s, open, b, 0, 0) && s' == Scheduled(s, b)
    ensures Inv(s', open)
  {
    FinishSchedule(s, open, b, 0);
  }

  /** A queue that now ends with b had room for it. */
  lemma ReadyHasRoom(s: Rob, open: set<Link>, b: nat)
    requires Core(s, open, s.n, 0)
    ensures |s.q0| <= s.n && |s.q1| <= s.n
  {
    forall i | 0 <= i < |s.q0|
      ensures s.q0[i] < s.n
    {
      assert s.q0[i] in s.q0;
    }
    forall i | 0 <= i < |s.q1|
      ensures s.q1[i] < s.n
    {
      assert s.q1[i] in s.q1;
    }
    Pigeons(s.q0, s.n);
    Pigeons(s.q1, s.n);
  }

  /** The buffer with a new entry at the tail t. */
  lemma AddTo(s: Rob, open: set<Link>, e: Entry, t: nat)
    requires Inv(s, open) && IsNew(e, s.k) && s.occ < s.n && t == AtAge(s, s.occ)
    ensures t < s.n && t < |s.ent| && t < |s.entered|
    ensures var s' := s.(ent := s.ent[t := e], entered := s.entered[t := 0], occ := s.occ + 1);
            Inv(s', open) && Live(s', t) && Age(s', t) == s.occ
  {
    hide LinksOk, StatusesOk, WritersOk, QueuesOk;
    AddKeeps(s, open, e);
    AddedAges(s, e, t);
  }

  /** An entry that lost sources to wait for, and nothing else unless none is left. */
  ghost predicate ChangedAt(e: Entry, e': Entry) {
    && (e'.numDep == e.numDep ==> e' == e)
    && (e'.numDep != e.numDep && e'.numDep > 0 ==> e' == e.(numDep := e'.numDep))
    && (e'.numDep != e.numDep && e'.numDep == 0 ==>
          e' == e.(numDep := 0, regReady := true, scheduled := if e.isMem then INFLIGHT else COMPLETED))
  }

  /** What releasing one link needs and keeps. */
  lemma ReleaseTo(s: Rob, open: set<Link>, p: nat, l: Link)
    requires Releasing(s, open, p) && l in open && l.p == p
    ensures Shape(s) && l.i < s.n && s.ent[l.i].numDep > 0 && p < s.n && l.i != p
    ensures Releasing(Released(s, l.i), open - {l}, p) && OnlyWoken(s, Released(s, l.i))
    ensures s.ent[l.i].numDep == 1 && !s.ent[l.i].isMem ==> |s.q0| < s.n
  {
    assert LinkOk(s, l, s.n);
    ReleaseOne(s, open, p, l);
    ReleasedWakes(s, l.i);
    hide OnlyWoken, LinksOk, StatusesOk, WritersOk;
    ReadyHasRoom(Released(s, l.i), open - {l}, l.i);
  }

  class ReorderBuffer {
    const n: nat
    const k: nat
    var entries: seq<Entry>
    var head: nat
    var tail: nat
    var occupancy: nat
    const rte0: ReadyRing
    const rte1: ReadyRing

    ghost var entered: seq<nat>
    ghost var open: set<Link>

    ghost function State(): Rob
      reads this, rte0, rte1
    {
      Rob(n, k, head, occupancy, entries, rte0.contents, rte1.contents, entered)
    }

    /** The rings and the pointers, whatever the entries. */
    ghost predicate Rings()
      reads this, rte0, rte1, rte0.slots, rte1.slots
    {
      && rte0.Valid() && rte1.Valid() && rte0.n == n && rte1.n == n && rte0 != rte1 && rte0.slots != rte1.slots
      && head < n && occupancy <= n && tail == AtAge(State(), occupancy) < n
    }

    ghost predicate Valid()
      reads this, rte0, rte1, rte0.slots, rte1.slots
    {
      Rings() && Inv(State(), open)
    }

    constructor (n: nat, k: nat)
      requires n > 0
      ensures Valid() && occupancy == 0 && this.n == n && this.k == k
    {
      this.n, this.k := n, k;
      entries := seq(n, _ => EmptyEntry(k));
      head, tail, occupancy := 0, 0, 0;
      rte0 := new ReadyRing(n);
      rte1 := new ReadyRing(n);
      entered := seq(n, _ => 0);
      open := {};
    }

    // ---- dispatch ----

    /** A decoded instruction takes the slot at the tail. */
    method AddToRob(e: Entry)
      requires Valid() && occupancy < n && IsNew(e, k)
      modifies this`entries, this`tail, this`occupancy, this`entered
      ensures Valid() && entries == old(entries)[old(tail) := e] && head == old(head) && occupancy == old(occupancy) + 1
      ensures Live(State(), old(tail)) && Age(State(), old(tail)) == old(occupancy)
    {
      ghost var s, t := State(), tail;
      AddTo(s, open, e, t);
      hide Inv, Shape, IsNew, Live, Age, RingIs;
      entries := entries[tail := e];
      entered := entered[tail := 0];
      occupancy := occupancy + 1;
      tail := tail + 1;
      if tail >= n {
        tail := 0;
      }
      assert State() == s.(ent := s.ent[t := e], entered := s.entered[t := 0], occ := s.occ + 1);
    }

    // ---- scheduling ----

    /** Dependences are recorded; an instruction without any is ready at once. */
    method DoScheduling(b: nat) returns (overflow: bool)
      requires Valid() && Live(State(), b) && entries[b].scheduled == 0
      modifies this`entries, this`open, this`entered, rte1, rte1.slots
      ensures Valid() && !overflow && |entries| == n
      ensures forall p: nat, j: nat :: j < k ==>
                (Linked(State(), Link(p, b, j)) <==> YoungestOpen(old(State()), b, old(entries)[b].src[j], p))
      ensures forall i: nat :: i < n && i != b ==> OnlyLinksAt(old(entries)[i], entries[i], i, b)
      ensures ScheduledAt(old(entries)[b], entries[b])
      ensures entries[b].scheduled == (if entries[b].isMem then INFLIGHT else COMPLETED) && (entries[b].regReady <==> entries[b].numDep == 0)
      ensures rte1.contents == old(rte1.contents) + if entries[b].numDep == 0 && !entries[b].isMem then [b] else []
    {
      ghost var s, open' := State(), open;
      entries, open' := LookBack(entries, n, head, b, s, open);
      open := open';
      ghost var r := State();
      overflow := FinishEntry(b);
      SweptAndFinished(s, r, State(), b);
    }

    /** Dispatch and scheduling together: each source register of the instruction given ends up linked to
        the youngest instruction before it that writes the register and has not completed. */
    method AddAndSchedule(e: Entry) returns (b: nat, overflow: bool)
      requires Valid() && occupancy < n && IsNew(e, k)
      modifies this`entries, this`tail, this`occupancy, this`entered, this`open, rte1, rte1.slots
      ensures Valid() && !overflow && b == old(tail) && ScheduledAt(e, entries[b])
      ensures forall p: nat, j: nat :: j < k ==> (Linked(State(), Link(p, b, j)) <==> LastOpenWriter(old(State()), e.src[j], p))
      ensures forall i: nat :: i < n && i != b ==> OnlyLinksAt(old(entries)[i], entries[i], i, b)
    {
      b := tail;
      ghost var s := State();
      AddToRob(e);
      ghost var q := State();
      assert entries[b] == e;
      overflow := DoScheduling(b);
      forall p: nat, j: nat | j < k
        ensures YoungestOpen(q, b, e.src[j], p) <==> LastOpenWriter(s, e.src[j], p)
      {
        LastIsYoungest(s, q, e, b, e.src[j], p);
      }
    }

    /** The end of scheduling: the status, and the ready ring for an instruction that waits for nobody. */
    method FinishEntry(b: nat) returns (overflow: bool)
      requires Rings() && Scheduling(State(), open, b, 0, 0)
      modifies this`entries, this`entered, rte1, rte1.slots
      ensures Valid() && !overflow && State() == Scheduled(old(State()), b)
    {
      ghost var s := State();
      ghost var s2 := Scheduled(s, b);
      FinishTo(s, open, b, s2);
      ReadyHasRoom(s2, open, b);
      overflow := false;
      var e := entries[b];
      entries := entries[b := e.(scheduled := if e.isMem then INFLIGHT else COMPLETED, regReady := e.numDep == 0)];
      if !e.isMem && e.numDep == 0 {
        overflow := rte1.Push(b);
        entered := entered[b := entered[b] + 1];
      }
      assert State() == s2;
    }

    // ---- execution ----

    /**
     * The instruction at the head of the first ring starts to execute; all youngest older writers of
     * its source registers have completed.
     */
    method ExecuteNext0() returns (i: nat)
      requires Valid()
      modifies this`entries, rte0, rte0.slots
      ensures Valid() && (i == n <==> old(rte0.contents) == [])
      ensures i == n ==> entries == old(entries) && rte0.contents == []
      ensures i < n ==> i == old(rte0.contents)[0] && rte0.contents == old(rte0.contents)[1..]
      ensures i < n ==> Live(old(State()), i) && old(entries)[i].executed == 0
                        && entries == old(entries)[i := old(entries)[i].(executed := INFLIGHT)]
      ensures i < n ==> forall j: nat, w: nat :: j < k && Youngest(old(State()), i, old(entries)[i].src[j], w) ==>
                old(entries)[w].executed == COMPLETED
    {
      i := rte0.Peek();
      if i < n {
        ghost var s := State();
        Start0Keeps(s, open);
        forall j: nat, w: nat | j < k && Youngest(s, i, s.ent[i].src[j], w)
          ensures s.ent[w].executed == COMPLETED
        {
          ReadyMeansWritten(s, open, i, j, w);
        }
        entries := entries[i := entries[i].(executed := INFLIGHT)];
        rte0.Pop();
        assert State() == Start0(s);
      } else {
        i := n;
      }
    }

    method ExecuteNext1() returns (i: nat)
      requires Valid()
      modifies this`entries, rte1, rte1.slots
      ensures Valid() && (i == n <==> old(rte1.contents) == [])
      ensures i == n ==> entries == old(entries) && rte1.contents == []
      ensures i < n ==> i == old(rte1.contents)[0] && rte1.contents == old(rte1.contents)[1..]
      ensures i < n ==> Live(old(State()), i) && old(entries)[i].executed == 0
                        && entries == old(entries)[i := old(entries)[i].(executed := INFLIGHT)]
      ensures i < n ==> forall j: nat, w: nat :: j < k && Youngest(old(State()), i, old(entries)[i].src[j], w) ==>
                old(entries)[w].executed == COMPLETED
    {
      i := rte1.Peek();
      if i < n {
        ghost var s := State();
        Start1Keeps(s, open);
        forall j: nat, w: nat | j < k && Youngest(s, i, s.ent[i].src[j], w)
          ensures s.ent[w].executed == COMPLETED
        {
          ReadyMeansWritten(s, open, i, j, w);
        }
        entries := entries[i := entries[i].(executed := INFLIGHT)];
        rte1.Pop();
        assert State() == Start1(s);
      } else {
        i := n;
      }
    }

    /** A memory instruction with ready registers is sent off. */
    method StartMemory(b: nat)
      requires Valid() && Live(State(), b) && entries[b].isMem && entries[b].scheduled == INFLIGHT && entries[b].regReady
      requires entries[b].executed == 0
      modifies this`entries
      ensures Valid() && entries == old(entries)[b := old(entries)[b].(scheduled := COMPLETED, executed := INFLIGHT)]
      ensures forall j: nat, w: nat :: j < k && Youngest(old(State()), b, old(entries)[b].src[j], w) ==>
                old(entries)[w].executed == COMPLETED
    {
      ghost var s := State();
      StartMemKeeps(s, open, b);
      assert StatusOk(s, b, n);
      forall j: nat, w: nat | j < k && Youngest(s, b, s.ent[b].src[j], w)
        ensures s.ent[w].executed == COMPLETED
      {
        ReadyMeansWritten(s, open, b, j, w);
      }
      entries := entries[b := entries[b].(scheduled := COMPLETED, executed := INFLIGHT)];
      assert State() == MemStarted(s, b);
    }

    // ---- completion ----

    /** One dependent source register is released; the last one wakes the consumer. */
    method ReleaseLink(i: nat, ghost p: nat, ghost j: nat) returns (overflow: bool)
      requires Rings() && Releasing(State(), open, p) && Link(p, i, j) in open
      modifies this`entries, this`entered, this`open, rte0, rte0.slots
      ensures Rings() && Releasing(State(), open, p) && !overflow && OnlyWoken(old(State()), State())
      ensures open == old(open) - {Link(p, i, j)} && entries[p] == old(entries)[p]
    {
      ReleaseTo(State(), open, p, Link(p, i, j));
      hide Releasing, OnlyWoken, WokenAt;
      overflow := LowerCount(i);
      open := open - {Link(p, i, j)};
    }

    /** The consumer's fields, and its place in the ring when nothing is left to wait for. */
    method LowerCount(i: nat) returns (overflow: bool)
      requires Rings() && Shape(State()) && i < n && entries[i].numDep > 0
      requires entries[i].numDep == 1 && !entries[i].isMem ==> |rte0.contents| < n
      modifies this`entries, this`entered, rte0, rte0.slots
      ensures Rings() && !overflow && State() == Released(old(State()), i)
    {
      overflow := false;
      var e := entries[i];
      if e.numDep > 1 {
        entries := entries[i := e.(numDep := e.numDep - 1)];
      } else {
        entries := entries[i := e.(numDep := 0, regReady := true, scheduled := if e.isMem then INFLIGHT else COMPLETED)];
        if !e.isMem {
          overflow := rte0.Push(i);
          entered := entered[i := entered[i] + 1];
        }
      }
    }

    /** All links of a completed producer are released, consumer by consumer, in any order. */
    method RegRawRelease(p: nat) returns (overflow: bool)
      requires Rings() && Releasing(State(), open, p)
      requires forall l: Link :: Linked(State(), l) && l.p == p ==> l in open
      modifies this`entries, this`entered, this`open, rte0, rte0.slots
      ensures Valid() && !overflow && OnlyWoken(old(State()), State())
    {
      ghost var s := State();
      OnlyWokenSame(s);
      overflow := false;
      var rest := entries[p].dependents;
      while rest != {}
        invariant Rings() && Releasing(State(), open, p) && entries[p] == old(entries)[p] && !overflow
        invariant rest <= entries[p].dependents && OpenFrom(p, rest) && OnlyWoken(s, State())
        decreases rest
      {
        var i :| i in rest;
        ghost var q := State();
        overflow := ReleaseConsumer(i, p, rest);
        OnlyWokenTrans(s, q, State());
        rest := rest - {i};
      }
      forall l: Link
        ensures l in open ==> l.p != p
      {
        assert l in open && l.p == p ==> l.i in rest;
      }
      EndRelease(State(), open, p);
    }

    /** The open links of p are exactly those to consumers in rest. */
    ghost predicate OpenFrom(p: nat, rest: set<nat>)
      requires p < |entries|
      reads this, rte0, rte1
    {
      && (forall l: Link :: l in open && l.p == p ==> l.i in rest)
      && forall i: nat, j: nat :: i in rest && j < k && j < |entries[p].byIndex| && i in entries[p].byIndex[j] ==> Link(p, i, j) in open
    }

    method ReleaseConsumer(i: nat, p: nat, ghost rest: set<nat>) returns (overflow: bool)
      requires Rings() && Releasing(State(), open, p) && i in rest && OpenFrom(p, rest)
      modifies this`entries, this`entered, this`open, rte0, rte0.slots
      ensures Rings() && Releasing(State(), open, p) && entries[p] == old(entries)[p] && !overflow
      ensures OpenFrom(p, rest - {i}) && OnlyWoken(old(State()), State())
    {
      ghost var s := State();
      OnlyWokenSame(s);
      hide OnlyWoken;
      overflow := false;
      for j := 0 to k
        invariant Rings() && Releasing(State(), open, p) && entries[p] == old(entries)[p] && !overflow && OnlyWoken(s, State())
        invariant forall l: Link :: l in open && l.p == p ==> l.i in rest && (l.i == i ==> l.j >= j)
        invariant forall x: nat, y: nat :: x in rest && y < k && (x == i ==> y >= j) && x in entries[p].byIndex[y] ==>
                    Link(p, x, y) in open
      {
        if i in entries[p].byIndex[j] {
          ghost var q := State();
          overflow := ReleaseLink(i, p, j);
          OnlyWokenTrans(s, q, State());
        }
      }
    }

    /** An executing instruction whose accesses and latency are over completes and wakes those that
        waited for it alone; `memOps` counts its memory accesses still on their way. */
    method CompleteExecution(p: nat, memOps: nat, event: nat, now: nat) returns (overflow: bool)
      requires Valid() && Live(State(), p)
      modifies this`entries, this`entered, this`open, rte0, rte0.slots
      ensures Valid() && !overflow && |entries| == n
      ensures entries[p].executed == COMPLETED <==>
                || old(entries)[p].executed == COMPLETED
                || (old(entries)[p].executed == INFLIGHT && event <= now && (old(entries)[p].isMem ==> memOps == 0))
      ensures entries[p].executed == old(entries)[p].executed ==> entries == old(entries) && rte0.contents == old(rte0.contents)
      ensures entries[p].executed != old(entries)[p].executed ==>
                OnlyWoken(Completed(old(State()), p), State()) && entries[p] == old(entries)[p].(executed := COMPLETED)
      ensures forall i: nat :: i < n && i != p ==>
                && (entries[i].numDep == old(entries)[i].numDep ==> entries[i] == old(entries)[i])
                && (entries[i].numDep != old(entries)[i].numDep && entries[i].numDep > 0 ==>
                      entries[i] == old(entries)[i].(numDep := entries[i].numDep))
                && (entries[i].numDep != old(entries)[i].numDep && entries[i].numDep == 0 ==>
                      entries[i] == old(entries)[i].(numDep := 0, regReady := true,
                                                     scheduled := if old(entries)[i].isMem then INFLIGHT else COMPLETED))
      ensures forall i: nat :: entries[p].executed != old(entries)[p].executed && Live(State(), i) ==>
                && entries[i].numDep == old(entries)[i].numDep - |Waits(old(State()), p, i)|
                && (i in rte0.contents <==> i in old(rte0.contents)
                                            || (Waits(old(State()), p, i) != {} && entries[i].numDep == 0 && !entries[i].isMem))
      ensures forall i: nat, j: nat :: old(entries)[p].isMem && memOps > 0 && old(entries)[p].executed != COMPLETED
                                       && Linked(State(), Link(p, i, j)) ==>
                i < n && entries[i].numDep == old(entries)[i].numDep > 0 && !Queued(State(), i)
    {
      overflow := false;
      ghost var s, open0 := State(), open;
      if !entries[p].isMem {
        if entries[p].executed == INFLIGHT && event <= now {
          overflow := Complete(p);
        }
      } else if memOps == 0 {
        if entries[p].executed == INFLIGHT && event <= now {
          overflow := Complete(p);
        }
      }
      forall i: nat, j: nat | s.ent[p].isMem && memOps > 0 && s.ent[p].executed != COMPLETED && Linked(s, Link(p, i, j))
        ensures i < n && s.ent[i].numDep > 0 && !Queued(s, i)
      {
        StillWaits(s, open0, Link(p, i, j));
      }
    }

    /** The instruction completes, and its links are released. */
    method Complete(p: nat) returns (overflow: bool)
      requires Valid() && Live(State(), p) && entries[p].executed == INFLIGHT
      modifies this`entries, this`entered, this`open, rte0, rte0.slots
      ensures Valid() && !overflow && OnlyWoken(Completed(old(State()), p), State())
      ensures entries[p] == old(entries)[p].(executed := COMPLETED)
      ensures forall i: nat :: i < n && i != p ==> ChangedAt(old(entries)[i], entries[i])
      ensures forall i: nat :: Live(State(), i) ==>
                && entries[i].numDep == old(entries)[i].numDep - |Waits(old(State()), p, i)|
                && (i in rte0.contents <==> i in old(rte0.contents)
                                            || (Waits(old(State()), p, i) != {} && entries[i].numDep == 0 && !entries[i].isMem))
    {
      ghost var s, open0 := State(), open;
      BeginRelease(s, open, p);
      entries := entries[p := entries[p].(executed := COMPLETED)];
      assert State() == Completed(s, p);
      overflow := RegRawRelease(p);
      forall i: nat | Live(State(), i)
        ensures entries[i].numDep == s.ent[i].numDep - |Waits(s, p, i)|
        ensures i in rte0.contents <==> i in s.q0 || (Waits(s, p, i) != {} && entries[i].numDep == 0 && !s.ent[i].isMem)
        ensures entries[i].isMem == s.ent[i].isMem
      {
        WokenCounts(s, open0, State(), open, p, i);
        assert WokenAt(Completed(s, p).ent[i], entries[i]);
      }
      forall i: nat | i < n && i != p
        ensures ChangedAt(s.ent[i], entries[i])
      {
        WokenFields(s, State(), p, i);
      }
      WokenFields(s, State(), p, p);
    }

    // ---- retirement ----

    /** In order: the oldest instruction leaves once it has completed, its latency is over and the
        first-level write queue has room for all its stores. */
    method RetireOne(event: nat, now: nat, stores: nat, wqOccupancy: nat, wqSize: nat) returns (retired: bool)
      requires Valid()
      modifies this`entries, this`head, this`occupancy, this`entered
      ensures Valid()
      ensures retired <==> old(occupancy) > 0 && old(entries)[old(head)].executed == COMPLETED
                           && event <= now && (stores > 0 ==> wqOccupancy + stores <= wqSize)
      ensures !retired ==> State() == old(State())
      ensures retired ==> entries == old(entries)[old(head) := EmptyEntry(k)] && IsNew(EmptyEntry(k), k)
      ensures retired ==> head == (if old(head) + 1 == n then 0 else old(head) + 1) && occupancy == old(occupancy) - 1
    {
      retired := false;
      if occupancy > 0 && entries[head].executed == COMPLETED && event <= now {
        if stores == 0 || wqOccupancy + stores <= wqSize {
          ghost var s := State();
          RetireKeeps(s, open, EmptyEntry(k));
          entries := entries[head := EmptyEntry(k)];
          entered := entered[head := 0];
          head := head + 1;
          if head == n {
            head := 0;
          }
          occupancy := occupancy - 1;
          retired := true;
          assert State() == Retired(s, EmptyEntry(k));
        }
      }
    }
  }
}
