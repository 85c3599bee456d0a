/**
 * Register dependence in the reorder buffer: the ring of entries, the links from producers to the
 * consumers waiting for them, and what every step of scheduling, execution and retirement keeps.
 */
module RobState {

  const INFLIGHT: nat := 1
  const COMPLETED: nat := 2

  datatype Entry = Entry(
    isMem: bool, src: seq<nat>, dst: seq<nat>, scheduled: nat, executed: nat, regReady: bool, numDep: nat,
    checked: seq<bool>, dependents: set<nat>, byIndex: seq<set<nat>>)

  /** Consumer i waits for producer p to deliver its j-th source register. */
  datatype Link = Link(p: nat, i: nat, j: nat)

  /**
   * The ring of n entries from head on, the two queues of instructions ready to execute, and how
   * often each instruction in the ring has entered one of them.
   */
  datatype Rob = Rob(n: nat, k: nat, head: nat, occ: nat, ent: seq<Entry>, q0: seq<nat>, q1: seq<nat>, entered: seq<nat>)

  ghost predicate Shape(s: Rob) {
    && s.head < s.n && s.occ <= s.n && |s.ent| == s.n && |s.entered| == s.n
    && forall i: nat :: i < s.n ==> Sized(s.ent[i], s.k)
  }

  ghost predicate Sized(e: Entry, k: nat) { |e.src| == k && |e.checked| == k && |e.byIndex| == k }

  /** How many entries are older. */
  function Age(s: Rob, i: nat): int {
    if i >= s.head then i - s.head else i + s.n - s.head
  }

  /** The entry of a given age. */
  function AtAge(s: Rob, a: nat): nat {
    if s.head + a < s.n then s.head + a else s.head + a - s.n
  }

  ghost predicate Live(s: Rob, i: nat) { i < s.n && Age(s, i) < s.occ }

  ghost predicate Older(s: Rob, p: nat, i: nat) { Live(s, p) && Live(s, i) && Age(s, p) < Age(s, i) }

  ghost predicate Writes(e: Entry, r: nat) { r != 0 && r in e.dst }

  /** w is the youngest instruction older than i that writes register r. */
  ghost predicate Youngest(s: Rob, i: nat, r: nat, w: nat)
    requires Shape(s)
  {
    && Older(s, w, i) && Writes(s.ent[w], r)
    && forall p: nat :: Older(s, p, i) && Writes(s.ent[p], r) ==> Age(s, p) <= Age(s, w)
  }

  ghost predicate Linked(s: Rob, l: Link)
    requires Shape(s)
  {
    Live(s, l.p) && l.j < s.k && l.i in s.ent[l.p].byIndex[l.j]
  }

  ghost function To(open: set<Link>, i: nat): set<Link> { set l | l in open && l.i == i }

  ghost predicate Queued(s: Rob, i: nat) { i in s.q0 || i in s.q1 }

  // ---- the invariant; b is the entry being scheduled (n if none), its older entries checked from age a on ----

  ghost predicate LinkOk(s: Rob, l: Link, b: nat)
    requires Shape(s)
  {
    Linked(s, l) ==>
      && Older(s, l.p, l.i) && (s.ent[l.i].scheduled != 0 || l.i == b)
      && s.ent[l.i].checked[l.j] && Writes(s.ent[l.p], s.ent[l.i].src[l.j])
  }

  ghost predicate StatusOk(s: Rob, i: nat, b: nat)
    requires Shape(s) && i < s.n
  {
    var e := s.ent[i];
    if e.scheduled == 0 then
      && e.executed == 0 && s.entered[i] == 0 && !Queued(s, i)
      && (i != b ==> e.numDep == 0 && forall j :: 0 <= j < s.k ==> !e.checked[j])
    else
      && i != b
      && (e.regReady <==> e.numDep == 0) && (e.executed != 0 ==> e.numDep == 0)
      && (Queued(s, i) <==> !e.isMem && e.numDep == 0 && e.executed == 0)
      && s.entered[i] == if !e.isMem && e.numDep == 0 then 1 else 0
  }

  ghost predicate WriterOk(s: Rob, open: set<Link>, i: nat, j: nat, w: nat, b: nat, a: int)
    requires Shape(s)
  {
    Live(s, i) && j < s.k && Youngest(s, i, s.ent[i].src[j], w) && (s.ent[i].scheduled != 0 || (i == b && Age(s, w) >= a)) ==>
      s.ent[w].executed == COMPLETED || Link(w, i, j) in open
  }

  ghost predicate QueuesOk(s: Rob)
    requires Shape(s)
  {
    && (forall x, y :: 0 <= x < y < |s.q0| ==> s.q0[x] != s.q0[y])
    && (forall x, y :: 0 <= x < y < |s.q1| ==> s.q1[x] != s.q1[y])
    && (forall i :: i in s.q0 ==> i !in s.q1)
    && (forall i :: i in s.q0 || i in s.q1 ==> Live(s, i))
  }

  /** Links lead from older writers to the consumers of what they write, at most one for each source. */
  ghost predicate LinksOk(s: Rob, open: set<Link>, b: nat)
    requires Shape(s)
  {
    && (forall l: Link :: LinkOk(s, l, b))
    && (forall l: Link, m: Link :: Linked(s, l) && Linked(s, m) && l.i == m.i && l.j == m.j ==> l.p == m.p)
    && (forall l :: l in open ==> Linked(s, l))
    && (forall p: nat, i: nat :: Live(s, p) ==> (i in s.ent[p].dependents <==> Depends(s, p, i)))
  }

  ghost predicate StatusesOk(s: Rob, open: set<Link>, b: nat)
    requires Shape(s)
  {
    forall i: nat :: Live(s, i) ==> StatusOk(s, i, b) && s.ent[i].numDep == |To(open, i)|
  }

  ghost predicate WritersOk(s: Rob, open: set<Link>, b: nat, a: int)
    requires Shape(s)
  {
    forall i: nat, j: nat, w: nat :: WriterOk(s, open, i, j, w, b, a)
  }

  ghost predicate Core(s: Rob, open: set<Link>, b: nat, a: int) {
    Shape(s) && QueuesOk(s) && LinksOk(s, open, b) && StatusesOk(s, open, b) && WritersOk(s, open, b, a)
  }

  ghost predicate Depends(s: Rob, p: nat, i: nat)
    requires Shape(s) && p < s.n
  {
    exists j: nat :: j < s.k && i in s.ent[p].byIndex[j]
  }

  /** Between steps the open links are those of producers that have not completed. */
  ghost predicate Inv(s: Rob, open: set<Link>) {
    && Core(s, open, s.n, 0)
    && forall l: Link :: l in open <==> Linked(s, l) && s.ent[l.p].executed != COMPLETED
  }

  /** What the links are for: whoever is ready has all its youngest older writers completed. */
  lemma ReadyMeansWritten(s: Rob, open: set<Link>, i: nat, j: nat, w: nat)
    requires Inv(s, open) && Live(s, i) && s.ent[i].scheduled != 0 && s.ent[i].numDep == 0
    requires j < s.k && Youngest(s, i, s.ent[i].src[j], w)
    ensures s.ent[w].executed == COMPLETED
  {
    assert WriterOk(s, open, i, j, w, s.n, 0);
    assert Link(w, i, j) in open ==> Link(w, i, j) in To(open, i);
  }

  /** The counter is the number of source links whose producer has not completed. */
  lemma CounterIsOutstanding(s: Rob, open: set<Link>, i: nat, mine: set<Link>)
    requires Inv(s, open) && Live(s, i)
    requires forall l: Link :: l in mine <==> l.i == i && Linked(s, l) && s.ent[l.p].executed != COMPLETED
    ensures s.ent[i].numDep == |mine|
  {
    assert mine == To(open, i);
  }

  /** A consumer linked to a producer that has not completed counts it and is in no queue. */
  lemma StillWaits(s: Rob, open: set<Link>, l: Link)
    requires Inv(s, open) && Linked(s, l) && s.ent[l.p].executed != COMPLETED
    ensures Live(s, l.i) && s.ent[l.i].numDep > 0 && !Queued(s, l.i)
  {
    assert LinkOk(s, l, s.n) && l in To(open, l.i);
    assert StatusOk(s, l.i, s.n);
  }

  /** By the time it executes an instruction that is no memory access has entered a ready queue once. */
  lemma EnteredOnce(s: Rob, open: set<Link>, i: nat)
    requires Inv(s, open) && Live(s, i) && !s.ent[i].isMem
    ensures s.entered[i] == if s.ent[i].scheduled != 0 && s.ent[i].numDep == 0 then 1 else 0
    ensures Queued(s, i) || s.ent[i].executed != 0 ==> s.entered[i] == 1
  {
    assert StatusOk(s, i, s.n);
  }

  // ---- scheduling: links are made from the youngest older entry to the oldest ----

  ghost predicate AllOpen(s: Rob, open: set<Link>)
    requires Shape(s)
  {
    forall l: Link :: l in open <==> Linked(s, l) && s.ent[l.p].executed != COMPLETED
  }

  ghost predicate CheckedFrom(s: Rob, b: nat, j: nat, a: int)
    requires Shape(s)
  {
    exists q: nat :: Linked(s, Link(q, b, j)) && Age(s, q) >= a
  }

  /** Entry b is being scheduled, and the writers among its older entries down to age a are known. */
  ghost predicate Linking(s: Rob, open: set<Link>, b: nat, a: int) {
    Core(s, open, b, a) && AllOpen(s, open) && Live(s, b) && s.ent[b].scheduled == 0
  }

  /** A source register is checked only if a link to an entry at or above the age c was made for it. */
  ghost predicate Scheduling(s: Rob, open: set<Link>, b: nat, a: int, c: int) {
    && Linking(s, open, b, a)
    && forall j: nat :: j < s.k && s.ent[b].checked[j] ==> CheckedFrom(s, b, j, c)
  }

  lemma BeginSchedule(s: Rob, open: set<Link>, b: nat)
    requires Inv(s, open) && Live(s, b) && s.ent[b].scheduled == 0
    ensures Scheduling(s, open, b, Age(s, b), Age(s, b))
  {
    forall i: nat, j: nat, w: nat
      ensures WriterOk(s, open, i, j, w, b, Age(s, b))
    {
      assert WriterOk(s, open, i, j, w, s.n, 0);
    }
    forall l: Link
      ensures LinkOk(s, l, b)
    {
      assert LinkOk(s, l, s.n);
    }
    assert StatusOk(s, b, s.n);
    forall i: nat | Live(s, i)
      ensures StatusOk(s, i, b)
    {
      assert StatusOk(s, i, s.n);
    }
  }

  /** The entries after consumer b has been linked to producer p for source register j. */
  ghost function LinkOne(s: Rob, b: nat, p: nat, j: nat): Rob
    requires Shape(s) && b < s.n && p < s.n && j < s.k
  {
    var pe := s.ent[p].(byIndex := s.ent[p].byIndex[j := s.ent[p].byIndex[j] + {b}], dependents := s.ent[p].dependents + {b});
    var ent := s.ent[p := pe];
    s.(ent := ent[b := ent[b].(numDep := ent[b].numDep + 1, regReady := false, checked := ent[b].checked[j := true])])
  }

  // ---- exactly which links scheduling makes ----

  /** p is the youngest entry older than b that writes register r and has not completed. */
  ghost predicate YoungestOpen(s: Rob, b: nat, r: nat, p: nat)
    requires Shape(s)
  {
    && OpenWriter(s, b, r, p)
    && forall q: nat :: OpenWriter(s, b, r, q) ==> Age(s, q) <= Age(s, p)
  }

  ghost predicate OpenWriter(s: Rob, b: nat, r: nat, p: nat)
    requires Shape(s)
  {
    Older(s, p, b) && Writes(s.ent[p], r) && s.ent[p].executed != COMPLETED
  }

  /** One that has been looked at when the sweep has come down to age a. */
  ghost predicate SeenWriter(s: Rob, b: nat, r: nat, a: int, p: nat)
    requires Shape(s)
  {
    Age(s, p) >= a && YoungestOpen(s, b, r, p)
  }

  /** Source register j of b is linked to what was seen of its youngest open writer in s0, and to nothing else. */
  ghost predicate RowIs(s0: Rob, s: Rob, b: nat, a: int, j: nat)
    requires Shape(s0) && Shape(s) && b < s0.n && b < s.n && j < s0.k && j < s.k
  {
    && (forall p: nat :: Linked(s, Link(p, b, j)) <==> SeenWriter(s0, b, s0.ent[b].src[j], a, p))
    && (s.ent[b].checked[j] <==> exists p: nat :: SeenWriter(s0, b, s0.ent[b].src[j], a, p))
  }

  /** Entry i differs at most in links to b, and in the scheduling fields if it is b itself. */
  ghost predicate OnlyLinksAt(e: Entry, e': Entry, i: nat, b: nat) {
    && e'.isMem == e.isMem && e'.src == e.src && e'.dst == e.dst && e'.scheduled == e.scheduled && e'.executed == e.executed
    && (i != b ==> e'.regReady == e.regReady && e'.numDep == e.numDep && e'.checked == e.checked)
    && e'.dependents - {b} == e.dependents - {b} && |e'.byIndex| == |e.byIndex|
    && forall j :: 0 <= j < |e.byIndex| ==> e'.byIndex[j] - {b} == e.byIndex[j] - {b}
  }

  ghost predicate OnlyLinks(s0: Rob, s: Rob, b: nat) {
    && Shape(s0) && Shape(s) && s == s0.(ent := s.ent) && b < s.n
    && forall i: nat :: i < s.n ==> OnlyLinksAt(s0.ent[i], s.ent[i], i, b)
  }

  /** The sweep from b down to age a, as it is seen from its start s0. */
  ghost predicate Swept(s0: Rob, s: Rob, b: nat, a: int) {
    OnlyLinks(s0, s, b) && forall j: nat :: j < s.k ==> RowIs(s0, s, b, a, j)
  }

  lemma NothingSwept(s: Rob, open: set<Link>, b: nat)
    requires Inv(s, open) && Live(s, b) && s.ent[b].scheduled == 0
    ensures Swept(s, s, b, Age(s, b))
  {
    assert StatusOk(s, b, s.n);
    forall j: nat | j < s.k
      ensures RowIs(s, s, b, Age(s, b), j)
    {
      forall p: nat
        ensures !Linked(s, Link(p, b, j))
      {
        assert LinkOk(s, Link(p, b, j), s.n);
      }
    }
  }

  /** Source register j of b is linked to p if it is still open and p writes it. */
  ghost function LinkSource(s: Rob, b: nat, p: nat, j: nat): (r: Rob)
    requires Shape(s) && b < s.n && p < s.n && b != p && j < s.k
    ensures Shape(r) && r == s.(ent := r.ent)
  {
    if !s.ent[b].checked[j] && Writes(s.ent[p], s.ent[b].src[j]) then LinkOne(s, b, p, j) else s
  }

  /** What the loop over the source registers does, up to register j, when it looks at entry p. */
  ghost function LinkSources(s: Rob, b: nat, p: nat, j: nat): (r: Rob)
    requires Shape(s) && b < s.n && p < s.n && b != p && j <= s.k
    ensures Shape(r) && r == s.(ent := r.ent)
  {
    if j == 0 then s else LinkSource(LinkSources(s, b, p, j - 1), b, p, j - 1)
  }

  lemma LinkSourceOnly(s0: Rob, s: Rob, b: nat, p: nat, j: nat)
    requires OnlyLinks(s0, s, b) && p < s.n && b != p && j < s.k
    ensures OnlyLinks(s0, LinkSource(s, b, p, j), b)
  {
    var s' := LinkSource(s, b, p, j);
    forall i: nat | i < s.n
      ensures OnlyLinksAt(s0.ent[i], s'.ent[i], i, b)
    {
      assert OnlyLinksAt(s0.ent[i], s.ent[i], i, b);
    }
  }

  /** Linking source j to p leaves the rows of the other sources alone. */
  lemma LinkOneRows(s0: Rob, s: Rob, b: nat, p: nat, j: nat, a: int, i: nat)
    requires Shape(s0) && Shape(s) && s0.n == s.n && s0.k == s.k && b < s.n && p < s.n && b != p && j < s.k && i < s.k && i != j
    requires RowIs(s0, s, b, a, i)
    ensures Shape(LinkOne(s, b, p, j)) && RowIs(s0, LinkOne(s, b, p, j), b, a, i)
  {
    var s' := LinkOne(s, b, p, j);
    forall q: nat
      ensures Linked(s', Link(q, b, i)) <==> Linked(s, Link(q, b, i))
    {
    }
  }

  /** Looking at entry p for source j takes its row one age down. */
  lemma RowDown(s0: Rob, s: Rob, b: nat, p: nat, j: nat, a: int)
    requires OnlyLinks(s0, s, b) && Older(s0, p, b) && Age(s0, p) == a - 1 && j < s.k && RowIs(s0, s, b, a, j)
    requires s0.ent[p].executed != COMPLETED
    ensures RowIs(s0, LinkSource(s, b, p, j), b, a - 1, j)
  {
    var r := s0.ent[b].src[j];
    assert OnlyLinksAt(s0.ent[p], s.ent[p], p, b) && OnlyLinksAt(s0.ent[b], s.ent[b], b, b);
    var now, c := !s.ent[b].checked[j] && Writes(s.ent[p], r), a - 1;
    forall q: nat
      ensures SeenWriter(s0, b, r, c, q) <==> SeenWriter(s0, b, r, a, q) || (now && q == p)
    {
      SeenDown(s0, b, r, a, p, q);
    }
    if now {
      LinkedIfOne(s, b, p, j);
      assert SeenWriter(s0, b, r, c, p);
    }
  }

  lemma LinkedIfOne(s: Rob, b: nat, p: nat, j: nat)
    requires Shape(s) && Live(s, b) && Live(s, p) && b != p && j < s.k
    ensures Shape(LinkOne(s, b, p, j)) && LinkOne(s, b, p, j).ent[b].checked[j]
    ensures forall q: nat :: Linked(LinkOne(s, b, p, j), Link(q, b, j)) <==> Linked(s, Link(q, b, j)) || q == p
  {
  }

  lemma SameAge(s: Rob, p: nat, q: nat)
    requires p < s.n && q < s.n && s.head < s.n && Age(s, p) == Age(s, q)
    ensures p == q
  {
  }

  /** At the next lower age p is the youngest open writer if it is one and none was seen before. */
  lemma SeenDown(s: Rob, b: nat, r: nat, a: int, p: nat, q: nat)
    requires Shape(s) && Older(s, p, b) && Age(s, p) == a - 1 && s.ent[p].executed != COMPLETED
    ensures SeenWriter(s, b, r, a - 1, q) <==>
              SeenWriter(s, b, r, a, q) || (q == p && Writes(s.ent[p], r) && forall x: nat :: !SeenWriter(s, b, r, a, x))
  {
    if SeenWriter(s, b, r, a - 1, q) && !SeenWriter(s, b, r, a, q) {
      SameAge(s, p, q);
    }
    if q == p && Writes(s.ent[p], r) && forall x: nat :: !SeenWriter(s, b, r, a, x) {
      NoneYounger(s, b, r, a);
      forall x: nat | OpenWriter(s, b, r, x)
        ensures Age(s, x) <= Age(s, p)
      {
      }
    }
  }

  /** If no youngest open writer has been seen, no open writer has. */
  lemma NoneYounger(s: Rob, b: nat, r: nat, a: int)
    requires Shape(s) && forall x: nat :: !SeenWriter(s, b, r, a, x)
    ensures forall x: nat :: OpenWriter(s, b, r, x) ==> Age(s, x) < a
  {
    forall x: nat | OpenWriter(s, b, r, x)
      ensures Age(s, x) < a
    {
      var y := SomeYoungest(s, b, r, x);
      assert !SeenWriter(s, b, r, a, y);
    }
  }

  lemma SomeYoungest(s: Rob, b: nat, r: nat, x: nat) returns (y: nat)
    requires Shape(s) && OpenWriter(s, b, r, x)
    ensures YoungestOpen(s, b, r, y) && Age(s, y) >= Age(s, x)
    decreases s.n - Age(s, x)
  {
    if q: nat :| OpenWriter(s, b, r, q) && Age(s, q) > Age(s, x) {
      y := SomeYoungest(s, b, r, q);
    } else {
      y := x;
    }
  }

  /** Sources below j have been looked up in the entry of age a - 1, the others not yet. */
  ghost predicate RowHalf(s0: Rob, s: Rob, b: nat, a: int, j: nat, i: nat)
    requires Shape(s0) && Shape(s) && b < s0.n && b < s.n && i < s0.k && i < s.k
  {
    RowIs(s0, s, b, if i < j then a - 1 else a, i)
  }

  lemma NextRow(s0: Rob, q: Rob, b: nat, p: nat, a: int, j: nat, i: nat)
    requires OnlyLinks(s0, q, b) && Older(s0, p, b) && Age(s0, p) == a - 1 && s0.ent[p].executed != COMPLETED
    requires j < q.k && i < q.k && RowHalf(s0, q, b, a, j, i)
    ensures RowHalf(s0, LinkSource(q, b, p, j), b, a, j + 1, i)
  {
    if i == j {
      RowDown(s0, q, b, p, j, a);
    } else {
      LinkOneRows(s0, q, b, p, j, if i < j then a - 1 else a, i);
    }
  }

  /** The loop over the source registers changes nothing but links. */
  lemma {:induction false} SourcesOnly(s0: Rob, s: Rob, b: nat, p: nat, j: nat)
    requires Shape(s) && b < s.n && OnlyLinks(s0, s, b) && p < s.n && b != p && j <= s.k
    ensures OnlyLinks(s0, LinkSources(s, b, p, j), b)
    decreases j
  {
    hide OnlyLinks, LinkSource, Shape;
    if j > 0 {
      SourcesOnly(s0, s, b, p, j - 1);
      LinkSourceOnly(s0, LinkSources(s, b, p, j - 1), b, p, j - 1);
    }
  }

  /** All rows, halfway through the sources. */
  ghost predicate RowsHalf(s0: Rob, s: Rob, b: nat, a: int, j: nat)
    requires Shape(s0) && Shape(s) && b < s0.n && b < s.n && s.k == s0.k
  {
    forall i: nat :: i < s.k ==> RowHalf(s0, s, b, a, j, i)
  }

  lemma RowsNext(s0: Rob, q: Rob, b: nat, p: nat, a: int, j: nat)
    requires OnlyLinks(s0, q, b) && Older(s0, p, b) && Age(s0, p) == a - 1 && s0.ent[p].executed != COMPLETED
    requires j < q.k && RowsHalf(s0, q, b, a, j)
    ensures RowsHalf(s0, LinkSource(q, b, p, j), b, a, j + 1)
  {
    hide RowHalf, LinkSource, Age, OnlyLinksAt;
    var s', m := LinkSource(q, b, p, j), j + 1;
    forall i: nat | i < q.k
      ensures RowHalf(s0, s', b, a, m, i)
    {
      NextRow(s0, q, b, p, a, j, i);
    }
  }

  lemma NoneHalf(s0: Rob, s: Rob, b: nat, a: int)
    requires Swept(s0, s, b, a)
    ensures RowsHalf(s0, s, b, a, 0)
  {
    forall i: nat | i < s.k
      ensures RowHalf(s0, s, b, a, 0, i)
    {
      assert RowIs(s0, s, b, a, i);
    }
  }

  /** The loop over the source registers takes their rows one age down. */
  lemma {:induction false} SourcesRows(s0: Rob, s: Rob, b: nat, p: nat, a: int, j: nat)
    requires Shape(s0) && Shape(s) && s0.n == s.n && s0.k == s.k && b < s.n && p < s.n && b != p && j <= s.k
    requires Swept(s0, s, b, a) && Older(s0, p, b) && Age(s0, p) == a - 1 && s0.ent[p].executed != COMPLETED
    ensures RowsHalf(s0, LinkSources(s, b, p, j), b, a, j)
    decreases j
  {
    hide LinkSource, LinkOne, Older, Live, Age, Swept, RowsHalf, OnlyLinks, Shape, Sized;
    SweptOnly(s0, s, b, a);
    if j == 0 {
      NoneHalf(s0, s, b, a);
    } else {
      var q := LinkSources(s, b, p, j - 1);
      SourcesOnly(s0, s, b, p, j - 1);
      SourcesRows(s0, s, b, p, a, j - 1);
      RowsNext(s0, q, b, p, a, j - 1);
    }
  }

  lemma SweptOnly(s0: Rob, s: Rob, b: nat, a: int)
    requires Swept(s0, s, b, a)
    ensures OnlyLinks(s0, s, b)
  {
  }

  /** A completed entry is no open writer. */
  lemma CompletedRow(s0: Rob, s: Rob, b: nat, p: nat, a: int, j: nat)
    requires Shape(s0) && Shape(s) && s0.n == s.n && s0.k == s.k && b < s.n && j < s.k && RowIs(s0, s, b, a, j)
    requires Older(s0, p, b) && Age(s0, p) == a - 1 && s0.ent[p].executed == COMPLETED
    ensures RowIs(s0, s, b, a - 1, j)
  {
    var r, c := s0.ent[b].src[j], a - 1;
    forall q: nat
      ensures SeenWriter(s0, b, r, c, q) <==> SeenWriter(s0, b, r, a, q)
    {
      if SeenWriter(s0, b, r, c, q) && Age(s0, q) == c {
        SameAge(s0, p, q);
      }
    }
  }

  lemma AllHalf(s0: Rob, s: Rob, b: nat, a: int)
    requires OnlyLinks(s0, s, b) && s0.k == s.k && RowsHalf(s0, s, b, a, s.k)
    ensures Swept(s0, s, b, a - 1)
  {
    var c := a - 1;
    forall j: nat | j < s.k
      ensures RowIs(s0, s, b, c, j)
    {
      assert RowHalf(s0, s, b, a, s.k, j);
    }
  }

  lemma CompletedDown(s0: Rob, s: Rob, b: nat, p: nat, a: int)
    requires Swept(s0, s, b, a) && Older(s0, p, b) && Age(s0, p) == a - 1 && s0.ent[p].executed == COMPLETED
    ensures Swept(s0, s, b, a - 1)
  {
    var c := a - 1;
    forall j: nat | j < s.k
      ensures RowIs(s0, s, b, c, j)
    {
      CompletedRow(s0, s, b, p, a, j);
    }
  }

  /** Looking at one older entry, completed or not. */
  lemma SweepDown(s0: Rob, s: Rob, b: nat, p: nat, a: int)
    requires Swept(s0, s, b, a) && Older(s0, p, b) && Age(s0, p) == a - 1
    ensures Swept(s0, if s.ent[p].executed != COMPLETED then LinkSources(s, b, p, s.k) else s, b, a - 1)
  {
    SweptOnly(s0, s, b, a);
    SameProgress(s0, s, b, p);
    assert Shape(s0) && Shape(s) && s0.n == s.n && s0.k == s.k && b < s.n && p < s.n && b != p;
    hide Swept, Older, OnlyLinks, Shape, RowsHalf, LinkSources;
    if s.ent[p].executed != COMPLETED {
      SourcesRows(s0, s, b, p, a, s.k);
      SourcesOnly(s0, s, b, p, s.k);
      AllHalf(s0, LinkSources(s, b, p, s.k), b, a);
    } else {
      CompletedDown(s0, s, b, p, a);
    }
  }

  lemma SameProgress(s0: Rob, s: Rob, b: nat, p: nat)
    requires OnlyLinks(s0, s, b) && p < s.n
    ensures s.ent[p].executed == s0.ent[p].executed
  {
    assert OnlyLinksAt(s0.ent[p], s.ent[p], p, b);
  }

  /** After the sweep each source of b is linked to its youngest open writer, and to nothing else. */
  lemma LinkedIffYoungestOpen(s0: Rob, s: Rob, b: nat, p: nat, j: nat)
    requires Swept(s0, s, b, 0) && j < s.k
    ensures Linked(s, Link(p, b, j)) <==> YoungestOpen(s0, b, s0.ent[b].src[j], p)
  {
    assert RowIs(s0, s, b, 0, j);
    assert Linked(s, Link(p, b, j)) <==> SeenWriter(s0, b, s0.ent[b].src[j], 0, p);
  }

  lemma LinkedAfter(s: Rob, b: nat, p: nat, j: nat, l: Link)
    requires Shape(s) && Live(s, b) && Live(s, p) && b != p && j < s.k
    ensures Shape(LinkOne(s, b, p, j))
    ensures Linked(LinkOne(s, b, p, j), l) <==> Linked(s, l) || l == Link(p, b, j)
  {
  }

  lemma ToAdd(open: set<Link>, l: Link, i: nat)
    requires l !in open
    ensures |To(open + {l}, i)| == |To(open, i)| + if l.i == i then 1 else 0
  {
    if l.i == i {
      assert To(open + {l}, i) == To(open, i) + {l};
    } else {
      assert To(open + {l}, i) == To(open, i);
    }
  }

  lemma ToRemove(open: set<Link>, l: Link, i: nat)
    requires l in open
    ensures |To(open - {l}, i)| == |To(open, i)| - if l.i == i then 1 else 0
  {
    assert open == (open - {l}) + {l};
    ToAdd(open - {l}, l, i);
  }

  lemma LinkKeepsStatus(s: Rob, b: nat, p: nat, j: nat, i: nat)
    requires Shape(s) && Live(s, b) && Live(s, p) && b != p && j < s.k && i < s.n && s.ent[b].scheduled == 0
    requires StatusOk(s, i, b) && Shape(LinkOne(s, b, p, j))
    ensures var s' := LinkOne(s, b, p, j);
            StatusOk(s', i, b) && s'.ent[i].numDep == s.ent[i].numDep + if i == b then 1 else 0
  {
  }

  lemma LinkKeepsCounts(s: Rob, open: set<Link>, b: nat, a: int, p: nat, j: nat)
    requires Linking(s, open, b, a) && Older(s, p, b) && j < s.k
    requires !Linked(s, Link(p, b, j)) && Shape(LinkOne(s, b, p, j))
    ensures var s', open' := LinkOne(s, b, p, j), open + {Link(p, b, j)};
            forall i: nat :: Live(s', i) ==> StatusOk(s', i, b) && s'.ent[i].numDep == |To(open', i)|
  {
    forall i: nat | Live(s, i)
      ensures StatusOk(LinkOne(s, b, p, j), i, b)
      ensures LinkOne(s, b, p, j).ent[i].numDep == |To(open + {Link(p, b, j)}, i)|
    {
      assert StatusOk(s, i, b);
      LinkKeepsStatus(s, b, p, j, i);
      ToAdd(open, Link(p, b, j), i);
    }
  }

  lemma LinkKeepsLink(s: Rob, open: set<Link>, b: nat, a: int, p: nat, j: nat, l: Link)
    requires Linking(s, open, b, a) && Older(s, p, b) && j < s.k
    requires !s.ent[b].checked[j] && Writes(s.ent[p], s.ent[b].src[j]) && Shape(LinkOne(s, b, p, j))
    ensures LinkOk(LinkOne(s, b, p, j), l, b)
    ensures Linked(s, l) ==> l.i != b || l.j != j
  {
    LinkedAfter(s, b, p, j, l);
    assert LinkOk(s, l, b);
  }

  lemma LinkKeepsLinks(s: Rob, open: set<Link>, b: nat, a: int, p: nat, j: nat)
    requires Linking(s, open, b, a) && Older(s, p, b) && j < s.k
    requires !s.ent[b].checked[j] && Writes(s.ent[p], s.ent[b].src[j]) && Shape(LinkOne(s, b, p, j))
    ensures var s' := LinkOne(s, b, p, j);
            && (forall l: Link :: LinkOk(s', l, b))
            && (forall l: Link, m: Link :: Linked(s', l) && Linked(s', m) && l.i == m.i && l.j == m.j ==> l.p == m.p)
  {
    var s' := LinkOne(s, b, p, j);
    forall l: Link
      ensures LinkOk(s', l, b)
    {
      LinkKeepsLink(s, open, b, a, p, j, l);
    }
    forall l: Link, m: Link | Linked(s', l) && Linked(s', m) && l.i == m.i && l.j == m.j
      ensures l.p == m.p
    {
      LinkedAfter(s, b, p, j, l);
      LinkedAfter(s, b, p, j, m);
      LinkKeepsLink(s, open, b, a, p, j, l);
      LinkKeepsLink(s, open, b, a, p, j, m);
    }
  }

  lemma LinkKeepsOpen(s: Rob, open: set<Link>, b: nat, p: nat, j: nat)
    requires Shape(s) && AllOpen(s, open) && Live(s, b) && Live(s, p) && b != p && j < s.k
    requires s.ent[p].executed != COMPLETED && Shape(LinkOne(s, b, p, j))
    ensures AllOpen(LinkOne(s, b, p, j), open + {Link(p, b, j)})
  {
    forall l: Link
      ensures l in open + {Link(p, b, j)} <==>
                Linked(LinkOne(s, b, p, j), l) && LinkOne(s, b, p, j).ent[l.p].executed != COMPLETED
    {
      LinkedAfter(s, b, p, j, l);
    }
  }

  lemma LinkKeepsWriter(s: Rob, open: set<Link>, b: nat, a: int, p: nat, j: nat, i: nat, q: nat, w: nat)
    requires Shape(s) && Live(s, b) && Live(s, p) && b != p && j < s.k && Shape(LinkOne(s, b, p, j))
    requires WriterOk(s, open, i, q, w, b, a)
    ensures WriterOk(LinkOne(s, b, p, j), open + {Link(p, b, j)}, i, q, w, b, a)
  {
    SameYoungest(s, LinkOne(s, b, p, j), i, q, w);
  }

  /** One link keeps everything. */
  lemma LinkKeeps(s: Rob, open: set<Link>, b: nat, a: int, p: nat, j: nat)
    requires Linking(s, open, b, a) && Older(s, p, b) && j < s.k && Age(s, p) < a && s.ent[p].executed != COMPLETED
    requires !s.ent[b].checked[j] && Writes(s.ent[p], s.ent[b].src[j])
    ensures Core(LinkOne(s, b, p, j), open + {Link(p, b, j)}, b, a)
    ensures AllOpen(LinkOne(s, b, p, j), open + {Link(p, b, j)})
  {
    var l := Link(p, b, j);
    LinkedAfter(s, b, p, j, l);
    assert LinkOk(s, l, b);
    LinkKeepsLinks(s, open, b, a, p, j);
    LinkKeepsCounts(s, open, b, a, p, j);
    LinkKeepsOpen(s, open, b, p, j);
    forall i: nat, q: nat, w: nat
      ensures WriterOk(LinkOne(s, b, p, j), open + {l}, i, q, w, b, a)
    {
      assert WriterOk(s, open, i, q, w, b, a);
      LinkKeepsWriter(s, open, b, a, p, j, i, q, w);
    }
    forall q: nat, i: nat | Live(s, q)
      ensures i in LinkOne(s, b, p, j).ent[q].dependents <==> Depends(LinkOne(s, b, p, j), q, i)
    {
      DependsAfter(s, b, p, j, q, i);
    }
  }

  lemma DependsAfter(s: Rob, b: nat, p: nat, j: nat, q: nat, i: nat)
    requires Shape(s) && Live(s, b) && Live(s, p) && b != p && j < s.k && q < s.n && Shape(LinkOne(s, b, p, j))
    ensures Depends(LinkOne(s, b, p, j), q, i) <==> Depends(s, q, i) || (q == p && i == b)
  {
    var s' := LinkOne(s, b, p, j);
    if Depends(s, q, i) {
      var x: nat :| x < s.k && i in s.ent[q].byIndex[x];
      assert i in s'.ent[q].byIndex[x];
    }
    if Depends(s', q, i) {
      var x: nat :| x < s.k && i in s'.ent[q].byIndex[x];
      assert i in s.ent[q].byIndex[x] || (q == p && i == b);
    }
    if q == p && i == b {
      assert i in s'.ent[q].byIndex[j];
    }
  }

  /** Who writes what, and who is older, depends on the ring and the instructions only. */
  ghost predicate SameCode(s: Rob, s': Rob) {
    && Shape(s) && Shape(s') && s'.n == s.n && s'.k == s.k && s'.head == s.head && s'.occ == s.occ
    && forall i: nat :: i < s.n ==> s'.ent[i].src == s.ent[i].src && s'.ent[i].dst == s.ent[i].dst
  }

  lemma SameYoungest(s: Rob, s': Rob, i: nat, j: nat, w: nat)
    requires SameCode(s, s')
    ensures forall p: nat, q: nat :: Older(s', p, q) <==> Older(s, p, q)
    ensures Live(s, i) && j < s.k ==> (Youngest(s', i, s'.ent[i].src[j], w) <==> Youngest(s, i, s.ent[i].src[j], w))
  {
    if Live(s, i) && j < s.k {
      var r := s.ent[i].src[j];
      assert forall p: nat :: Older(s, p, i) ==> (Writes(s'.ent[p], r) <==> Writes(s.ent[p], r));
    }
  }

  lemma CheckedStays(s: Rob, b: nat, p: nat, j: nat, x: nat, c: int)
    requires Shape(s) && Live(s, b) && Live(s, p) && b != p && j < s.k && Shape(LinkOne(s, b, p, j))
    requires if x == j then c <= Age(s, p) else CheckedFrom(s, b, x, c)
    ensures CheckedFrom(LinkOne(s, b, p, j), b, x, c)
  {
    var q: nat := p;
    if x != j {
      q :| Linked(s, Link(q, b, x)) && Age(s, q) >= c;
    }
    LinkedAfter(s, b, p, j, Link(q, b, x));
    assert Linked(LinkOne(s, b, p, j), Link(q, b, x));
  }

  /** The link of one source register, as part of looking at producer p. */
  lemma LinkStep(s: Rob, open: set<Link>, b: nat, p: nat, j: nat)
    requires Older(s, p, b) && Scheduling(s, open, b, Age(s, p) + 1, Age(s, p))
    requires j < s.k && s.ent[p].executed != COMPLETED && !s.ent[b].checked[j] && Writes(s.ent[p], s.ent[b].src[j])
    ensures Scheduling(LinkOne(s, b, p, j), open + {Link(p, b, j)}, b, Age(s, p) + 1, Age(s, p))
  {
    LinkKeeps(s, open, b, Age(s, p) + 1, p, j);
    forall x: nat | x < s.k && LinkOne(s, b, p, j).ent[b].checked[x]
      ensures CheckedFrom(LinkOne(s, b, p, j), b, x, Age(s, p))
    {
      assert x != j ==> s.ent[b].checked[x];
      CheckedStays(s, b, p, j, x, Age(s, p));
    }
  }

  lemma Descend(s: Rob, open: set<Link>, b: nat, p: nat)
    requires Older(s, p, b) && Scheduling(s, open, b, Age(s, p) + 1, Age(s, p) + 1)
    ensures Scheduling(s, open, b, Age(s, p) + 1, Age(s, p))
  {
    forall j: nat | j < s.k && s.ent[b].checked[j]
      ensures CheckedFrom(s, b, j, Age(s, p))
    {
      assert CheckedFrom(s, b, j, Age(s, p) + 1);
    }
  }

  /** Entry p has nothing more to link: it has completed, or what it writes is checked. */
  ghost predicate LookedAt(s: Rob, b: nat, p: nat)
    requires Shape(s) && b < s.n && p < s.n
  {
    s.ent[p].executed == COMPLETED ||
    forall j: nat :: j < s.k ==> s.ent[b].checked[j] || !Writes(s.ent[p], s.ent[b].src[j])
  }

  lemma AgeDone(s: Rob, open: set<Link>, b: nat, p: nat)
    requires Older(s, p, b) && Scheduling(s, open, b, Age(s, p) + 1, Age(s, p)) && LookedAt(s, b, p)
    ensures Scheduling(s, open, b, Age(s, p), Age(s, p))
  {
    forall i: nat, j: nat, w: nat
      ensures WriterOk(s, open, i, j, w, b, Age(s, p))
    {
      assert WriterOk(s, open, i, j, w, b, Age(s, p) + 1);
      if i == b && j < s.k && w < s.n && Age(s, w) == Age(s, p) && Youngest(s, b, s.ent[b].src[j], w) {
        assert w == p;
        if s.ent[p].executed != COMPLETED {
          YoungestIsLinked(s, open, b, p, j);
        }
      }
    }
  }

  lemma YoungestIsLinked(s: Rob, open: set<Link>, b: nat, p: nat, j: nat)
    requires Older(s, p, b) && Scheduling(s, open, b, Age(s, p) + 1, Age(s, p))
    requires j < s.k && Youngest(s, b, s.ent[b].src[j], p) && s.ent[b].checked[j] && s.ent[p].executed != COMPLETED
    ensures Link(p, b, j) in open
  {
    assert CheckedFrom(s, b, j, Age(s, p));
    var q: nat :| Linked(s, Link(q, b, j)) && Age(s, q) >= Age(s, p);
    assert LinkOk(s, Link(q, b, j), b);
    assert q == p;
  }

  /** The scheduled entry, ready at once if nothing was linked. */
  ghost function Scheduled(s: Rob, b: nat): Rob
    requires Shape(s) && b < s.n
  {
    var e := s.ent[b];
    var ready := e.numDep == 0;
    s.(ent := s.ent[b := e.(scheduled := if e.isMem then INFLIGHT else COMPLETED, regReady := ready)],
       q1 := if ready && !e.isMem then s.q1 + [b] else s.q1,
       entered := if ready && !e.isMem then s.entered[b := s.entered[b] + 1] else s.entered)
  }

  /** What scheduling makes of the entry itself. */
  ghost predicate ScheduledAt(e: Entry, e': Entry) {
    && e'.isMem == e.isMem && e'.src == e.src && e'.dst == e.dst && e'.executed == e.executed
    && e'.scheduled == (if e.isMem then INFLIGHT else COMPLETED) && (e'.regReady <==> e'.numDep == 0)
  }

  lemma SweptAndFinished(s: Rob, r: Rob, s': Rob, b: nat)
    requires Swept(s, r, b, 0) && s' == Scheduled(r, b)
    ensures forall p: nat, j: nat :: j < s.k ==> (Linked(s', Link(p, b, j)) <==> YoungestOpen(s, b, s.ent[b].src[j], p))
    ensures forall i: nat :: i < s.n && i != b ==> OnlyLinksAt(s.ent[i], s'.ent[i], i, b)
    ensures ScheduledAt(s.ent[b], s'.ent[b])
  {
    assert OnlyLinksAt(s.ent[b], r.ent[b], b, b);
    forall p: nat, j: nat | j < s.k
      ensures Linked(s', Link(p, b, j)) <==> YoungestOpen(s, b, s.ent[b].src[j], p)
    {
      LinkedIffYoungestOpen(s, r, b, p, j);
      assert Linked(s', Link(p, b, j)) <==> Linked(r, Link(p, b, j));
    }
    forall i: nat | i < s.n && i != b
      ensures OnlyLinksAt(s.ent[i], s'.ent[i], i, b)
    {
      assert OnlyLinksAt(s.ent[i], r.ent[i], i, b);
    }
  }

  /** p is the youngest of all instructions in the ring that write register r and have not completed. */
  ghost predicate LastOpenWriter(s: Rob, r: nat, p: nat)
    requires Shape(s)
  {
    && Live(s, p) && Writes(s.ent[p], r) && s.ent[p].executed != COMPLETED
    && forall q: nat :: Live(s, q) && Writes(s.ent[q], r) && s.ent[q].executed != COMPLETED ==> Age(s, q) <= Age(s, p)
  }

  /** For an instruction that comes in, these are its youngest older writers. */
  lemma LastIsYoungest(s: Rob, q: Rob, e: Entry, b: nat, r: nat, p: nat)
    requires Shape(s) && Shape(q) && b < s.n && q.n == s.n && q.head == s.head && q.ent == s.ent[b := e] && q.occ == s.occ + 1
    requires Live(q, b) && Age(q, b) == s.occ
    ensures YoungestOpen(q, b, r, p) <==> LastOpenWriter(s, r, p)
  {
    forall x: nat
      ensures OpenWriter(q, b, r, x) <==> Live(s, x) && Writes(s.ent[x], r) && s.ent[x].executed != COMPLETED
    {
    }
  }

  /** Changes to one entry's status only. */
  ghost predicate OnlyStatus(s: Rob, s': Rob, b: nat) {
    && SameCode(s, s') && b < s.n
    && (forall i: nat :: i < s.n ==> s'.ent[i].byIndex == s.ent[i].byIndex && s'.ent[i].dependents == s.ent[i].dependents
                                     && s'.ent[i].checked == s.ent[i].checked)
    && (forall i: nat :: i < s.n && i != b ==> s'.ent[i] == s.ent[i] && s'.entered[i] == s.entered[i])
    && (forall i: nat :: i < s.n && i != b ==> (Queued(s', i) <==> Queued(s, i)))
  }

  lemma StatusKeeps(s: Rob, s': Rob, i: nat, b: nat, b': nat)
    requires OnlyStatus(s, s', b) && Live(s, i) && i != b && i != b' && StatusOk(s, i, b')
    ensures forall c: nat :: c != i ==> StatusOk(s', i, c)
  {
  }

  lemma StructureKeeps(s: Rob, s': Rob, b: nat)
    requires OnlyStatus(s, s', b)
    ensures forall l: Link :: Linked(s', l) <==> Linked(s, l)
    ensures forall p: nat, i: nat :: p < s.n ==> (Depends(s', p, i) <==> Depends(s, p, i))
  {
    forall p: nat, i: nat | p < s.n
      ensures Depends(s', p, i) <==> Depends(s, p, i)
    {
      if Depends(s, p, i) {
        var j: nat :| j < s.k && i in s.ent[p].byIndex[j];
        assert i in s'.ent[p].byIndex[j];
      }
      if Depends(s', p, i) {
        var j: nat :| j < s.k && i in s'.ent[p].byIndex[j];
        assert i in s.ent[p].byIndex[j];
      }
    }
  }

  lemma ScheduledQueues(s: Rob, open: set<Link>, b: nat)
    requires Linking(s, open, b, 0)
    ensures OnlyStatus(s, Scheduled(s, b), b) && QueuesOk(Scheduled(s, b)) && StatusOk(Scheduled(s, b), b, s.n)
  {
    var s' := Scheduled(s, b);
    assert StatusOk(s, b, b);
    assert forall i :: i in s'.q1 <==> i in s.q1 || (i == b && |s'.q1| > |s.q1|);
  }

  /** A change of one entry's status keeps the links, if it does not undo its scheduling. */
  lemma LinksStay(s: Rob, s': Rob, open: set<Link>, b: nat, c: nat)
    requires Shape(s) && Shape(s') && LinksOk(s, open, c) && OnlyStatus(s, s', b)
    requires (s.ent[b].scheduled != 0 || c == b) && s'.ent[b].scheduled != 0 && (c == b || c == s.n)
    ensures LinksOk(s', open, s.n)
  {
    StructureKeeps(s, s', b);
    forall l: Link
      ensures LinkOk(s', l, s.n)
    {
      assert LinkOk(s, l, c);
    }
  }

  lemma FinishWriters(s: Rob, open: set<Link>, b: nat)
    requires Core(s, open, b, 0) && Live(s, b) && SameCode(s, Scheduled(s, b))
    ensures WritersOk(Scheduled(s, b), open, s.n, 0)
  {
    var s' := Scheduled(s, b);
    forall i: nat, j: nat, w: nat
      ensures WriterOk(s', open, i, j, w, s.n, 0)
    {
      assert WriterOk(s, open, i, j, w, b, 0);
      SameYoungest(s, s', i, j, w);
    }
  }

  lemma StatusesStay(s: Rob, s': Rob, open: set<Link>, b: nat, c: nat)
    requires Shape(s) && Shape(s') && StatusesOk(s, open, c) && OnlyStatus(s, s', b) && (c == b || c == s.n)
    requires StatusOk(s', b, s.n) && s'.ent[b].numDep == s.ent[b].numDep
    ensures StatusesOk(s', open, s.n)
  {
    hide StatusOk;
    forall i: nat | Live(s', i)
      ensures StatusOk(s', i, s.n) && s'.ent[i].numDep == |To(open, i)|
    {
      if i != b {
        StatusKeeps(s, s', i, b, c);
      }
    }
  }

  /** Scheduling ends: every youngest older writer has completed or is linked. */
  lemma FinishSchedule(s: Rob, open: set<Link>, b: nat, c: int)
    requires Scheduling(s, open, b, 0, c)
    ensures Inv(Scheduled(s, b), open)
  {
    var s' := Scheduled(s, b);
    ScheduledQueues(s, open, b);
    hide QueuesOk, LinkOk, StatusOk, LinksOk, StatusesOk, WritersOk;
    StructureKeeps(s, s', b);
    FinishWriters(s, open, b);
    LinksStay(s, s', open, b, b);
    StatusesStay(s, s', open, b, b);
  }

  // ---- execution ----

  lemma WritersStay(s: Rob, s': Rob, open: set<Link>, b: nat)
    requires Shape(s) && Shape(s') && WritersOk(s, open, s.n, 0) && OnlyStatus(s, s', b)
    requires s'.ent[b].scheduled != 0 <==> s.ent[b].scheduled != 0
    requires s.ent[b].executed == COMPLETED ==> s'.ent[b].executed == COMPLETED
    ensures WritersOk(s', open, s.n, 0)
  {
    forall i: nat, j: nat, w: nat
      ensures WriterOk(s', open, i, j, w, s.n, 0)
    {
      assert WriterOk(s, open, i, j, w, s.n, 0);
      SameYoungest(s, s', i, j, w);
    }
  }

  /** The status of one entry changes; nothing about links does. */
  lemma StatusStep(s: Rob, s': Rob, open: set<Link>, b: nat)
    requires Core(s, open, s.n, 0) && OnlyStatus(s, s', b) && Live(s, b) && QueuesOk(s')
    requires StatusOk(s', b, s.n) && s'.ent[b].numDep == s.ent[b].numDep
    requires s'.ent[b].scheduled != 0 && s.ent[b].scheduled != 0
    requires s.ent[b].executed == COMPLETED ==> s'.ent[b].executed == COMPLETED
    ensures Core(s', open, s.n, 0)
  {
    hide QueuesOk, StatusOk, LinksOk, StatusesOk, WritersOk;
    LinksStay(s, s', open, b, s.n);
    StatusesStay(s, s', open, b, s.n);
    WritersStay(s, s', open, b);
  }

  ghost function Executing(s: Rob, i: nat): Rob
    requires Shape(s) && i < s.n
  {
    s.(ent := s.ent[i := s.ent[i].(executed := INFLIGHT)])
  }

  /** The instruction at the head of the first queue starts to execute. */
  ghost function Start0(s: Rob): Rob
    requires Shape(s) && s.q0 != [] && s.q0[0] < s.n
  {
    Executing(s, s.q0[0]).(q0 := s.q0[1..])
  }

  ghost function Start1(s: Rob): Rob
    requires Shape(s) && s.q1 != [] && s.q1[0] < s.n
  {
    Executing(s, s.q1[0]).(q1 := s.q1[1..])
  }

  lemma Start0Keeps(s: Rob, open: set<Link>)
    requires Inv(s, open) && s.q0 != []
    ensures Live(s, s.q0[0]) && Inv(Start0(s), open)
    ensures s.ent[s.q0[0]].scheduled != 0 && s.ent[s.q0[0]].numDep == 0 && s.ent[s.q0[0]].executed == 0
  {
    var b := s.q0[0];
    assert b in s.q0 && StatusOk(s, b, s.n);
    var s' := Start0(s);
    assert forall i :: i in s.q0 <==> i in s'.q0 || i == b;
    assert b !in s'.q0;
    hide LinksOk, StatusesOk, WritersOk;
    StatusStep(s, s', open, b);
    StructureKeeps(s, s', b);
  }

  lemma Start1Keeps(s: Rob, open: set<Link>)
    requires Inv(s, open) && s.q1 != []
    ensures Live(s, s.q1[0]) && Inv(Start1(s), open)
    ensures s.ent[s.q1[0]].scheduled != 0 && s.ent[s.q1[0]].numDep == 0 && s.ent[s.q1[0]].executed == 0
  {
    var b := s.q1[0];
    assert b in s.q1 && StatusOk(s, b, s.n);
    var s' := Start1(s);
    assert forall i :: i in s.q1 <==> i in s'.q1 || i == b;
    assert b !in s'.q1;
    hide LinksOk, StatusesOk, WritersOk;
    StatusStep(s, s', open, b);
    StructureKeeps(s, s', b);
  }

  /** A memory instruction whose registers are ready starts on its own. */
  lemma StartMemKeeps(s: Rob, open: set<Link>, b: nat)
    requires Inv(s, open) && Live(s, b) && s.ent[b].isMem && s.ent[b].scheduled == INFLIGHT && s.ent[b].regReady
    requires s.ent[b].executed == 0
    ensures Inv(MemStarted(s, b), open)
  {
    assert StatusOk(s, b, s.n);
    StatusStep(s, MemStarted(s, b), open, b);
    StructureKeeps(s, MemStarted(s, b), b);
  }

  ghost function MemStarted(s: Rob, b: nat): Rob
    requires Shape(s) && b < s.n
  {
    s.(ent := s.ent[b := s.ent[b].(scheduled := COMPLETED, executed := INFLIGHT)])
  }

  // ---- completion and release ----

  /** Producer p has completed, and those of its links that are still open are being released. */
  ghost predicate Releasing(s: Rob, open: set<Link>, p: nat) {
    && Core(s, open, s.n, 0) && Live(s, p) && s.ent[p].executed == COMPLETED
    && (forall l: Link :: l in open ==> l.p == p || s.ent[l.p].executed != COMPLETED)
    && (forall l: Link :: Linked(s, l) && s.ent[l.p].executed != COMPLETED ==> l in open)
  }

  ghost function Completed(s: Rob, p: nat): Rob
    requires Shape(s) && p < s.n
  {
    s.(ent := s.ent[p := s.ent[p].(executed := COMPLETED)])
  }

  lemma BeginRelease(s: Rob, open: set<Link>, p: nat)
    requires Inv(s, open) && Live(s, p) && s.ent[p].executed == INFLIGHT
    ensures Releasing(Completed(s, p), open, p)
    ensures forall l: Link :: l in open && l.p == p <==> Linked(s, l) && l.p == p
  {
    assert StatusOk(s, p, s.n);
    StatusStep(s, Completed(s, p), open, p);
    StructureKeeps(s, Completed(s, p), p);
  }

  /** Nothing changes but how many sources entries wait for, and who is ready because of that. */
  ghost predicate OnlyWoken(s: Rob, s': Rob) {
    && SameCode(s, s') && s'.q1 == s.q1 && s.q0 <= s'.q0
    && forall i: nat :: i < s.n ==> WokenAt(s.ent[i], s'.ent[i])
  }

  /** An entry that waits for fewer sources; one that waits for none any more is ready, a memory
      instruction to be sent off and any other to execute. */
  ghost predicate WokenAt(e: Entry, e': Entry) {
    && e'.numDep <= e.numDep
    && if e'.numDep == e.numDep then e' == e
       else if e'.numDep > 0 then e' == e.(numDep := e'.numDep)
       else e' == e.(numDep := 0, regReady := true, scheduled := if e.isMem then INFLIGHT else COMPLETED)
  }

  lemma OnlyWokenTrans(s: Rob, q: Rob, r: Rob)
    requires OnlyWoken(s, q) && OnlyWoken(q, r)
    ensures OnlyWoken(s, r)
  {
    forall i: nat | i < s.n
      ensures WokenAt(s.ent[i], r.ent[i])
    {
      assert WokenAt(s.ent[i], q.ent[i]) && WokenAt(q.ent[i], r.ent[i]);
    }
  }

  lemma OnlyWokenSame(s: Rob)
    requires Shape(s)
    ensures OnlyWoken(s, s)
  {
  }

  lemma ReleasedWakes(s: Rob, i: nat)
    requires Shape(s) && i < s.n && s.ent[i].numDep > 0
    ensures OnlyWoken(s, Released(s, i))
  {
  }

  /** One link is released; the last one makes its consumer ready. */
  ghost function Released(s: Rob, i: nat): Rob
    requires Shape(s) && i < s.n && s.ent[i].numDep > 0
  {
    var e := s.ent[i];
    if e.numDep > 1 then s.(ent := s.ent[i := e.(numDep := e.numDep - 1)])
    else
      s.(ent := s.ent[i := e.(numDep := 0, regReady := true, scheduled := if e.isMem then INFLIGHT else COMPLETED)],
         q0 := if e.isMem then s.q0 else s.q0 + [i],
         entered := if e.isMem then s.entered else s.entered[i := s.entered[i] + 1])
  }

  lemma ReleasedQueue(s: Rob, i: nat)
    requires Shape(s) && QueuesOk(s) && Live(s, i) && s.ent[i].numDep > 0 && !Queued(s, i)
    ensures OnlyStatus(s, Released(s, i), i) && QueuesOk(Released(s, i))
    ensures Queued(Released(s, i), i) <==> s.ent[i].numDep == 1 && !s.ent[i].isMem
  {
    var s' := Released(s, i);
    assert forall x :: x in s'.q0 <==> x in s.q0 || (x == i && |s'.q0| > |s.q0|);
  }

  lemma ReleasedStatus(s: Rob, open: set<Link>, i: nat)
    requires Core(s, open, s.n, 0) && Live(s, i) && s.ent[i].scheduled != 0 && s.ent[i].numDep > 0
    ensures OnlyStatus(s, Released(s, i), i) && QueuesOk(Released(s, i)) && StatusOk(Released(s, i), i, s.n)
    ensures Released(s, i).ent[i].scheduled != 0 && Released(s, i).ent[i].executed == s.ent[i].executed
  {
    assert StatusOk(s, i, s.n);
    ReleasedQueue(s, i);
  }

  lemma ReleaseCounts(s: Rob, open: set<Link>, l: Link, i: nat)
    requires Core(s, open, s.n, 0) && l in open && Live(s, l.i) && s.ent[l.i].scheduled != 0 && s.ent[l.i].numDep > 0
    requires Live(s, i)
    ensures StatusOk(Released(s, l.i), i, s.n) && Released(s, l.i).ent[i].numDep == |To(open - {l}, i)|
  {
    ToRemove(open, l, i);
    ReleasedStatus(s, open, l.i);
    if i != l.i {
      StatusKeeps(s, Released(s, l.i), i, l.i, s.n);
    }
  }

  lemma ReleaseWriter(s: Rob, open: set<Link>, l: Link, i: nat, j: nat, w: nat)
    requires Shape(s) && Live(s, l.i) && s.ent[l.i].scheduled != 0 && s.ent[l.i].numDep > 0
    requires SameCode(s, Released(s, l.i)) && Live(s, l.p) && s.ent[l.p].executed == COMPLETED
    requires WriterOk(s, open, i, j, w, s.n, 0)
    ensures WriterOk(Released(s, l.i), open - {l}, i, j, w, s.n, 0)
  {
    SameYoungest(s, Released(s, l.i), i, j, w);
  }

  lemma FewerOpen(s: Rob, open: set<Link>, l: Link)
    requires Shape(s) && LinksOk(s, open, s.n)
    ensures LinksOk(s, open - {l}, s.n)
  {
    hide LinkOk, Linked, Depends;
  }

  lemma ReleaseWriters(s: Rob, open: set<Link>, l: Link)
    requires Core(s, open, s.n, 0) && Live(s, l.p) && s.ent[l.p].executed == COMPLETED
    requires Live(s, l.i) && s.ent[l.i].scheduled != 0 && s.ent[l.i].numDep > 0 && SameCode(s, Released(s, l.i))
    ensures WritersOk(Released(s, l.i), open - {l}, s.n, 0)
  {
    var s', open' := Released(s, l.i), open - {l};
    forall i: nat, j: nat, w: nat
      ensures WriterOk(s', open', i, j, w, s.n, 0)
    {
      assert WriterOk(s, open, i, j, w, s.n, 0);
      hide WriterOk;
      ReleaseWriter(s, open, l, i, j, w);
    }
  }

  lemma ReleaseStatuses(s: Rob, open: set<Link>, l: Link)
    requires Core(s, open, s.n, 0) && l in open
    requires Live(s, l.i) && s.ent[l.i].scheduled != 0 && s.ent[l.i].numDep > 0 && SameCode(s, Released(s, l.i))
    ensures StatusesOk(Released(s, l.i), open - {l}, s.n)
  {
    hide StatusOk, QueuesOk, LinksOk, WritersOk, StatusesOk;
    var s', open' := Released(s, l.i), open - {l};
    forall i: nat | Live(s', i)
      ensures StatusOk(s', i, s.n) && s'.ent[i].numDep == |To(open', i)|
    {
      ReleaseCounts(s, open, l, i);
    }
    StatusesAre(s', open');
  }

  lemma StatusesAre(s: Rob, open: set<Link>)
    requires Shape(s) && forall i: nat :: Live(s, i) ==> StatusOk(s, i, s.n) && s.ent[i].numDep == |To(open, i)|
    ensures StatusesOk(s, open, s.n)
  {
    hide StatusOk;
  }

  lemma ReleaseCore(s: Rob, open: set<Link>, l: Link)
    requires Core(s, open, s.n, 0) && l in open && Live(s, l.p) && s.ent[l.p].executed == COMPLETED
    requires Live(s, l.i) && s.ent[l.i].scheduled != 0 && s.ent[l.i].numDep > 0
    ensures Core(Released(s, l.i), open - {l}, s.n, 0)
  {
    hide QueuesOk, StatusOk, LinksOk, StatusesOk, WritersOk;
    var s' := Released(s, l.i);
    ReleasedStatus(s, open, l.i);
    LinksStay(s, s', open, l.i, s.n);
    FewerOpen(s', open, l);
    ReleaseStatuses(s, open, l);
    ReleaseWriters(s, open, l);
  }

  /** The link's consumer is scheduled and still counts it. */
  lemma ConsumerWaits(s: Rob, open: set<Link>, l: Link)
    requires Core(s, open, s.n, 0) && l in open
    ensures Live(s, l.p) && Live(s, l.i) && s.ent[l.i].scheduled != 0 && s.ent[l.i].numDep > 0
  {
    assert LinkOk(s, l, s.n) && l in To(open, l.i);
    assert StatusOk(s, l.i, s.n);
  }

  lemma ReleaseOne(s: Rob, open: set<Link>, p: nat, l: Link)
    requires Releasing(s, open, p) && l in open && l.p == p
    ensures Live(s, l.i) && s.ent[l.i].numDep > 0 && Releasing(Released(s, l.i), open - {l}, p)
  {
    hide QueuesOk, StatusOk, LinkOk, StatusesOk, WritersOk, Depends;
    ConsumerWaits(s, open, l);
    ReleaseCore(s, open, l);
    ReleasedStatus(s, open, l.i);
    StructureKeeps(s, Released(s, l.i), l.i);
  }

  lemma EndRelease(s: Rob, open: set<Link>, p: nat)
    requires Releasing(s, open, p) && forall l: Link :: l in open ==> l.p != p
    ensures Inv(s, open)
  {
  }

  /** The source registers of consumer i that wait for producer p. */
  ghost function Waits(s: Rob, p: nat, i: nat): set<nat>
    requires Shape(s) && p < s.n
  {
    set j: nat | j < s.k && i in s.ent[p].byIndex[j]
  }

  /** Once the links of p are closed, every consumer counts its sources that waited for p no more, and
      those left with none, and no others, have joined the first queue. */
  lemma WokenCounts(s: Rob, open: set<Link>, s': Rob, open': set<Link>, p: nat, i: nat)
    requires Inv(s, open) && Live(s, p) && s.ent[p].executed == INFLIGHT && Live(s, i)
    requires Inv(s', open') && OnlyWoken(Completed(s, p), s')
    ensures s'.ent[i].numDep == s.ent[i].numDep - |Waits(s, p, i)|
    ensures i in s'.q0 <==> i in s.q0 || (Waits(s, p, i) != {} && s'.ent[i].numDep == 0 && !s.ent[i].isMem)
  {
    assert Shape(s) && Shape(s') && QueuesOk(s) && QueuesOk(s') && s'.n == s.n && s'.k == s.k;
    assert StatusOk(s, i, s.n) && s.ent[i].numDep == |To(open, i)|;
    assert Live(s', i) && StatusOk(s', i, s.n) && s'.ent[i].numDep == |To(open', i)|;
    OpenAfter(s, open, s', open', p);
    assert forall l :: l in open ==> Linked(s, l);
    hide Inv, OnlyWoken, StatusOk, QueuesOk;
    FewerWaits(s, open, open', p, i);
    WokenQueue(s, s', p, i);
  }

  lemma OpenAfter(s: Rob, open: set<Link>, s': Rob, open': set<Link>, p: nat)
    requires Inv(s, open) && p < s.n && s.ent[p].executed == INFLIGHT && Inv(s', open') && OnlyWoken(Completed(s, p), s')
    ensures forall l: Link :: l in open' <==> l in open && l.p != p
    ensures forall j: nat, i: nat :: Live(s, p) && j < s.k && i in s.ent[p].byIndex[j] ==> Link(p, i, j) in open
  {
    assert WokenAt(Completed(s, p).ent[p], s'.ent[p]);
    hide LinksOk, StatusesOk, WritersOk, QueuesOk, WokenAt;
    forall l: Link
      ensures l in open' <==> l in open && l.p != p
    {
      SameLinks(s, s', p, l);
    }
    forall j: nat, i: nat | Live(s, p) && j < s.k && i in s.ent[p].byIndex[j]
      ensures Link(p, i, j) in open
    {
      assert Linked(s, Link(p, i, j));
    }
  }

  lemma FewerWaits(s: Rob, open: set<Link>, open': set<Link>, p: nat, i: nat)
    requires Shape(s) && Live(s, p) && forall l: Link :: l in open' <==> l in open && l.p != p
    requires forall j: nat, x: nat :: j < s.k && x in s.ent[p].byIndex[j] ==> Link(p, x, j) in open
    requires forall l :: l in open ==> Linked(s, l)
    ensures |To(open', i)| == |To(open, i)| - |Waits(s, p, i)|
  {
    var mine, gone := To(open, i), Waits(s, p, i);
    assert To(open', i) == mine - LinksTo(p, i, gone);
    LinksToSize(p, i, gone);
    assert LinksTo(p, i, gone) <= mine;
    assert |mine - LinksTo(p, i, gone)| == |mine| - |LinksTo(p, i, gone)|;
  }

  /** What completion of p makes of the entries, field by field. */
  lemma WokenFields(s: Rob, s': Rob, p: nat, i: nat)
    requires Shape(s) && p < s.n && i < s.n && OnlyWoken(Completed(s, p), s') && s.ent[p].numDep == 0
    ensures |s'.ent| == s.n && s'.head == s.head && s'.occ == s.occ && s'.q1 == s.q1 && s.q0 <= s'.q0
    ensures s'.ent[p] == s.ent[p].(executed := COMPLETED)
    ensures i != p && s'.ent[i].numDep == s.ent[i].numDep ==> s'.ent[i] == s.ent[i]
    ensures i != p && s'.ent[i].numDep != s.ent[i].numDep && s'.ent[i].numDep > 0 ==>
              s'.ent[i] == s.ent[i].(numDep := s'.ent[i].numDep)
    ensures i != p && s'.ent[i].numDep != s.ent[i].numDep && s'.ent[i].numDep == 0 ==>
              s'.ent[i] == s.ent[i].(numDep := 0, regReady := true, scheduled := if s.ent[i].isMem then INFLIGHT else COMPLETED)
  {
    assert WokenAt(Completed(s, p).ent[p], s'.ent[p]);
    assert WokenAt(Completed(s, p).ent[i], s'.ent[i]);
  }

  lemma WokenQueue(s: Rob, s': Rob, p: nat, i: nat)
    requires Shape(s) && p < s.n && s.ent[p].executed == INFLIGHT && i < s.n && OnlyWoken(Completed(s, p), s')
    requires QueuesOk(s) && QueuesOk(s') && StatusOk(s, i, s.n) && StatusOk(s', i, s.n)
    requires s'.ent[i].numDep == s.ent[i].numDep - |Waits(s, p, i)|
    ensures i in s'.q0 <==> i in s.q0 || (Waits(s, p, i) != {} && s'.ent[i].numDep == 0 && !s.ent[i].isMem)
  {
    assert WokenAt(Completed(s, p).ent[i], s'.ent[i]);
    assert Waits(s, p, i) == {} <==> |Waits(s, p, i)| == 0;
    assert i in s.q0 ==> i in s'.q0;
  }

  lemma SameLinks(s: Rob, s': Rob, p: nat, l: Link)
    requires Shape(s) && p < s.n && OnlyWoken(Completed(s, p), s')
    ensures Linked(s', l) <==> Linked(s, l)
    ensures Linked(s, l) && l.p != p ==> s'.ent[l.p].executed == s.ent[l.p].executed
  {
    if l.p < s.n {
      assert WokenAt(Completed(s, p).ent[l.p], s'.ent[l.p]);
    }
  }

  ghost function LinksTo(p: nat, i: nat, js: set<nat>): set<Link> { set j | j in js :: Link(p, i, j) }

  lemma {:induction false} LinksToSize(p: nat, i: nat, js: set<nat>)
    ensures |LinksTo(p, i, js)| == |js|
  {
    if js != {} {
      var j :| j in js;
      LinksToSize(p, i, js - {j});
      assert LinksTo(p, i, js) == LinksTo(p, i, js - {j}) + {Link(p, i, j)};
    }
  }

  // ---- entering and leaving the ring ----

  /** The ring after its oldest entry has been retired. */
  ghost function Retired(s: Rob, empty: Entry): Rob
    requires Shape(s)
  {
    s.(ent := s.ent[s.head := empty], head := if s.head + 1 == s.n then 0 else s.head + 1, occ := if s.occ > 0 then s.occ - 1 else 0,
       entered := s.entered[s.head := 0])
  }

  lemma RetiredAges(s: Rob, empty: Entry, i: nat)
    requires Shape(s) && Sized(empty, s.k) && s.occ > 0 && i < s.n
    ensures Shape(Retired(s, empty))
    ensures i != s.head ==> Age(Retired(s, empty), i) == Age(s, i) - 1
    ensures Live(Retired(s, empty), i) <==> Live(s, i) && i != s.head
    ensures i != s.head ==> Retired(s, empty).ent[i] == s.ent[i]
  {
  }

  lemma RetiredLinks(s: Rob, open: set<Link>, empty: Entry, l: Link)
    requires Inv(s, open) && Sized(empty, s.k) && s.occ > 0 && s.ent[s.head].executed == COMPLETED
    ensures Linked(Retired(s, empty), l) <==> Linked(s, l) && l.p != s.head
    ensures LinkOk(Retired(s, empty), l, s.n)
  {
    assert LinkOk(s, l, s.n);
    if l.p < s.n {
      RetiredAges(s, empty, l.p);
    }
    if l.i < s.n {
      RetiredAges(s, empty, l.i);
    }
  }

  lemma RetiredYoungest(s: Rob, empty: Entry, i: nat, r: nat, w: nat)
    requires Shape(s) && Sized(empty, s.k) && s.occ > 0 && Shape(Retired(s, empty))
    requires i < s.n && Youngest(Retired(s, empty), i, r, w)
    ensures Youngest(s, i, r, w)
  {
    RetiredAges(s, empty, i);
    RetiredAges(s, empty, w);
    forall p: nat | Older(s, p, i) && Writes(s.ent[p], r)
      ensures Age(s, p) <= Age(s, w)
    {
      RetiredAges(s, empty, p);
      if p != s.head {
        assert Older(Retired(s, empty), p, i);
      }
    }
  }

  lemma RetiredWriter(s: Rob, open: set<Link>, empty: Entry, i: nat, j: nat, w: nat)
    requires Inv(s, open) && Sized(empty, s.k) && s.occ > 0 && Shape(Retired(s, empty))
    ensures WriterOk(Retired(s, empty), open, i, j, w, s.n, 0)
  {
    assert WriterOk(s, open, i, j, w, s.n, 0);
    if Live(Retired(s, empty), i) && j < s.k {
      RetiredAges(s, empty, i);
      if Youngest(Retired(s, empty), i, s.ent[i].src[j], w) {
        RetiredYoungest(s, empty, i, s.ent[i].src[j], w);
        RetiredAges(s, empty, w);
      }
    }
  }

  lemma RetiredEntries(s: Rob, open: set<Link>, empty: Entry)
    requires Inv(s, open) && Sized(empty, s.k) && s.occ > 0 && s.ent[s.head].executed == COMPLETED
    ensures var s' := Retired(s, empty);
            && Shape(s') && QueuesOk(s')
            && (forall i: nat :: Live(s', i) ==> StatusOk(s', i, s.n) && s'.ent[i].numDep == |To(open, i)|)
            && (forall p: nat, i: nat :: Live(s', p) ==> (i in s'.ent[p].dependents <==> Depends(s', p, i)))
  {
    var s' := Retired(s, empty);
    RetiredAges(s, empty, s.head);
    assert StatusOk(s, s.head, s.n);
    forall i: nat | Live(s, i)
      ensures Live(s', i) <==> i != s.head
      ensures i != s.head ==> StatusOk(s', i, s.n) && s'.ent[i] == s.ent[i]
    {
      RetiredAges(s, empty, i);
      assert StatusOk(s, i, s.n);
    }
    forall p: nat, i: nat | Live(s', p)
      ensures i in s'.ent[p].dependents <==> Depends(s', p, i)
    {
      RetiredAges(s, empty, p);
      assert Depends(s', p, i) <==> Depends(s, p, i);
    }
  }

  /** Retirement takes nobody's producer away. */
  lemma RetireKeeps(s: Rob, open: set<Link>, empty: Entry)
    requires Inv(s, open) && Sized(empty, s.k) && s.occ > 0 && s.ent[s.head].executed == COMPLETED
    ensures Inv(Retired(s, empty), open)
  {
    var s' := Retired(s, empty);
    RetiredEntries(s, open, empty);
    forall l: Link
      ensures LinkOk(s', l, s.n) && (Linked(s', l) <==> Linked(s, l) && l.p != s.head)
      ensures Linked(s', l) ==> s'.ent[l.p] == s.ent[l.p]
    {
      RetiredLinks(s, open, empty, l);
      if l.p < s.n {
        RetiredAges(s, empty, l.p);
      }
    }
    forall i: nat, j: nat, w: nat
      ensures WriterOk(s', open, i, j, w, s.n, 0)
    {
      RetiredWriter(s, open, empty, i, j, w);
    }
  }

  /** A new instruction: nothing scheduled, nothing linked. */
  ghost predicate IsNew(e: Entry, k: nat) {
    && Sized(e, k) && e.scheduled == 0 && e.executed == 0 && e.numDep == 0 && e.dependents == {}
    && (forall j :: 0 <= j < k ==> !e.checked[j] && e.byIndex[j] == {})
  }

  ghost function Added(s: Rob, e: Entry): Rob
    requires Shape(s) && s.occ < s.n
  {
    s.(ent := s.ent[AtAge(s, s.occ) := e], occ := s.occ + 1, entered := s.entered[AtAge(s, s.occ) := 0])
  }

  lemma AddedAges(s: Rob, e: Entry, i: nat)
    requires Shape(s) && Sized(e, s.k) && s.occ < s.n && i < s.n
    ensures Shape(Added(s, e)) && Age(Added(s, e), i) == Age(s, i)
    ensures Live(Added(s, e), i) <==> Live(s, i) || i == AtAge(s, s.occ)
    ensures !Live(s, AtAge(s, s.occ)) && Age(s, AtAge(s, s.occ)) == s.occ
    ensures i != AtAge(s, s.occ) ==> Added(s, e).ent[i] == s.ent[i] && Added(s, e).entered[i] == s.entered[i]
  {
  }

  lemma AddedLinks(s: Rob, open: set<Link>, e: Entry, l: Link)
    requires Inv(s, open) && IsNew(e, s.k) && s.occ < s.n
    ensures Linked(Added(s, e), l) <==> Linked(s, l)
    ensures LinkOk(Added(s, e), l, s.n)
  {
    assert LinkOk(s, l, s.n);
    if l.p < s.n {
      AddedAges(s, e, l.p);
    }
    if l.i < s.n {
      AddedAges(s, e, l.i);
    }
  }

  lemma AddedWriter(s: Rob, open: set<Link>, e: Entry, i: nat, j: nat, w: nat)
    requires Inv(s, open) && IsNew(e, s.k) && s.occ < s.n && Shape(Added(s, e))
    ensures WriterOk(Added(s, e), open, i, j, w, s.n, 0)
  {
    var s' := Added(s, e);
    assert WriterOk(s, open, i, j, w, s.n, 0);
    if i < s.n && w < s.n {
      AddedAges(s, e, i);
      AddedAges(s, e, w);
      if Live(s, i) && j < s.k && Youngest(s', i, s.ent[i].src[j], w) {
        forall p: nat | Older(s, p, i) && Writes(s.ent[p], s.ent[i].src[j])
          ensures Age(s, p) <= Age(s, w)
        {
          AddedAges(s, e, p);
          assert Older(s', p, i);
        }
      }
    }
  }

  lemma AddedEntries(s: Rob, open: set<Link>, e: Entry)
    requires Inv(s, open) && IsNew(e, s.k) && s.occ < s.n
    ensures var s' := Added(s, e);
            && Shape(s') && QueuesOk(s')
            && (forall i: nat :: Live(s', i) ==> StatusOk(s', i, s.n) && s'.ent[i].numDep == |To(open, i)|)
            && (forall p: nat, i: nat :: Live(s', p) ==> (i in s'.ent[p].dependents <==> Depends(s', p, i)))
  {
    var s', t := Added(s, e), AtAge(s, s.occ);
    AddedAges(s, e, t);
    forall i: nat | Live(s', i)
      ensures StatusOk(s', i, s.n) && s'.ent[i].numDep == |To(open, i)|
    {
      AddedAges(s, e, i);
      if i == t {
        forall l | l in open
          ensures l.i != t
        {
          assert LinkOk(s, l, s.n);
        }
        assert To(open, t) == {};
      } else {
        assert StatusOk(s, i, s.n);
      }
    }
    forall i: nat | Live(s, i)
      ensures Live(s', i)
    {
      AddedAges(s, e, i);
    }
    forall p: nat, i: nat | Live(s', p)
      ensures i in s'.ent[p].dependents <==> Depends(s', p, i)
    {
      AddedAges(s, e, p);
      if p != t {
        assert Depends(s', p, i) <==> Depends(s, p, i);
      }
    }
  }

  lemma AddKeeps(s: Rob, open: set<Link>, e: Entry)
    requires Inv(s, open) && IsNew(e, s.k) && s.occ < s.n
    ensures Inv(Added(s, e), open)
  {
    var s' := Added(s, e);
    AddedEntries(s, open, e);
    forall l: Link
      ensures LinkOk(s', l, s.n) && (Linked(s', l) <==> Linked(s, l))
      ensures Linked(s', l) ==> s'.ent[l.p] == s.ent[l.p]
    {
      AddedLinks(s, open, e, l);
      if Linked(s, l) {
        AddedAges(s, e, l.p);
      }
    }
    forall i: nat, j: nat, w: nat
      ensures WriterOk(s', open, i, j, w, s.n, 0)
    {
      AddedWriter(s, open, e, i, j, w);
    }
  }
}
