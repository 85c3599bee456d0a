/**
 * The scatter of the ordinary builder as its threads run it: a fetch-and-add on the offset of a
 * key and the store into the slot it yields are steps of their own, and any thread may take the
 * next step.
 */
module ScatterProtocol {
  import opened CsrSpec
  import opened BuildSteps
  import opened BuildOrdinary
  import opened Shares

  /** The insertions of all edges. */
  datatype Params = Params(ops: seq<Op>, n: nat, workers: nat) {
    ghost predicate Valid() { forall i :: 0 <= i < |ops| ==> ops[i].key < n }

    ghost function Size(): nat { SumTo(Degrees(ops, n), n) }
  }

  datatype Pc =
    | Fetch                                 // about to add one to the offset of the next insertion's key
    | Store(key: nat, slot: nat, val: nat)  // about to store the value

  datatype Thread = Thread(pc: Pc, rest: seq<Op>)

  /** `log` is the order of the fetch-and-adds so far, `whole` the array once all pending stores are made. */
  datatype State = State(offs: seq<nat>, out: seq<nat>, log: seq<Op>, whole: seq<nat>, threads: seq<Thread>)

  // ---- one thread, one access ----

  ghost function Fetched(s: State, i: nat): State
    requires i < |s.threads| && s.threads[i].rest != []
    requires s.threads[i].rest[0].key < |s.offs| && s.offs[s.threads[i].rest[0].key] < |s.whole|
  {
    var op := s.threads[i].rest[0];
    var slot := s.offs[op.key];
    State(s.offs[op.key := slot + 1], s.out, s.log + [op], s.whole[slot := op.val],
          s.threads[i := Thread(Store(op.key, slot, op.val), s.threads[i].rest[1..])])
  }

  ghost predicate Fetches(s: State, s': State, i: nat) {
    && i < |s.threads| && s.threads[i].pc.Fetch? && s.threads[i].rest != []
    && s.threads[i].rest[0].key < |s.offs| && s.offs[s.threads[i].rest[0].key] < |s.whole|
    && s' == Fetched(s, i)
  }

  ghost predicate Stores(s: State, s': State, i: nat) {
    && i < |s.threads| && s.threads[i].pc.Store? && s.threads[i].pc.slot < |s.out|
    && s' == s.(out := s.out[s.threads[i].pc.slot := s.threads[i].pc.val],
                threads := s.threads[i := s.threads[i].(pc := Fetch)])
  }

  ghost predicate StepOf(s: State, s': State, i: nat) { Fetches(s, s', i) || Stores(s, s', i) }

  predicate Finished(t: Thread) { t.pc.Fetch? && t.rest == [] }

  // ---- the invariant ----

  /** What the threads have not fetched yet. */
  ghost function Rest(threads: seq<Thread>): seq<Op> {
    if threads == [] then [] else threads[0].rest + Rest(threads[1..])
  }

  /** One order in which all fetch-and-adds may take effect. */
  ghost function Order(s: State): seq<Op> { s.log + Rest(s.threads) }

  /** A pending store goes to a slot its key has given out; no two go to the same. */
  ghost predicate PendingOk(p: Params, s: State, i: nat) {
    i < |s.threads| && s.threads[i].pc.Store? ==>
      var pc := s.threads[i].pc;
      && pc.key < p.n <= |s.offs| && SumTo(Degrees(p.ops, p.n), pc.key) <= pc.slot < s.offs[pc.key]
      && pc.slot < |s.whole| && s.whole[pc.slot] == pc.val
  }

  ghost predicate Apart(s: State) {
    forall i: nat, j: nat :: i < j < |s.threads| && s.threads[i].pc.Store? && s.threads[j].pc.Store? ==>
      s.threads[i].pc.slot != s.threads[j].pc.slot
  }

  ghost predicate StoredBy(s: State, i: nat, x: nat) {
    i < |s.threads| && s.threads[i].pc.Store? && s.threads[i].pc.slot == x
  }

  /** A slot holds its value or a thread is about to store it. */
  ghost predicate SlotOk(s: State, x: nat)
    requires x < |s.out| == |s.whole|
  {
    s.out[x] == s.whole[x] || exists i: nat :: StoredBy(s, i, x)
  }

  ghost predicate SlotsOk(p: Params, s: State) {
    |s.out| == |s.whole| == p.Size() && forall x: nat :: x < |s.out| ==> SlotOk(s, x)
  }

  ghost predicate ListsOk(p: Params, s: State) {
    multiset(Order(s)) == multiset(p.ops) && Scattered(Order(s), |s.log|, p.n, s.offs, s.whole)
  }

  ghost predicate Inv(p: Params, s: State) {
    p.Valid() && SlotsOk(p, s) && ListsOk(p, s) && (forall i: nat :: PendingOk(p, s, i)) && Apart(s)
  }

  // ---- fetch-and-add ----

  lemma {:induction false} RestTaken(threads: seq<Thread>, i: nat, t: Thread)
    requires i < |threads| && threads[i].rest != [] && t.rest == threads[i].rest[1..]
    ensures multiset(Rest(threads)) == multiset{threads[i].rest[0]} + multiset(Rest(threads[i := t]))
  {
    if i == 0 {
      assert threads[i := t][1..] == threads[1..];
      assert threads[0].rest == [threads[0].rest[0]] + t.rest;
    } else {
      assert threads[i := t][1..] == threads[1..][i - 1 := t];
      RestTaken(threads[1..], i - 1, t);
    }
  }

  /** Which of the possible orders is looked at does not matter for what has been scattered. */
  lemma OtherOrder(a: seq<Op>, b: seq<Op>, k: nat, n: nat, offs: seq<nat>, out: seq<nat>)
    requires multiset(a) == multiset(b) && k <= |a| && k <= |b| && a[..k] == b[..k] && Scattered(a, k, n, offs, out)
    ensures Scattered(b, k, n, offs, out)
  {
    DegreesAgree(a, b, n);
  }

  /** The order that takes thread i's next insertion first. */
  lemma NextOrder(p: Params, s: State, s': State, i: nat)
    requires Inv(p, s) && Fetches(s, s', i)
    ensures multiset(Order(s')) == multiset(p.ops)
    ensures Scattered(Order(s'), |s.log|, p.n, s.offs, s.whole)
    ensures |s.log| < |Order(s')| && Order(s')[|s.log|] == s.threads[i].rest[0] && Order(s')[|s.log|].key < p.n
  {
    hide SlotsOk, PendingOk, Apart, Scattered, Rest;
    RestTaken(s.threads, i, s'.threads[i]);
    TakeFirst(s.log, Rest(s.threads), s.threads[i].rest[0], Rest(s'.threads));
    OtherOrder(Order(s), Order(s'), |s.log|, p.n, s.offs, s.whole);
    FromList(Order(s'), p.ops, |s.log|);
  }

  lemma TakeFirst(log: seq<Op>, rest: seq<Op>, op: Op, rest': seq<Op>)
    requires multiset(rest) == multiset{op} + multiset(rest')
    ensures multiset(log + rest) == multiset((log + [op]) + rest')
    ensures (log + rest)[..|log|] == log == ((log + [op]) + rest')[..|log|] && ((log + [op]) + rest')[|log|] == op
  {
    assert (log + [op]) + rest' == log + ([op] + rest');
    assert multiset([op] + rest') == multiset{op} + multiset(rest');
  }

  lemma FromList(a: seq<Op>, b: seq<Op>, k: nat)
    requires multiset(a) == multiset(b) && k < |a|
    ensures a[k] in b
  {
    assert a[k] in multiset(a);
  }

  /** Every key's list grows in its own range. */
  lemma NewLists(p: Params, s: State, s': State, i: nat)
    requires Inv(p, s) && Fetches(s, s', i)
    ensures ListsOk(p, s') && |s'.whole| == |s.whole|
    ensures var key := s.threads[i].rest[0].key;
            key < p.n <= |s.offs| && SumTo(Degrees(p.ops, p.n), key) <= s.offs[key] < SumTo(Degrees(p.ops, p.n), key + 1)
  {
    hide SlotsOk, Apart, PendingOk, Scattered, Degrees, SumTo;
    NextOrder(p, s, s', i);
    NextScattered(p.ops, Order(s'), |s.log|, p.n, s.offs, s.whole);
  }

  lemma NextScattered(ops: seq<Op>, all: seq<Op>, k: nat, n: nat, offs: seq<nat>, out: seq<nat>)
    requires k < |all| && all[k].key < n && Scattered(all, k, n, offs, out) && multiset(all) == multiset(ops)
    ensures var key := all[k].key;
            && n <= |offs| && SumTo(Degrees(ops, n), key) <= offs[key] < SumTo(Degrees(ops, n), key + 1) && offs[key] < |out|
            && Scattered(all, k + 1, n, offs[key := offs[key] + 1], out[offs[key] := all[k].val])
  {
    DegreesAgree(all, ops, n);
    ScatterSlot(all, k, n, offs, out);
    ScatterStep(all, k, n, offs, out);
    StartsLow(all, k, n, offs, out, all[k].key);
  }

  /** The slot is inside its key's range, so no pending store goes there. */
  lemma NewSlot(p: Params, s: State, s': State, i: nat)
    requires Inv(p, s) && Fetches(s, s', i)
    ensures ListsOk(p, s') && |s'.whole| == |s.whole|
    ensures PendingOk(p, s', i)
    ensures forall j: nat :: j < |s.threads| && s.threads[j].pc.Store? ==> s.threads[j].pc.slot != s'.threads[i].pc.slot
  {
    hide SlotsOk, Apart, Scattered, Degrees;
    NewLists(p, s, s', i);
    NextOrder(p, s, s', i);
    DegreesAgree(Order(s'), p.ops, p.n);
    forall j: nat | j < |s.threads| && s.threads[j].pc.Store?
      ensures s.threads[j].pc.slot != s'.threads[i].pc.slot
    {
      assert PendingOk(p, s, j);
      OtherSlot(p, Order(s'), |s.log|, s.offs, s.whole, s.threads[j].pc, s.threads[i].rest[0].key);
    }
  }

  lemma StartsLow(ops: seq<Op>, k: nat, n: nat, offs: seq<nat>, out: seq<nat>, x: nat)
    requires k <= |ops| && Scattered(ops, k, n, offs, out) && x < n
    ensures SumTo(Degrees(ops, n), x) <= offs[x]
  {
  }

  /** A slot given out for another key, or before for the same one. */
  lemma OtherSlot(p: Params, all: seq<Op>, k: nat, offs: seq<nat>, out: seq<nat>, pc: Pc, key: nat)
    requires k < |all| && Scattered(all, k, p.n, offs, out) && Degrees(all, p.n) == Degrees(p.ops, p.n) && key < p.n <= |offs|
    requires pc.Store? && pc.key < p.n && SumTo(Degrees(p.ops, p.n), pc.key) <= pc.slot < offs[pc.key]
    requires SumTo(Degrees(p.ops, p.n), key) <= offs[key] < SumTo(Degrees(p.ops, p.n), key + 1)
    ensures pc.slot != offs[key]
  {
    OffsetBound(all, k, p.n, offs, out, pc.key);
    RangesApart(Degrees(p.ops, p.n), pc.key, key);
  }

  lemma RangesApart(d: seq<nat>, x: nat, y: nat)
    requires x < |d| && y < |d|
    ensures x < y ==> SumTo(d, x + 1) <= SumTo(d, y)
    ensures y < x ==> SumTo(d, y + 1) <= SumTo(d, x)
  {
    if x < y { SumToMono(d, x + 1, y); }
    if y < x { SumToMono(d, y + 1, x); }
  }

  lemma {:induction false} FetchKeeps(p: Params, s: State, s': State, i: nat)
    requires Inv(p, s) && Fetches(s, s', i)
    ensures Inv(p, s')
  {
    hide ListsOk, Degrees, SumTo;
    NewSlot(p, s, s', i);
    forall j: nat
      ensures PendingOk(p, s', j)
    {
      assert PendingOk(p, s, j);
    }
    forall x: nat | x < |s'.out|
      ensures SlotOk(s', x)
    {
      FetchedSlot(p, s, s', i, x);
    }
  }

  /** The new slot is pending; the others are as they were. */
  lemma {:induction false} FetchedSlot(p: Params, s: State, s': State, i: nat, x: nat)
    requires SlotsOk(p, s) && Fetches(s, s', i) && |s'.whole| == |s.whole| && x < |s.out|
    ensures SlotOk(s', x)
  {
    assert SlotOk(s, x);
    if x == s'.threads[i].pc.slot {
      assert StoredBy(s', i, x);
    } else if s.out[x] != s.whole[x] {
      var j: nat :| StoredBy(s, j, x);
      assert StoredBy(s', j, x);
    }
  }

  // ---- store ----

  lemma {:induction false} RestSame(threads: seq<Thread>, i: nat, t: Thread)
    requires i < |threads| && t.rest == threads[i].rest
    ensures Rest(threads[i := t]) == Rest(threads)
  {
    if i == 0 {
      assert threads[i := t][1..] == threads[1..];
    } else {
      assert threads[i := t][1..] == threads[1..][i - 1 := t];
      RestSame(threads[1..], i - 1, t);
    }
  }

  lemma StoreKeeps(p: Params, s: State, s': State, i: nat)
    requires Inv(p, s) && Stores(s, s', i)
    ensures Inv(p, s')
  {
    hide Scattered;
    RestSame(s.threads, i, s'.threads[i]);
    assert PendingOk(p, s, i);
    forall j: nat
      ensures PendingOk(p, s', j)
    {
      assert PendingOk(p, s, j);
    }
    forall x: nat | x < |s'.out|
      ensures SlotOk(s', x)
    {
      assert SlotOk(s, x);
      if x != s.threads[i].pc.slot && s.out[x] != s.whole[x] {
        var j: nat :| StoredBy(s, j, x);
        assert StoredBy(s', j, x);
      }
    }
  }

  // ---- whole runs ----

  /** Insertions handed out, offsets at the starts of the ranges. */
  ghost predicate IsStart(p: Params, s: State, shares: seq<seq<Op>>) {
    && p.Valid() && IsSplit(p.ops, shares, p.workers)
    && IsPrefixSum(s.offs, Degrees(p.ops, p.n)) && |s.out| == p.Size() && s.whole == s.out && s.log == []
    && |s.threads| == p.workers && forall i :: 0 <= i < |s.threads| ==> s.threads[i] == Thread(Fetch, shares[i])
  }

  lemma {:induction false} RestIsFlat(threads: seq<Thread>, shares: seq<seq<Op>>)
    requires |threads| == |shares| && forall i :: 0 <= i < |threads| ==> threads[i].rest == shares[i]
    ensures Rest(threads) == Flat(shares)
  {
    if threads != [] {
      RestIsFlat(threads[1..], shares[1..]);
    }
  }

  lemma StartKeeps(p: Params, s: State, shares: seq<seq<Op>>)
    requires IsStart(p, s, shares)
    ensures Inv(p, s)
  {
    RestIsFlat(s.threads, shares);
    assert Order(s) == Flat(shares);
    DegreesAgree(Order(s), p.ops, p.n);
    ScatterStart(Order(s), p.n, s.offs, s.whole);
  }

  ghost predicate Linked(s: State, s': State) { exists i: nat :: StepOf(s, s', i) }

  ghost predicate Run(run: seq<State>) {
    |run| > 0 && forall k :: 0 <= k < |run| - 1 ==> Linked(run[k], run[k + 1])
  }

  ghost predicate AllDone(s: State) { forall i :: 0 <= i < |s.threads| ==> Finished(s.threads[i]) }

  /** Steps a thread still needs. */
  ghost function Work(threads: seq<Thread>): nat {
    if threads == [] then 0
    else 2 * |threads[0].rest| + (if threads[0].pc.Store? then 1 else 0) + Work(threads[1..])
  }

  lemma {:induction false} StepWorks(threads: seq<Thread>, i: nat, t: Thread)
    requires i < |threads|
    requires 2 * |t.rest| + (if t.pc.Store? then 1 else 0) + 1 ==
             2 * |threads[i].rest| + if threads[i].pc.Store? then 1 else 0
    ensures Work(threads[i := t]) + 1 == Work(threads)
  {
    if i == 0 {
      assert threads[i := t][1..] == threads[1..];
    } else {
      assert threads[i := t][1..] == threads[1..][i - 1 := t];
      StepWorks(threads[1..], i - 1, t);
    }
  }

  /** Every interleaving keeps the invariant; each step takes one off the work left. */
  lemma {:induction false} Reachable(p: Params, shares: seq<seq<Op>>, run: seq<State>)
    requires Run(run) && IsStart(p, run[0], shares)
    ensures Inv(p, run[|run| - 1])
    ensures |run| - 1 + Work(run[|run| - 1].threads) == Work(run[0].threads)
  {
    hide Inv, IsStart;
    if |run| == 1 {
      StartKeeps(p, run[0], shares);
    } else {
      var pre := run[..|run| - 1];
      forall k | 0 <= k < |pre| - 1
        ensures Linked(pre[k], pre[k + 1])
      {
        assert Linked(run[k], run[k + 1]);
      }
      Reachable(p, shares, pre);
      var s, s' := run[|run| - 2], run[|run| - 1];
      assert Linked(run[|run| - 2], run[|run| - 2 + 1]);
      var i: nat :| StepOf(s, s', i);
      if Fetches(s, s', i) { FetchKeeps(p, s, s', i); } else { StoreKeeps(p, s, s', i); }
      StepWorks(s.threads, i, s'.threads[i]);
    }
  }

  ghost predicate Enabled(s: State) { exists s': State :: Linked(s, s') }

  lemma {:induction false} StartWork(threads: seq<Thread>)
    requires forall i :: 0 <= i < |threads| ==> threads[i].pc.Fetch?
    ensures Work(threads) == 2 * |Rest(threads)|
  {
    if threads != [] {
      StartWork(threads[1..]);
    }
  }

  /** A thread that is not finished can take its next step: key and slot are in bounds. */
  lemma CanStep(p: Params, s: State, i: nat)
    requires Inv(p, s) && i < |s.threads| && !Finished(s.threads[i])
    ensures Enabled(s)
  {
    var t := s.threads[i];
    if t.pc.Store? {
      assert PendingOk(p, s, i);
      var s' := s.(out := s.out[t.pc.slot := t.pc.val], threads := s.threads[i := t.(pc := Fetch)]);
      assert StepOf(s, s', i) && Linked(s, s');
    } else {
      FetchSlot(p, s, i);
      assert StepOf(s, Fetched(s, i), i) && Linked(s, Fetched(s, i));
    }
  }

  lemma FetchSlot(p: Params, s: State, i: nat)
    requires Inv(p, s) && i < |s.threads| && s.threads[i].pc.Fetch? && s.threads[i].rest != []
    ensures s.threads[i].rest[0].key < |s.offs| && s.offs[s.threads[i].rest[0].key] < |s.whole|
  {
    var t := s.threads[i];
    var op, t' := t.rest[0], t.(rest := t.rest[1..]);
    RestTaken(s.threads, i, t');
    var rest' := Rest(s.threads[i := t']);
    var all := s.log + ([op] + rest');
    assert multiset([op] + rest') == multiset{op} + multiset(rest');
    assert multiset(all) == multiset(Order(s));
    assert all[..|s.log|] == s.log == Order(s)[..|s.log|];
    OtherOrder(Order(s), all, |s.log|, p.n, s.offs, s.whole);
    assert op in multiset(all);
    assert op in p.ops && all[|s.log|] == op;
    ScatterSlot(all, |s.log|, p.n, s.offs, s.whole);
  }

  /** Every schedule takes two steps for each insertion and never gets stuck. */
  lemma ScatterTerminates(p: Params, shares: seq<seq<Op>>, run: seq<State>)
    requires Run(run) && IsStart(p, run[0], shares)
    ensures |run| - 1 <= 2 * |p.ops|
    ensures AllDone(run[|run| - 1]) || Enabled(run[|run| - 1])
  {
    Reachable(p, shares, run);
    StartWork(run[0].threads);
    RestIsFlat(run[0].threads, shares);
    assert |Flat(shares)| == |multiset(Flat(shares))| == |multiset(p.ops)| == |p.ops|;
    var s := run[|run| - 1];
    hide Inv, IsStart;
    if !AllDone(s) {
      var i: nat :| i < |s.threads| && !Finished(s.threads[i]);
      CanStep(p, s, i);
    }
  }

  lemma {:induction false} NoRest(threads: seq<Thread>)
    requires forall i :: 0 <= i < |threads| ==> threads[i].rest == []
    ensures Rest(threads) == []
  {
    if threads != [] {
      NoRest(threads[1..]);
    }
  }

  /** Under every interleaving the neighbour array ends as if each fetch-and-add had stored its value
      at once, in the order the fetch-and-adds took effect. */
  lemma ScatterCorrect(p: Params, shares: seq<seq<Op>>, run: seq<State>, index: seq<nat>)
    requires Run(run) && IsStart(p, run[0], shares) && AllDone(run[|run| - 1])
    requires IsPrefixSum(index, Degrees(p.ops, p.n))
    ensures var s := run[|run| - 1];
            && multiset(s.log) == multiset(p.ops) && WellFormed(Csr(index, s.out), p.n)
            && forall u: nat :: u < p.n ==> List(Csr(index, s.out), p.n, u) == Select(s.log, u)
  {
    Reachable(p, shares, run);
    var s := run[|run| - 1];
    NoRest(s.threads);
    assert Order(s) == s.log;
    forall x: nat | x < |s.out|
      ensures s.out[x] == s.whole[x]
    {
      assert SlotOk(s, x);
    }
    assert s.out == s.whole;
    DegreesAgree(s.log, p.ops, p.n);
    ScatteredIsCsr(s.log, p.n, s.offs, s.out, index);
  }
}
