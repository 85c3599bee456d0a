/**
 * OPTgen: a ring of liveness counters that decides, one reuse at a time, whether an optimal
 * cache would have kept the line.  Times are unbounded; the ring slot of time t is t modulo
 * the ring's length.
 */
module OptGen {
  import opened IntervalScheduling
  import opened Arith

  /** The ring slot of a time; SlotIsRemainder says it is the remainder by the ring's length. */
  ghost function Slot(t: nat, w: nat): (s: nat)
    requires w > 0
    ensures s < w
    decreases t
  {
    if t < w then t else Slot(t - w, w)
  }

  lemma {:induction false} SlotIsRemainder(t: nat, w: nat)
    requires w > 0
    ensures Slot(t, w) == t % w
    decreases t
  {
    if t < w {
      DivMod(t, w, 0, t);
    } else {
      SlotIsRemainder(t - w, w);
      assert t == w * ((t - w) / w + 1) + (t - w) % w;
      DivMod(t, w, (t - w) / w + 1, (t - w) % w);
    }
  }

  /** The ring's increment moves from the slot of one time to the slot of the next. */
  lemma SlotNext(t: nat, w: nat)
    requires w > 0
    ensures (Slot(t, w) + 1) % w == Slot(t + 1, w)
  {
    SlotNextCases(t, w);
    if Slot(t, w) + 1 == w {
      DivMod(w, w, 1, 0);
    } else {
      DivMod(Slot(t, w) + 1, w, 0, Slot(t, w) + 1);
    }
  }

  lemma {:induction false} SlotNextCases(t: nat, w: nat)
    requires w > 0
    ensures Slot(t + 1, w) == if Slot(t, w) + 1 == w then 0 else Slot(t, w) + 1
    decreases t
  {
    if t >= w {
      SlotNextCases(t - w, w);
    }
  }

  /** Fewer than w apart, two times share a slot only if they are equal. */
  lemma {:induction false} SlotInjective(a: nat, b: nat, w: nat)
    requires w > 0 && Slot(a, w) == Slot(b, w) && a <= b < a + w
    ensures a == b
    decreases a
  {
    if a >= w {
      SlotInjective(a - w, b - w, w);
    }
  }

  class OptGen {
    var livenessHistory: array<nat>
    var numCache: nat
    var numDontCache: nat
    var access: nat
    var cacheSize: nat

    /** What the object has been asked so far, and the first time not accessed yet. */
    ghost var reqs: seq<Interval>
    ghost var clock: nat

    ghost predicate Valid()
      reads this, livenessHistory
    {
      && livenessHistory.Length > 0
      && Answered(reqs, clock, cacheSize, numCache, numDontCache)
      && HistoryIsLoad(livenessHistory[..], clock, reqs, Greedy(reqs, cacheSize))
    }

    /** Requests come in order of their ends, and the counters count the greedy answers. */
    static ghost predicate Answered(reqs: seq<Interval>, clock: nat, cap: nat, hits: nat, misses: nat) {
      && OrderedByEnd(reqs) && (forall i :: 0 <= i < |reqs| ==> reqs[i].hi <= clock)
      && hits == Count(Greedy(reqs, cap)) && hits + misses == |reqs|
    }

    /** Within the last window the slot of t counts the accepted intervals that cover t; before
        the ring first wraps, the slots not reached yet are zero. */
    static ghost predicate HistoryIsLoad(h: seq<nat>, clock: nat, reqs: seq<Interval>, chosen: seq<bool>)
      requires |h| > 0 && |chosen| == |reqs|
    {
      && (forall t: nat {:trigger Load(reqs, chosen, t)} :: clock < t + |h| && t < clock ==> h[Slot(t, |h|)] == Load(reqs, chosen, t))
      && forall t: nat :: clock <= t < |h| ==> h[t] == 0
    }

    constructor (size: nat, window: nat)
      requires window > 0
      ensures Valid() && fresh(livenessHistory) && livenessHistory.Length == window
      ensures cacheSize == size && reqs == [] && clock == 0 && access == 0
    {
      numCache, numDontCache, access, cacheSize := 0, 0, 0, size;
      livenessHistory := new nat[window](i => 0);
      reqs, clock := [], 0;
    }

    /** The next time is the one right after the last access, or any later one inside the very
        first window of the ring. */
    ghost predicate NextTime(now: nat)
      reads this, livenessHistory
    {
      clock <= now && (now == clock || now < livenessHistory.Length)
    }

    method AddAccess(currQuanta: nat, ghost now: nat)
      requires Valid() && NextTime(now) && currQuanta == Slot(now, livenessHistory.Length)
      modifies this`access, this`clock, livenessHistory
      ensures Valid() && access == old(access) + 1 && clock == now + 1
      ensures numCache == old(numCache)
    {
      access := access + 1;
      ghost var h0 := livenessHistory[..];
      livenessHistory[currQuanta] := 0;
      assert livenessHistory[..] == h0[currQuanta := 0];
      ClearSlot(h0, clock, now, reqs, Greedy(reqs, cacheSize));
      clock := now + 1;
    }

    static lemma ClearSlot(h: seq<nat>, clock: nat, now: nat, reqs: seq<Interval>, chosen: seq<bool>)
      requires |h| > 0 && |chosen| == |reqs| && HistoryIsLoad(h, clock, reqs, chosen)
      requires clock <= now && (now == clock || now < |h|)
      requires forall i :: 0 <= i < |reqs| ==> reqs[i].hi <= clock
      ensures Slot(now, |h|) < |h| && HistoryIsLoad(h[Slot(now, |h|) := 0], now + 1, reqs, chosen)
    {
      var h' := h[Slot(now, |h|) := 0];
      forall t: nat | now + 1 < t + |h'| && t < now + 1
        ensures h'[Slot(t, |h'|)] == Load(reqs, chosen, t)
      {
        if t >= clock {
          NothingAfter(reqs, chosen, clock, t);
        }
        if Slot(t, |h|) == Slot(now, |h|) {
          SlotInjective(t, now, |h|);
        }
      }
    }

    static lemma {:induction false} NothingAfter(reqs: seq<Interval>, chosen: seq<bool>, clock: nat, t: nat)
      requires |chosen| == |reqs| && t >= clock && forall i :: 0 <= i < |reqs| ==> reqs[i].hi <= clock
      ensures Load(reqs, chosen, t) == 0
    {
      if reqs != [] {
        NothingAfter(reqs[..|reqs| - 1], chosen[..|reqs| - 1], clock, t);
      }
    }

    /** The scan reads, for every time of the interval, how many accepted ones cover it. */
    static lemma WindowLoads(h: seq<nat>, clock: nat, now: nat, last: nat, reqs: seq<Interval>, chosen: seq<bool>)
      requires |h| > 0 && |chosen| == |reqs| && HistoryIsLoad(h, clock, reqs, chosen)
      requires clock <= now && (now == clock || now < |h|) && last <= now < last + |h|
      requires forall i :: 0 <= i < |reqs| ==> reqs[i].hi <= clock
      ensures forall t: nat {:trigger Load(reqs, chosen, t)} :: now < t + |h| && t < now ==> h[Slot(t, |h|)] == Load(reqs, chosen, t)
    {
      forall t: nat | now < t + |h| && t < now
        ensures h[Slot(t, |h|)] == Load(reqs, chosen, t)
      {
        if t >= clock {
          NothingAfter(reqs, chosen, clock, t);
        }
      }
    }

    /** h with the slots of the times from last up to p raised by one. */
    static ghost predicate Raised(h0: seq<nat>, h: seq<nat>, last: nat, p: nat, now: nat)
      requires |h0| > 0
    {
      && |h| == |h0|
      && (forall t: nat :: now < t + |h| && t < now ==>
            h[Slot(t, |h|)] == h0[Slot(t, |h|)] + if last <= t < p then 1 else 0)
      && forall t: nat :: now <= t < |h| ==> h[t] == h0[t]
    }

    static lemma RaiseOne(h0: seq<nat>, h: seq<nat>, last: nat, p: nat, now: nat)
      requires |h0| > 0 && Raised(h0, h, last, p, now) && last <= p < now < last + |h0|
      ensures Raised(h0, h[Slot(p, |h|) := h[Slot(p, |h|)] + 1], last, p + 1, now)
    {
      var h' := h[Slot(p, |h|) := h[Slot(p, |h|)] + 1];
      forall t: nat | now < t + |h| && t < now
        ensures h'[Slot(t, |h|)] == h0[Slot(t, |h|)] + if last <= t < p + 1 then 1 else 0
      {
        if Slot(t, |h|) == Slot(p, |h|) {
          if t <= p { SlotInjective(t, p, |h|); } else { SlotInjective(p, t, |h|); }
        }
      }
    }

    static lemma LoadAppend(reqs: seq<Interval>, chosen: seq<bool>, r: Interval, b: bool, t: int)
      requires |chosen| == |reqs|
      ensures Load(reqs + [r], chosen + [b], t) == Load(reqs, chosen, t) + if b && r.Covers(t) then 1 else 0
    {
      assert (reqs + [r])[..|reqs|] == reqs && (chosen + [b])[..|chosen|] == chosen;
    }

    /** Recording the answer keeps the ring equal to the loads. */
    static lemma Recorded(h0: seq<nat>, h: seq<nat>, clock: nat, now: nat, last: nat, isCache: bool,
                          reqs: seq<Interval>, chosen: seq<bool>)
      requires |h0| > 0 && |chosen| == |reqs| && HistoryIsLoad(h0, clock, reqs, chosen)
      requires clock <= now && (now == clock || now < |h0|) && last <= now < last + |h0|
      requires forall i :: 0 <= i < |reqs| ==> reqs[i].hi <= clock
      requires Raised(h0, h, last, if isCache then now else last, now)
      ensures HistoryIsLoad(h, now, reqs + [Interval(last, now)], chosen + [isCache])
    {
      WindowLoads(h0, clock, now, last, reqs, chosen);
      forall t: nat | now < t + |h| && t < now
        ensures h[Slot(t, |h|)] == Load(reqs + [Interval(last, now)], chosen + [isCache], t)
      {
        LoadAppend(reqs, chosen, Interval(last, now), isCache, t);
        assert h[Slot(t, |h|)] == h0[Slot(t, |h|)] + if last <= t < (if isCache then now else last) then 1 else 0;
      }
    }

    static lemma AnsweredNext(reqs: seq<Interval>, clock: nat, cap: nat, hits: nat, misses: nat, r: Interval)
      requires Answered(reqs, clock, cap, hits, misses) && clock <= r.hi
      ensures var b := Fits(reqs, Greedy(reqs, cap), r, cap);
              && Greedy(reqs + [r], cap) == Greedy(reqs, cap) + [b]
              && Answered(reqs + [r], r.hi, cap, hits + if b then 1 else 0, misses + if b then 0 else 1)
    {
      assert (reqs + [r])[..|reqs|] == reqs;
      var b := Fits(reqs, Greedy(reqs, cap), r, cap);
      assert (Greedy(reqs, cap) + [b])[..|reqs|] == Greedy(reqs, cap);
    }

    /** Answers whether the reuse from `last` to `now` is one an optimal cache keeps. */
    method ShouldCache(currQuanta: nat, lastQuanta: nat, ghost now: nat, ghost last: nat) returns (isCache: bool)
      requires Valid() && NextTime(now) && last <= now < last + livenessHistory.Length
      requires currQuanta == Slot(now, livenessHistory.Length) && lastQuanta == Slot(last, livenessHistory.Length)
      modifies this`numCache, this`numDontCache, this`reqs, this`clock, livenessHistory
      ensures Valid() && clock == now && reqs == old(reqs) + [Interval(last, now)]
      ensures isCache <==> Fits(old(reqs), Greedy(old(reqs), cacheSize), Interval(last, now), cacheSize)
    {
      hide HistoryIsLoad, Answered, Fits, Greedy;
      ghost var reqs';
      isCache, reqs' := ScanAndRaise(currQuanta, lastQuanta, now, last);
      ghost var h := livenessHistory[..];
      Tally(isCache);
      reqs, clock := reqs', now;
      assert livenessHistory[..] == h;
    }

    method Tally(isCache: bool)
      modifies this`numCache, this`numDontCache
      ensures numCache == old(numCache) + if isCache then 1 else 0
      ensures numDontCache == old(numDontCache) + if isCache then 0 else 1
    {
      if isCache {
        numCache := numCache + 1;
      } else {
        numDontCache := numDontCache + 1;
      }
    }

    /** Both loops: decide, then make the ring count the interval if it was accepted. */
    method ScanAndRaise(currQuanta: nat, lastQuanta: nat, ghost now: nat, ghost last: nat)
      returns (isCache: bool, ghost reqs': seq<Interval>)
      requires Valid() && NextTime(now) && last <= now < last + livenessHistory.Length
      requires currQuanta == Slot(now, livenessHistory.Length) && lastQuanta == Slot(last, livenessHistory.Length)
      modifies livenessHistory
      ensures isCache <==> Fits(reqs, Greedy(reqs, cacheSize), Interval(last, now), cacheSize)
      ensures reqs' == reqs + [Interval(last, now)]
      ensures HistoryIsLoad(livenessHistory[..], now, reqs', Greedy(reqs', cacheSize))
      ensures Answered(reqs', now, cacheSize,
                       numCache + if isCache then 1 else 0, numDontCache + if isCache then 0 else 1)
    {
      ghost var h0, chosen := livenessHistory[..], Greedy(reqs, cacheSize);
      isCache := ScanWindow(currQuanta, lastQuanta, now, last);
      if isCache {
        RaiseWindow(currQuanta, lastQuanta, now, last);
      }
      Recorded(h0, livenessHistory[..], clock, now, last, isCache, reqs, chosen);
      AnsweredNext(reqs, clock, cacheSize, numCache, numDontCache, Interval(last, now));
      reqs' := reqs + [Interval(last, now)];
    }

    /** First loop: is some slot of the interval already full? */
    method ScanWindow(currQuanta: nat, lastQuanta: nat, ghost now: nat, ghost last: nat) returns (isCache: bool)
      requires Valid() && NextTime(now) && last <= now < last + livenessHistory.Length
      requires currQuanta == Slot(now, livenessHistory.Length) && lastQuanta == Slot(last, livenessHistory.Length)
      ensures isCache <==> Fits(reqs, Greedy(reqs, cacheSize), Interval(last, now), cacheSize)
    {
      ghost var w := livenessHistory.Length;
      ghost var chosen := Greedy(reqs, cacheSize);
      WindowLoads(livenessHistory[..], clock, now, last, reqs, chosen);
      isCache := true;
      var i := lastQuanta;
      ghost var p := last;
      while i != currQuanta
        invariant last <= p <= now && i == Slot(p, w)
        invariant forall t :: last <= t < p ==> Load(reqs, chosen, t) < cacheSize
        decreases now - p
      {
        assert livenessHistory[..][Slot(p, w)] == Load(reqs, chosen, p);
        if livenessHistory[i] >= cacheSize {
          isCache := false;
          return;
        }
        SlotNext(p, w);
        i := (i + 1) % livenessHistory.Length;
        p := p + 1;
      }
      SlotInjective(p, now, w);
    }

    /** Second loop: the accepted interval raises every slot it covers, and no other. */
    method RaiseWindow(currQuanta: nat, lastQuanta: nat, ghost now: nat, ghost last: nat)
      requires livenessHistory.Length > 0 && last <= now < last + livenessHistory.Length
      requires currQuanta == Slot(now, livenessHistory.Length) && lastQuanta == Slot(last, livenessHistory.Length)
      modifies livenessHistory
      ensures Raised(old(livenessHistory[..]), livenessHistory[..], last, now, now)
    {
      ghost var w := livenessHistory.Length;
      ghost var h0 := livenessHistory[..];
      var i := lastQuanta;
      ghost var p := last;
      while i != currQuanta
        invariant last <= p <= now && i == Slot(p, w)
        invariant Raised(h0, livenessHistory[..], last, p, now)
        decreases now - p
      {
        ghost var h := livenessHistory[..];
        RaiseOne(h0, h, last, p, now);
        livenessHistory[i] := livenessHistory[i] + 1;
        assert livenessHistory[..] == h[Slot(p, w) := h[Slot(p, w)] + 1];
        SlotNext(p, w);
        i := (i + 1) % livenessHistory.Length;
        p := p + 1;
      }
      SlotInjective(p, now, w);
    }

    /** The number of hits reported is the largest any selection of the reuses asked about could
        reach with cacheSize ways, and the ring never counts more than cacheSize. */
    method GetNumOptHits() returns (hits: nat)
      requires Valid()
      ensures exists best :: Feasible(reqs, best, cacheSize) && Count(best) == hits
      ensures forall other :: Feasible(reqs, other, cacheSize) ==> Count(other) <= hits
    {
      GreedyFeasible(reqs, cacheSize);
      forall other | Feasible(reqs, other, cacheSize)
        ensures Count(other) <= numCache
      {
        GreedyOptimal(reqs, other, cacheSize);
      }
      hits := numCache;
    }

    lemma NeverOverCapacity(t: nat)
      requires Valid() && clock < t + livenessHistory.Length && t < clock
      ensures livenessHistory[Slot(t, livenessHistory.Length)] == Load(reqs, Greedy(reqs, cacheSize), t) <= cacheSize
    {
      GreedyFeasible(reqs, cacheSize);
      assert livenessHistory[..][Slot(t, livenessHistory.Length)] == Load(reqs, Greedy(reqs, cacheSize), t);
    }
  }
}
