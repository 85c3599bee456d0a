/** The bucket structure itself: the fields of BucketQueue.Q updated in place. */
module Buckets {
  import opened Pigeonhole
  import opened BucketQueue
  import opened Arith

  class Buckets {
    const open: nat
    var bkts: seq<seq<nat>>
    var curBkt: nat
    var curRange: nat
    var numElms: nat
    /** The caller's map from identifiers to bucket numbers. */
    var d: seq<nat>

    ghost function State(): Q
      reads this
    {
      Q(open, curRange, curBkt, bkts, d)
    }

    ghost predicate Valid()
      reads this
    {
      Inv(State()) && numElms == Entries(bkts)
    }

    constructor (open: nat, d: seq<nat>)
      requires 0 < open < NullBkt && d != []
      requires forall x: nat :: x < |d| ==> d[x] <= NullBkt
      ensures Valid() && this.open == open && this.d == d
      ensures Live(State()) == set x: nat | x < |d| && d[x] != NullBkt
    {
      this.open := open;
      this.d := d;
      curBkt, numElms := 0, 0;
      bkts := seq(open + 1, _ => []);
      new;
      var ids := seq(|d|, k => k);
      var least := Least(ids);
      curRange := least / open;
      var dests := InitialDests(open, curRange, d);
      ghost var empty := State();
      forall k | 0 <= k < |d|
        ensures dests[k] == NullBkt || dests[k] < |bkts|
      {
        DestInRange(open, curRange, d[k]);
      }
      var _ := UpdateBucketsSeq(ids, dests);
      AllEmpty(empty.bkts);
      WindowAtLeast(empty, least, ids);
      InitKeeps(empty, ids, dests);
    }

    /** The least bucket number of the identifiers. */
    method Least(ids: seq<nat>) returns (least: nat)
      requires ids != [] && forall k :: 0 <= k < |ids| ==> ids[k] < |d|
      ensures IsLeast(d, ids, least)
    {
      least := d[ids[0]];
      for i := 1 to |ids|
        invariant forall k :: 0 <= k < i ==> least <= d[ids[k]]
        invariant exists k :: 0 <= k < i && d[ids[k]] == least
      {
        if d[ids[i]] < least {
          least := d[ids[i]];
        }
      }
    }

    /** Stores the identifiers in their destination buckets; the null destination stores nothing. */
    method UpdateBucketsSeq(ids: seq<nat>, dests: seq<nat>) returns (added: nat)
      requires |ids| == |dests| && |bkts| <= NullBkt
      requires forall k :: 0 <= k < |dests| ==> dests[k] == NullBkt || dests[k] < |bkts|
      modifies this`bkts, this`numElms
      ensures bkts == InsertAll(old(bkts), ids, dests)
      ensures added == Entries(bkts) - Entries(old(bkts)) && numElms == old(numElms) + added
    {
      ghost var before := bkts;
      var neBefore := numElms;
      assert ids[..0] == [] && dests[..0] == [];
      for i := 0 to |ids|
        invariant bkts == InsertAll(before, ids[..i], dests[..i])
        invariant neBefore <= numElms && numElms - neBefore == Entries(bkts) - Entries(before)
      {
        assert ids[..i + 1][..i] == ids[..i] && dests[..i + 1][..i] == dests[..i];
        InsertIfEntries(bkts, dests[i], ids[i]);
        if dests[i] != NullBkt {
          bkts := Insert(bkts, dests[i], ids[i]);
          numElms := numElms + 1;
        }
      }
      assert ids[..|ids|] == ids && dests[..|dests|] == dests;
      added := numElms - neBefore;
    }

    /**
     * A caller's round: it lowers bucket numbers, asks for the destination of each move, and
     * hands in the whole batch at the end.
     */
    method MoveAll(moves: seq<(nat, nat)>)
      requires Valid() && LegalMoves(State(), moves)
      modifies this
      ensures Valid() && State() == Moved(old(State()), moves)
      ensures Live(State()) == old(Live(State())) + Ids(moves)
    {
      ghost var q := State();
      var ids, dests := Lower(moves);
      var _ := UpdateBucketsSeq(ids, dests);
      MovesKeep(q, moves);
    }

    /** The caller's part of a round: new numbers, and the destination of each move. */
    method Lower(moves: seq<(nat, nat)>) returns (ids: seq<nat>, dests: seq<nat>)
      requires InRange(State(), moves) && open < NullBkt
      modifies this`d
      ensures |ids| == |dests| && d == Moved(old(State()), moves).d
      ensures forall k :: 0 <= k < |dests| ==> dests[k] == NullBkt || dests[k] < |bkts|
      ensures Moved(old(State()), moves).bkts == InsertAll(bkts, ids, dests)
    {
      ghost var q := State();
      ids, dests := [], [];
      assert moves[..0] == [];
      for i := 0 to |moves|
        invariant |ids| == |dests| == i && d == Moved(q, moves[..i]).d
        invariant forall k :: 0 <= k < i ==> dests[k] == NullBkt || dests[k] < |bkts|
        invariant Moved(q, moves[..i]).bkts == InsertAll(bkts, ids, dests)
      {
        assert moves[..i + 1][..i] == moves[..i];
        var (x, next) := moves[i];
        var dest := GetBucket(open, curRange, curBkt, d[x], next);
        GetBucketRange(open, curRange, curBkt, d[x], next);
        assert (ids + [x])[..i] == ids && (dests + [dest])[..i] == dests;
        d := d[x := next];
        ids, dests := ids + [x], dests + [dest];
      }
      assert moves[..|moves|] == moves;
    }

    /**
     * The window moves on and the overflow list is dealt out again.  The source ends the program
     * when the list is not all that is stored; that exit is never taken.
     */
    method Unpack() returns (mismatch: bool)
      requires curBkt == open > 0 && numElms == Entries(bkts) > 0
      requires Spent(State().(cur := open - 1))
      modifies this`bkts, this`curRange, this`numElms
      ensures !mismatch
      ensures numElms == Entries(bkts)
      ensures Redealt(old(State()).(cur := open - 1), State().(cur := 0))
    {
      ghost var q := State().(cur := open - 1);
      var m := |bkts[open]|;
      var tmp := bkts[open];
      curRange := curRange + 1;
      bkts := bkts[open := []];
      EntriesOfLast(q.bkts);
      AllEmpty(bkts);
      mismatch := m != numElms;
      if mismatch {
        return;
      }
      StoredInRange(q, open);
      ghost var dests, least := Redistribute(q, tmp);
      DealtKeeps(q, dests, least, State().(cur := 0));
      numElms := numElms - m;
    }

    /** Deals the overflow list out again, and jumps ahead if none of it falls into the window. */
    method Redistribute(ghost q: Q, tmp: seq<nat>) returns (ghost dests: seq<nat>, ghost least: nat)
      requires Spent(q) && q.cur + 1 == q.open == open && q.d == d && tmp == q.bkts[open]
      requires bkts == q.bkts[open := []] && Entries(bkts) == 0 && curRange == q.range + 1
      modifies this`bkts, this`curRange, this`numElms
      ensures numElms == old(numElms) + Entries(bkts)
      ensures Dealt(q, dests, least, State().(cur := 0))
    {
      StoredInRange(q, open);
      var to := DestsOf(open, curRange, d, tmp);
      forall k | 0 <= k < |tmp|
        ensures to[k] == NullBkt || to[k] < |bkts|
      {
        DestInRange(open, curRange, d[tmp[k]]);
      }
      var updated := UpdateBucketsSeq(tmp, to);
      dests, least := to, 0;
      ghost var q1 := State().(cur := 0);
      assert Unpacked(q, dests, q1);
      var numInRange := updated - |bkts[open]|;
      if numInRange == 0 && |bkts[open]| > 0 {
        DealtInRange(q, dests, q1);
        var minBkt := Least(bkts[open]);
        JumpRoom(q, dests, q1, minBkt);
        curRange := minBkt / open - 1;
        least := minBkt;
      }
    }

    /** The scan's next slot, or the next window after the last one. */
    method Advance()
      requires Valid() && bkts[curBkt] == [] && numElms > 0
      modifies this`bkts, this`curRange, this`numElms, this`curBkt
      ensures Valid() && Live(State()) == old(Live(State())) && old(State().CurNum()) <= State().CurNum()
      ensures numElms <= old(numElms)
      ensures numElms == old(numElms) ==>
                Phase(State()) < old(Phase(State())) || (Phase(State()) == old(Phase(State())) && curBkt > old(curBkt))
    {
      ghost var q := State();
      curBkt := curBkt + 1;
      if curBkt == open {
        assert forall b: nat :: b < open ==> q.bkts[b] == [];
        var mismatch := Unpack();
        curBkt := 0;
      } else {
        SkipKeeps(q);
        SkipPhase(q);
      }
    }

    /** The identifiers stored in the current bucket whose number is the current one. */
    method GetCurBucket() returns (num: nat, ids: seq<nat>)
      requires Valid() && bkts[curBkt] != []
      modifies this`bkts, this`curRange, this`numElms, this`curBkt
      ensures Valid() && NextSpec(old(State()), State(), num, ids)
      decreases numElms, 0
    {
      ghost var q := State();
      var bkt := bkts[curBkt];
      EntriesZero(bkts, curBkt);
      EntriesUpdate(bkts, curBkt, []);
      numElms := numElms - |bkt|;
      num := curRange * open + curBkt;
      StoredInRange(q, curBkt);
      ids := FilterNum(bkt, num);
      TakeKeeps(q, ids);
      TakeLive(q, ids);
      TakeReturns(q, ids);
      bkts := bkts[curBkt := []];
      ghost var q1 := State();
      if ids == [] {
        num, ids := NextBucket();
        NoneTaken(q, q1, State(), num, ids);
      } else {
        SomeTaken(q, num, ids);
      }
    }

    method FilterNum(bkt: seq<nat>, num: nat) returns (ids: seq<nat>)
      requires NoRepeat(bkt) && forall k :: 0 <= k < |bkt| ==> bkt[k] < |d|
      ensures NoRepeat(ids) && forall x: nat :: x in ids <==> x in bkt && d[x] == num
    {
      ids := [];
      for i := 0 to |bkt|
        invariant NoRepeat(ids) && forall x: nat :: x in ids <==> x in bkt[..i] && d[x] == num
      {
        assert bkt[..i + 1] == bkt[..i] + [bkt[i]];
        if d[bkt[i]] == num {
          ids := ids + [bkt[i]];
        }
      }
      assert bkt[..|bkt|] == bkt;
    }

    /** The live identifiers with the least bucket number, or the null bucket if there are none. */
    method NextBucket() returns (num: nat, ids: seq<nat>)
      requires Valid()
      modifies this`bkts, this`curRange, this`numElms, this`curBkt
      ensures Valid() && NextSpec(old(State()), State(), num, ids)
      decreases numElms, 1
    {
      ghost var q := State();
      while bkts[curBkt] == [] && numElms > 0
        invariant Valid() && d == q.d && Live(State()) == Live(q) && q.CurNum() <= State().CurNum()
        invariant numElms <= old(numElms)
        decreases numElms, Phase(State()), open - curBkt
      {
        Advance();
      }
      if numElms == 0 {
        NoneLeft(State());
        return NullBkt, [];
      }
      num, ids := GetCurBucket();
    }
  }
}
