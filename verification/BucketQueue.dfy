/**
 * Lazy bucketing in increasing order.  A window of open buckets slides over the bucket numbers,
 * everything beyond it waits in one overflow bucket, and entries of identifiers that have moved
 * on are left behind and filtered out later.
 */
module BucketQueue {
  import opened Pigeonhole
  import opened Arith

  const NullBkt: nat := 0xFFFF_FFFF

  /** The structure's fields and the caller's map d from identifiers to bucket numbers. */
  datatype Q = Q(open: nat, range: nat, cur: nat, bkts: seq<seq<nat>>, d: seq<nat>) {
    function Base(): nat { range * open }
    function CurNum(): nat { Base() + cur }
  }

  /** The slot of a bucket number: inside the window, or the overflow bucket. */
  function ToRange(open: nat, range: nat, bkt: nat): nat
    requires open > 0
  {
    if bkt < range * open then NullBkt
    else if bkt < (range + 1) * open then bkt % open else open
  }

  lemma ToRangeIs(open: nat, range: nat, bkt: nat)
    requires open > 0
    ensures ToRange(open, range, bkt) ==
              if bkt < range * open then NullBkt
              else if bkt < range * open + open then bkt - range * open else open
  {
    assert (range + 1) * open == range * open + open;
    if range * open <= bkt < range * open + open {
      assert bkt == open * range + (bkt - range * open);
      DivMod(bkt, open, range, bkt - range * open);
    }
  }

  ghost function Slot(q: Q, b: nat): nat
    requires q.Base() <= b
  {
    if b < q.Base() + q.open then b - q.Base() else q.open
  }

  /** x has an entry where its current bucket number says it should be. */
  ghost predicate Home(q: Q, x: nat)
    requires |q.bkts| == q.open + 1
  {
    x < |q.d| && q.d[x] != NullBkt && q.d[x] >= q.Base() && x in q.bkts[Slot(q, q.d[x])]
  }

  /** Identifiers still to be returned. */
  ghost function Live(q: Q): set<nat>
    requires |q.bkts| == q.open + 1
  {
    set x: nat | x < |q.d| && Home(q, x)
  }

  ghost predicate Has(q: Q, b: nat, x: nat) { b < |q.bkts| && x in q.bkts[b] }

  ghost predicate Inv(q: Q) {
    && 0 < q.open < NullBkt && |q.bkts| == q.open + 1 && q.cur < q.open
    && (forall x: nat :: x < |q.d| ==> q.d[x] <= NullBkt)
    // entries belong to identifiers with a bucket, and open buckets hold no number too small
    && (forall b: nat, x: nat :: Has(q, b, x) ==>
          x < |q.d| && q.d[x] != NullBkt && (b < q.open ==> q.d[x] <= q.Base() + b))
    && (forall b: nat :: b < q.cur ==> q.bkts[b] == [])
    && (forall b: nat :: b <= q.open ==> NoRepeat(q.bkts[b]))
    // nothing that is still ahead has been lost
    && (forall x: nat :: x < |q.d| && q.d[x] != NullBkt && q.d[x] > q.CurNum() ==> Home(q, x))
  }

  ghost function Entries(bkts: seq<seq<nat>>): nat {
    if bkts == [] then 0 else |bkts[0]| + Entries(bkts[1..])
  }

  lemma {:induction false} EntriesUpdate(bkts: seq<seq<nat>>, b: nat, s: seq<nat>)
    requires b < |bkts|
    ensures Entries(bkts[b := s]) == Entries(bkts) - |bkts[b]| + |s|
  {
    if b == 0 {
      assert bkts[b := s][1..] == bkts[1..];
    } else {
      assert bkts[b := s][1..] == bkts[1..][b - 1 := s];
      EntriesUpdate(bkts[1..], b - 1, s);
    }
  }

  lemma {:induction false} EntriesOfLast(bkts: seq<seq<nat>>)
    requires bkts != [] && forall b :: 0 <= b < |bkts| - 1 ==> bkts[b] == []
    ensures Entries(bkts) == |bkts[|bkts| - 1]|
  {
    if |bkts| > 1 {
      EntriesOfLast(bkts[1..]);
    } else {
      assert bkts[1..] == [];
    }
  }

  lemma {:induction false} EntriesZero(bkts: seq<seq<nat>>, b: nat)
    requires b < |bkts|
    ensures |bkts[b]| <= Entries(bkts)
  {
    if b > 0 {
      EntriesZero(bkts[1..], b - 1);
    }
  }

  lemma {:induction false} AllEmpty(bkts: seq<seq<nat>>)
    requires forall b: nat :: b < |bkts| ==> bkts[b] == []
    ensures Entries(bkts) == 0
  {
    if bkts != [] {
      AllEmpty(bkts[1..]);
    }
  }

  // ---- moving an identifier ----

  /** Where an identifier that moves from prev to next has to be inserted, if anywhere. */
  function GetBucket(open: nat, range: nat, cur: nat, prev: nat, next: nat): nat
    requires open > 0
  {
    var pb := ToRange(open, range, prev);
    var nb := ToRange(open, range, next);
    if nb != NullBkt && (prev == NullBkt || pb != nb || nb == cur) then nb else NullBkt
  }

  lemma GetBucketRange(open: nat, range: nat, cur: nat, prev: nat, next: nat)
    requires 0 < open < NullBkt
    ensures var r := GetBucket(open, range, cur, prev, next); r == NullBkt || r <= open
  {
    ToRangeIs(open, range, next);
  }

  function Insert(bkts: seq<seq<nat>>, b: nat, x: nat): seq<seq<nat>>
    requires b < |bkts|
  {
    bkts[b := bkts[b] + [x]]
  }

  /** The structure after the caller has moved x to bucket `next`. */
  ghost function MoveOne(q: Q, x: nat, next: nat): Q
    requires q.open > 0 && |q.bkts| == q.open + 1 && x < |q.d|
  {
    var dest := GetBucket(q.open, q.range, q.cur, q.d[x], next);
    q.(d := q.d[x := next], bkts := if dest < |q.bkts| then Insert(q.bkts, dest, x) else q.bkts)
  }

  /** What callers promise: only to smaller buckets, and not below the current one. */
  ghost predicate LegalMove(q: Q, x: nat, next: nat) {
    x < |q.d| && q.CurNum() <= next < q.d[x]
  }

  lemma MoveDest(q: Q, x: nat, next: nat)
    requires Inv(q) && LegalMove(q, x, next)
    ensures var dest := GetBucket(q.open, q.range, q.cur, q.d[x], next);
            if q.d[x] != NullBkt && next >= q.Base() + q.open then dest == NullBkt
            else dest == Slot(q, next) < |q.bkts|
  {
    ToRangeIs(q.open, q.range, next);
    ToRangeIs(q.open, q.range, q.d[x]);
  }

  lemma MoveHasEntries(q: Q, x: nat, next: nat)
    requires Inv(q) && LegalMove(q, x, next)
    ensures var q' := MoveOne(q, x, next);
            && |q'.bkts| == |q.bkts|
            && (forall b: nat, y: nat :: Has(q', b, y) <==> Has(q, b, y) || (y == x && b == Slot(q, next)))
            && (Has(q, Slot(q, next), x) ==> q'.bkts == q.bkts)
  {
    MoveDest(q, x, next);
    var q' := MoveOne(q, x, next);
    var s := Slot(q, next);
    if q.d[x] != NullBkt && next >= q.Base() + q.open {
      assert Home(q, x);
    } else {
      assert !Has(q, s, x);
      assert q'.bkts[s] == q.bkts[s] + [x];
      forall b: nat, y: nat
        ensures Has(q', b, y) <==> Has(q, b, y) || (y == x && b == s)
      {
        if b == s {
          assert y in q'.bkts[s] <==> y in q.bkts[s] || y == x;
        }
      }
    }
  }

  /** A legal move keeps the invariant, makes x live, and changes nobody else. */
  lemma MoveKeeps(q: Q, x: nat, next: nat)
    requires Inv(q) && LegalMove(q, x, next)
    ensures Inv(MoveOne(q, x, next)) && Live(MoveOne(q, x, next)) == Live(q) + {x}
  {
    var q' := MoveOne(q, x, next);
    MoveDest(q, x, next);
    MoveHasEntries(q, x, next);
    forall y: nat
      ensures Home(q', y) <==> Home(q, y) || y == x
    {
      if y == x {
        assert Has(q', Slot(q', next), x);
      } else if y < |q.d| && q.d[y] >= q.Base() {
        assert Has(q', Slot(q, q.d[y]), y) <==> Has(q, Slot(q, q.d[y]), y);
      }
    }
    forall b: nat | b <= q.open
      ensures NoRepeat(q'.bkts[b])
    {
    }
  }

  // ---- inserting a batch ----

  /** Destinations at or past the end (the null destination) are skipped. */
  ghost function InsertIf(bkts: seq<seq<nat>>, b: nat, x: nat): (r: seq<seq<nat>>)
    ensures |r| == |bkts|
  {
    if b < |bkts| then Insert(bkts, b, x) else bkts
  }

  ghost function InsertAll(bkts: seq<seq<nat>>, ids: seq<nat>, dests: seq<nat>): (r: seq<seq<nat>>)
    requires |ids| == |dests|
    ensures |r| == |bkts|
  {
    if ids == [] then bkts
    else
      var k := |ids| - 1;
      InsertIf(InsertAll(bkts, ids[..k], dests[..k]), dests[k], ids[k])
  }

  ghost predicate Sent(ids: seq<nat>, dests: seq<nat>, b: nat, x: nat)
    requires |ids| == |dests|
  {
    exists k :: 0 <= k < |ids| && ids[k] == x && dests[k] == b
  }

  lemma {:induction false} InsertAllHas(bkts: seq<seq<nat>>, ids: seq<nat>, dests: seq<nat>, b: nat)
    requires |ids| == |dests| && b < |bkts|
    ensures forall x: nat :: x in InsertAll(bkts, ids, dests)[b] <==> x in bkts[b] || Sent(ids, dests, b, x)
  {
    if ids != [] {
      var k := |ids| - 1;
      InsertAllHas(bkts, ids[..k], dests[..k], b);
      var mid := InsertAll(bkts, ids[..k], dests[..k]);
      var all := InsertAll(bkts, ids, dests);
      assert all[b] == if dests[k] == b then mid[b] + [ids[k]] else mid[b];
      forall x: nat
        ensures Sent(ids, dests, b, x) <==> Sent(ids[..k], dests[..k], b, x) || (ids[k] == x && dests[k] == b)
      {
        if Sent(ids, dests, b, x) {
          var i :| 0 <= i < |ids| && ids[i] == x && dests[i] == b;
          assert i < k ==> ids[..k][i] == x && dests[..k][i] == b;
        }
        if Sent(ids[..k], dests[..k], b, x) {
          var i :| 0 <= i < k && ids[..k][i] == x && dests[..k][i] == b;
          assert ids[i] == x && dests[i] == b;
        }
      }
    }
  }

  /** Distinct identifiers put into an empty bucket leave no repeats. */
  lemma {:induction false} InsertAllDistinct(bkts: seq<seq<nat>>, ids: seq<nat>, dests: seq<nat>, b: nat)
    requires |ids| == |dests| && b < |bkts| && bkts[b] == [] && NoRepeat(ids)
    ensures NoRepeat(InsertAll(bkts, ids, dests)[b])
  {
    if ids != [] {
      var k := |ids| - 1;
      InsertAllDistinct(bkts, ids[..k], dests[..k], b);
      InsertAllHas(bkts, ids[..k], dests[..k], b);
      var mid := InsertAll(bkts, ids[..k], dests[..k]);
      assert ids[k] !in mid[b];
    }
  }

  /** A batch stores at most one entry per identifier, and all of them only if none is skipped. */
  lemma {:induction false} InsertAllEntries(bkts: seq<seq<nat>>, ids: seq<nat>, dests: seq<nat>)
    requires |ids| == |dests|
    ensures Entries(bkts) <= Entries(InsertAll(bkts, ids, dests)) <= Entries(bkts) + |ids|
    ensures Entries(InsertAll(bkts, ids, dests)) == Entries(bkts) + |ids| ==>
              forall k :: 0 <= k < |ids| ==> dests[k] < |bkts|
  {
    if ids != [] {
      var k := |ids| - 1;
      InsertAllEntries(bkts, ids[..k], dests[..k]);
      var mid := InsertAll(bkts, ids[..k], dests[..k]);
      InsertIfEntries(mid, dests[k], ids[k]);
      assert forall i :: 0 <= i < k ==> dests[..k][i] == dests[i];
    }
  }

  lemma InsertIfEntries(bkts: seq<seq<nat>>, b: nat, x: nat)
    ensures Entries(InsertIf(bkts, b, x)) == Entries(bkts) + if b < |bkts| then 1 else 0
  {
    if b < |bkts| {
      EntriesUpdate(bkts, b, bkts[b] + [x]);
    }
  }

  // ---- a caller's batch of moves ----

  ghost predicate InRange(q: Q, moves: seq<(nat, nat)>) {
    0 < q.open && |q.bkts| == q.open + 1 && forall i :: 0 <= i < |moves| ==> moves[i].0 < |q.d|
  }

  ghost function Moved(q: Q, moves: seq<(nat, nat)>): (r: Q)
    requires InRange(q, moves)
    ensures r.open == q.open && r.range == q.range && r.cur == q.cur
    ensures |r.bkts| == |q.bkts| && |r.d| == |q.d|
  {
    if moves == [] then q
    else
      var k := |moves| - 1;
      MoveOne(Moved(q, moves[..k]), moves[k].0, moves[k].1)
  }

  ghost predicate LegalMoves(q: Q, moves: seq<(nat, nat)>) {
    && InRange(q, moves)
    && (moves == [] ||
        var k := |moves| - 1;
        LegalMoves(q, moves[..k]) && LegalMove(Moved(q, moves[..k]), moves[k].0, moves[k].1))
  }

  ghost function Ids(moves: seq<(nat, nat)>): set<nat> {
    set i | 0 <= i < |moves| :: moves[i].0
  }

  lemma IdsNext(moves: seq<(nat, nat)>)
    requires moves != []
    ensures Ids(moves) == Ids(moves[..|moves| - 1]) + {moves[|moves| - 1].0}
  {
    var k := |moves| - 1;
    forall x
      ensures x in Ids(moves) <==> x in Ids(moves[..k]) || x == moves[k].0
    {
      if x in Ids(moves) {
        var i :| 0 <= i < |moves| && moves[i].0 == x;
        assert i < k ==> moves[..k][i].0 == x;
      }
      if x in Ids(moves[..k]) {
        var i :| 0 <= i < k && moves[..k][i].0 == x;
        assert moves[i].0 == x;
      }
    }
  }

  /** A batch of legal moves makes its identifiers live and loses nobody. */
  lemma {:induction false} MovesKeep(q: Q, moves: seq<(nat, nat)>)
    requires Inv(q) && LegalMoves(q, moves)
    ensures Inv(Moved(q, moves)) && Live(Moved(q, moves)) == Live(q) + Ids(moves)
  {
    if moves != [] {
      var k := |moves| - 1;
      MovesKeep(q, moves[..k]);
      MoveKeeps(Moved(q, moves[..k]), moves[k].0, moves[k].1);
      IdsNext(moves);
    }
  }

  // ---- moving on ----

  lemma SkipKeeps(q: Q)
    requires Inv(q) && q.bkts[q.cur] == [] && q.cur + 1 < q.open
    ensures Inv(q.(cur := q.cur + 1)) && Live(q.(cur := q.cur + 1)) == Live(q)
  {
    var q' := q.(cur := q.cur + 1);
    assert forall b: nat, x: nat :: Has(q', b, x) <==> Has(q, b, x);
    assert forall x: nat :: Home(q', x) <==> Home(q, x);
  }

  /** All open buckets have been used up. */
  ghost predicate Spent(q: Q) {
    Inv(q) && forall b: nat :: b < q.open ==> q.bkts[b] == []
  }

  /** The overflow list of q dealt out again for the next window. */
  ghost predicate Unpacked(q: Q, dests: seq<nat>, q': Q) {
    && 0 < q.open && |q.bkts| == q.open + 1 && |dests| == |q.bkts[q.open]|
    && (forall k :: 0 <= k < |dests| ==> q.bkts[q.open][k] < |q.d|)
    && (forall k :: 0 <= k < |dests| ==> dests[k] == ToRange(q.open, q.range + 1, q.d[q.bkts[q.open][k]]))
    && q' == q.(range := q.range + 1, cur := 0, bkts := InsertAll(q.bkts[q.open := []], q.bkts[q.open], dests))
  }

  lemma UnpackedHas(q: Q, dests: seq<nat>, q': Q, b: nat, x: nat)
    requires Spent(q) && Unpacked(q, dests, q')
    ensures Has(q', b, x) <==>
              Has(q, q.open, x) && q.d[x] >= q'.Base() && b == Slot(q', q.d[x])
  {
    var old_ := q.bkts[q.open];
    if b <= q.open {
      InsertAllHas(q.bkts[q.open := []], old_, dests, b);
      if x in old_ {
        var k :| 0 <= k < |old_| && old_[k] == x;
        ToRangeIs(q.open, q'.range, q.d[x]);
        assert Sent(old_, dests, b, x) <==> dests[k] == b;
      }
    }
  }

  lemma UnpackKeeps(q: Q, dests: seq<nat>, q': Q)
    requires Spent(q) && q.cur + 1 == q.open && Unpacked(q, dests, q')
    ensures Inv(q') && Live(q') == Live(q)
  {
    forall b: nat, x: nat
      ensures Has(q', b, x) <==> Has(q, q.open, x) && q.d[x] >= q'.Base() && b == Slot(q', q.d[x])
    {
      UnpackedHas(q, dests, q', b, x);
    }
    assert q'.Base() == q.Base() + q.open by {
      assert (q.range + 1) * q.open == q.range * q.open + q.open;
    }
    forall b: nat | b <= q.open
      ensures NoRepeat(q'.bkts[b])
    {
      InsertAllDistinct(q.bkts[q.open := []], q.bkts[q.open], dests, b);
    }
    forall x: nat
      ensures Home(q', x) <==> Home(q, x)
    {
      if x < |q.d| && q.d[x] != NullBkt {
        if q'.Base() <= q.d[x] {
          assert Has(q', Slot(q', q.d[x]), x) <==> Has(q, q.open, x);
        } else if q.d[x] >= q.Base() {
          assert q.bkts[Slot(q, q.d[x])] == [];
        }
      }
    }
  }

  /** With nothing in the window the range may jump to just before the smallest number left. */
  lemma JumpKeeps(q: Q, least: nat)
    requires Spent(q) && q.cur == 0
    requires forall x: nat :: Has(q, q.open, x) ==> least <= q.d[x]
    requires q.Base() + q.open <= least
    ensures least / q.open >= 1
    ensures var q' := q.(range := least / q.open - 1);
            && Spent(q') && Live(q') == Live(q) && q.Base() <= q'.Base()
            && q'.Base() + q.open <= least < q'.Base() + 2 * q.open
  {
    var w := least / q.open;
    assert least == q.open * w + least % q.open;
    var q' := q.(range := w - 1);
    assert q'.Base() + q.open == q.open * w by {
      assert q.open * w == q.open * (w - 1) + q.open;
    }
    BaseMonotone(q, w);
    forall x: nat
      ensures Home(q', x) <==> Home(q, x)
    {
      if Has(q, q.open, x) {
        assert least <= q.d[x];
      }
    }
    assert forall b: nat, x: nat :: Has(q', b, x) <==> Has(q, b, x);
  }

  lemma BaseMonotone(q: Q, w: nat)
    requires w > 0 && 0 < q.open && q.range * q.open < q.open * w
    ensures q.range * q.open <= (w - 1) * q.open
  {
    assert q.range * q.open == q.open * q.range;
    assert (w - 1) * q.open == q.open * (w - 1);
    if w < q.range {
      MulNext(q.open, w, q.range);
    } else if q.range < w - 1 {
      MulNext(q.open, q.range, w - 1);
    }
  }

  // ---- returning a bucket ----

  ghost predicate IsFilter(q: Q, ids: seq<nat>)
    requires q.cur < |q.bkts|
  {
    NoRepeat(ids) && forall x: nat :: x in ids <==> x in q.bkts[q.cur] && x < |q.d| && q.d[x] == q.CurNum()
  }

  ghost function Members(s: seq<nat>): set<nat> { set x | x in s }

  /** A live identifier is ahead, and in the current bucket exactly if its number is current. */
  lemma LiveIsAhead(q: Q, x: nat)
    requires Inv(q) && x in Live(q)
    ensures Has(q, Slot(q, q.d[x]), x) && q.CurNum() <= q.d[x]
    ensures Slot(q, q.d[x]) == q.cur <==> q.d[x] == q.CurNum()
  {
    assert Has(q, Slot(q, q.d[x]), x);
  }

  /** Taking the current bucket returns the live identifiers with the least number, all of them. */
  lemma TakeReturns(q: Q, ids: seq<nat>)
    requires Inv(q) && IsFilter(q, ids)
    ensures forall x :: x in ids <==> x in Live(q) && q.d[x] == q.CurNum()
    ensures forall x :: x in Live(q) ==> q.CurNum() <= q.d[x]
  {
    forall x: nat
      ensures x in ids <==> x in Live(q) && q.d[x] == q.CurNum()
      ensures x in Live(q) ==> q.CurNum() <= q.d[x]
    {
      if x in Live(q) {
        LiveIsAhead(q, x);
      }
      if x in ids {
        assert Has(q, q.cur, x);
      }
    }
  }

  lemma TakeLive(q: Q, ids: seq<nat>)
    requires Inv(q) && IsFilter(q, ids)
    ensures Live(q.(bkts := q.bkts[q.cur := []])) == Live(q) - Members(ids)
  {
    var q' := q.(bkts := q.bkts[q.cur := []]);
    TakeReturns(q, ids);
    forall x: nat
      ensures x in Live(q') <==> x in Live(q) && x !in ids
    {
      if x in Live(q) {
        LiveIsAhead(q, x);
      }
    }
  }

  lemma TakeKeeps(q: Q, ids: seq<nat>)
    requires Inv(q) && IsFilter(q, ids)
    ensures Inv(q.(bkts := q.bkts[q.cur := []]))
  {
    var q' := q.(bkts := q.bkts[q.cur := []]);
    assert forall b: nat, x: nat :: Has(q', b, x) <==> Has(q, b, x) && b != q.cur;
    forall x: nat | x < |q.d| && q.d[x] != NullBkt && q.d[x] > q.CurNum()
      ensures Home(q', x)
    {
      assert Home(q, x);
      assert Has(q, Slot(q, q.d[x]), x);
    }
  }

  /** No entries, nothing live. */
  lemma NoneLeft(q: Q)
    requires Inv(q) && Entries(q.bkts) == 0
    ensures Live(q) == {}
  {
    forall x: nat
      ensures !Home(q, x)
    {
      if Home(q, x) {
        EntriesZero(q.bkts, Slot(q, q.d[x]));
      }
    }
  }

  // ---- progress of the scan ----

  ghost predicate SomeOpen(q: Q) { exists b: nat :: b < q.open && b < |q.bkts| && q.bkts[b] != [] }

  ghost predicate SomeNear(q: Q) { exists x: nat :: Near(q, x) }

  ghost predicate Near(q: Q, x: nat) { Has(q, q.open, x) && x < |q.d| && q.d[x] < q.Base() + 2 * q.open }

  /** How far the scan is from an entry it can reach: in the window, in the next one, or beyond. */
  ghost function Phase(q: Q): nat {
    if SomeOpen(q) then 0 else if SomeNear(q) then 1 else 2
  }

  /** No stale entry in the overflow list: every entry is stored again. */
  lemma NoneDropped(q: Q, dests: seq<nat>, q': Q)
    requires Spent(q) && Unpacked(q, dests, q') && Entries(q'.bkts) == Entries(q.bkts)
    ensures forall k :: 0 <= k < |dests| ==> dests[k] < |q.bkts|
  {
    EntriesOfLast(q.bkts);
    EntriesOfLast(q.bkts[q.open := []]);
    InsertAllEntries(q.bkts[q.open := []], q.bkts[q.open], dests);
  }

  /** Then near entries land in the new window. */
  lemma UnpackProgress(q: Q, dests: seq<nat>, q': Q)
    requires Spent(q) && Unpacked(q, dests, q') && Entries(q'.bkts) == Entries(q.bkts)
    ensures SomeNear(q) ==> SomeOpen(q')
  {
    if SomeNear(q) {
      var x: nat :| Near(q, x);
      NoneDropped(q, dests, q');
      var k :| 0 <= k < |dests| && q.bkts[q.open][k] == x;
      NearLands(q, dests, q', k);
    }
  }

  lemma NearLands(q: Q, dests: seq<nat>, q': Q, k: nat)
    requires Spent(q) && Unpacked(q, dests, q') && k < |dests| && dests[k] < |q.bkts|
    requires Near(q, q.bkts[q.open][k])
    ensures SomeOpen(q')
  {
    NearSlot(q.open, q.range, q.d[q.bkts[q.open][k]]);
    InsertAllHas(q.bkts[q.open := []], q.bkts[q.open], dests, dests[k]);
    assert Sent(q.bkts[q.open], dests, dests[k], q.bkts[q.open][k]);
    assert q'.bkts[dests[k]] != [];
  }

  lemma NearSlot(open: nat, range: nat, bkt: nat)
    requires 0 < open < NullBkt && bkt < range * open + 2 * open
    ensures ToRange(open, range + 1, bkt) == NullBkt || ToRange(open, range + 1, bkt) < open
  {
    ToRangeIs(open, range + 1, bkt);
    assert (range + 1) * open == range * open + open;
  }

  /** All entries are in the overflow bucket exactly if the open ones are empty. */
  lemma {:induction false} AllInLast(bkts: seq<seq<nat>>)
    requires bkts != [] && Entries(bkts) == |bkts[|bkts| - 1]|
    ensures forall b: nat :: b < |bkts| - 1 ==> bkts[b] == []
  {
    if |bkts| > 1 {
      EntriesZero(bkts[1..], |bkts| - 2);
      AllInLast(bkts[1..]);
      assert forall b: nat :: 0 < b < |bkts| ==> bkts[b] == bkts[1..][b - 1];
    }
  }

  /** What the redistribution of the overflow list leaves, before any jump. */
  lemma UnpackTotal(q: Q, dests: seq<nat>, q': Q)
    requires Spent(q) && q.cur + 1 == q.open && Unpacked(q, dests, q')
    ensures Inv(q') && Live(q') == Live(q)
    ensures |q'.bkts[q.open]| <= Entries(q'.bkts) <= Entries(q.bkts)
  {
    UnpackKeeps(q, dests, q');
    UnpackEntries(q, dests, q');
  }

  lemma UnpackLater(q: Q, dests: seq<nat>, q': Q)
    requires q.cur + 1 == q.open && Unpacked(q, dests, q')
    ensures q.CurNum() <= q'.CurNum()
  {
    assert (q.range + 1) * q.open == q.range * q.open + q.open;
  }

  lemma UnpackEntries(q: Q, dests: seq<nat>, q': Q)
    requires Spent(q) && Unpacked(q, dests, q')
    ensures |q'.bkts[q.open]| <= Entries(q'.bkts) <= Entries(q.bkts)
  {
    EntriesOfLast(q.bkts);
    EntriesOfLast(q.bkts[q.open := []]);
    InsertAllEntries(q.bkts[q.open := []], q.bkts[q.open], dests);
    EntriesZero(q'.bkts, q.open);
  }

  lemma SpentEntries(q: Q)
    requires Inv(q)
    ensures Entries(q.bkts) == |q.bkts[q.open]| <==> Spent(q)
  {
    if Entries(q.bkts) == |q.bkts[q.open]| {
      AllInLast(q.bkts);
    } else if Spent(q) {
      EntriesOfLast(q.bkts);
    }
  }

  lemma StoredInRange(q: Q, b: nat)
    requires Inv(q) && b <= q.open
    ensures forall k :: 0 <= k < |q.bkts[b]| ==> q.bkts[b][k] < |q.d|
  {
    forall k | 0 <= k < |q.bkts[b]|
      ensures q.bkts[b][k] < |q.d|
    {
      assert Has(q, b, q.bkts[b][k]);
    }
  }

  /** What one redistribution achieves: nothing live is lost, and the scan is nearer to an entry. */
  ghost predicate Redealt(q: Q, q': Q) {
    && Inv(q) && Inv(q') && Live(q') == Live(q) && q'.d == q.d && q'.open == q.open
    && q.CurNum() <= q'.CurNum()
    && Entries(q'.bkts) <= Entries(q.bkts)
    && (Entries(q'.bkts) == Entries(q.bkts) ==> Phase(q') < Phase(q))
  }

  lemma UnpackNoJump(q: Q, dests: seq<nat>, q': Q)
    requires Spent(q) && q.cur + 1 == q.open && Unpacked(q, dests, q') && Entries(q.bkts) > 0
    requires Entries(q'.bkts) == |q'.bkts[q.open]| ==> q'.bkts[q.open] == []
    ensures Redealt(q, q')
  {
    UnpackTotal(q, dests, q');
    UnpackLater(q, dests, q');
    SpentEntries(q');
    if Entries(q'.bkts) == Entries(q.bkts) {
      var b: nat :| b < q.open && q'.bkts[b] != [];
      assert SomeOpen(q') && !SomeOpen(q);
    }
  }

  ghost predicate IsLeast(d: seq<nat>, ids: seq<nat>, least: nat) {
    && (forall k :: 0 <= k < |ids| ==> ids[k] < |d| && least <= d[ids[k]])
    && exists k :: 0 <= k < |ids| && d[ids[k]] == least
  }

  lemma LeastStored(q: Q, least: nat) returns (x: nat)
    requires |q.bkts| == q.open + 1 && IsLeast(q.d, q.bkts[q.open], least)
    ensures Has(q, q.open, x) && x < |q.d| && q.d[x] == least
    ensures forall y: nat :: Has(q, q.open, y) ==> y < |q.d| && least <= q.d[y]
  {
    var k :| 0 <= k < |q.bkts[q.open]| && q.d[q.bkts[q.open][k]] == least;
    x := q.bkts[q.open][k];
  }

  lemma UnpackJump(q: Q, dests: seq<nat>, q1: Q, least: nat)
    requires Spent(q) && q.cur + 1 == q.open && Unpacked(q, dests, q1)
    requires Entries(q1.bkts) == |q1.bkts[q.open]| && IsLeast(q1.d, q1.bkts[q.open], least)
    ensures least / q.open >= 1 && Redealt(q, q1.(range := least / q.open - 1))
  {
    UnpackTotal(q, dests, q1);
    UnpackLater(q, dests, q1);
    SpentEntries(q1);
    var x := LeastStored(q1, least);
    UnpackedHas(q, dests, q1, q.open, x);
    JumpKeeps(q1, least);
    var q' := q1.(range := least / q.open - 1);
    assert Near(q', x);
    hide Near, Unpacked, IsLeast;
    if Entries(q1.bkts) == Entries(q.bkts) {
      UnpackProgress(q, dests, q1);
    }
  }

  lemma DealtInRange(q: Q, dests: seq<nat>, q1: Q)
    requires Spent(q) && q.cur + 1 == q.open && Unpacked(q, dests, q1)
    ensures forall k :: 0 <= k < |q1.bkts[q.open]| ==> q1.bkts[q.open][k] < |q1.d|
  {
    UnpackKeeps(q, dests, q1);
    StoredInRange(q1, q.open);
  }

  lemma JumpRoom(q: Q, dests: seq<nat>, q1: Q, least: nat)
    requires Spent(q) && q.cur + 1 == q.open && Unpacked(q, dests, q1)
    requires Entries(q1.bkts) == |q1.bkts[q.open]| && IsLeast(q1.d, q1.bkts[q.open], least)
    ensures least / q.open >= 1
  {
    UnpackJump(q, dests, q1, least);
  }

  /** The overflow list dealt out again, followed by a jump if it all went back where it was. */
  ghost predicate Dealt(q: Q, dests: seq<nat>, least: nat, q': Q) {
    exists q1: Q :: Unpacked(q, dests, q1) && JumpedTo(q1, least, q')
  }

  ghost predicate JumpedTo(q: Q, least: nat, q': Q) {
    && |q.bkts| == q.open + 1 && 0 < q.open
    && if Entries(q.bkts) == |q.bkts[q.open]| > 0
       then IsLeast(q.d, q.bkts[q.open], least) && least / q.open >= 1 && q' == q.(range := least / q.open - 1)
       else q' == q
  }

  lemma DealtKeeps(q: Q, dests: seq<nat>, least: nat, q': Q)
    requires Spent(q) && q.cur + 1 == q.open && Entries(q.bkts) > 0 && Dealt(q, dests, least, q')
    ensures Redealt(q, q')
  {
    var q1: Q :| Unpacked(q, dests, q1) && JumpedTo(q1, least, q');
    if Entries(q1.bkts) == |q1.bkts[q.open]| > 0 {
      UnpackJump(q, dests, q1, least);
    } else {
      UnpackNoJump(q, dests, q1);
    }
  }

  /** The destinations of identifiers in the window that starts at range * open. */
  function DestsOf(open: nat, range: nat, d: seq<nat>, ids: seq<nat>): (r: seq<nat>)
    requires open > 0 && forall k :: 0 <= k < |ids| ==> ids[k] < |d|
    ensures |r| == |ids| && forall k :: 0 <= k < |r| ==> r[k] == ToRange(open, range, d[ids[k]])
  {
    seq(|ids|, k requires 0 <= k < |ids| => ToRange(open, range, d[ids[k]]))
  }

  /** The destinations of all identifiers when the structure is first filled. */
  function InitialDests(open: nat, range: nat, d: seq<nat>): (r: seq<nat>)
    requires open > 0
    ensures |r| == |d|
    ensures forall k :: 0 <= k < |r| ==> r[k] == if d[k] != NullBkt then ToRange(open, range, d[k]) else NullBkt
  {
    seq(|d|, k requires 0 <= k < |d| => if d[k] != NullBkt then ToRange(open, range, d[k]) else NullBkt)
  }

  lemma DestInRange(open: nat, range: nat, bkt: nat)
    requires 0 < open < NullBkt
    ensures var r := ToRange(open, range, bkt); r == NullBkt || r <= open
  {
    ToRangeIs(open, range, bkt);
  }

  /** The structure filled from the caller's map, its window starting at or before every number. */
  lemma InitKeeps(q: Q, ids: seq<nat>, dests: seq<nat>)
    requires 0 < q.open < NullBkt && |q.bkts| == q.open + 1 && q.cur == 0
    requires forall b: nat :: b < |q.bkts| ==> q.bkts[b] == []
    requires forall x: nat :: x < |q.d| ==> q.Base() <= q.d[x] <= NullBkt
    requires |ids| == |dests| == |q.d| && forall k :: 0 <= k < |ids| ==> ids[k] == k
    requires dests == InitialDests(q.open, q.range, q.d)
    ensures var q' := q.(bkts := InsertAll(q.bkts, ids, dests));
            Inv(q') && Live(q') == set x: nat | x < |q.d| && q.d[x] != NullBkt
  {
    var q' := q.(bkts := InsertAll(q.bkts, ids, dests));
    forall b: nat, x: nat
      ensures Has(q', b, x) <==> x < |q.d| && q.d[x] != NullBkt && b == Slot(q, q.d[x])
    {
      if b < |q.bkts| {
        InsertAllHas(q.bkts, ids, dests, b);
        if x < |q.d| {
          ToRangeIs(q.open, q.range, q.d[x]);
          assert Sent(ids, dests, b, x) <==> dests[x] == b;
        }
      }
    }
    forall b: nat | b <= q.open
      ensures NoRepeat(q'.bkts[b])
    {
      InsertAllDistinct(q.bkts, ids, dests, b);
    }
    forall x: nat
      ensures Home(q', x) <==> x < |q.d| && q.d[x] != NullBkt
    {
      if x < |q.d| && q.d[x] != NullBkt {
        assert Has(q', Slot(q, q.d[x]), x);
      }
    }
  }

  /** The first window starts at or before every identifier's number. */
  lemma WindowAtLeast(q: Q, least: nat, ids: seq<nat>)
    requires 0 < q.open && q.range == least / q.open
    requires |ids| == |q.d| && (forall k :: 0 <= k < |ids| ==> ids[k] == k) && IsLeast(q.d, ids, least)
    ensures forall x: nat :: x < |q.d| ==> q.Base() <= q.d[x]
  {
    assert least == q.open * (least / q.open) + least % q.open;
    assert q.Base() == q.open * (least / q.open);
    forall x: nat | x < |q.d|
      ensures q.Base() <= q.d[x]
    {
      assert least <= q.d[ids[x]];
    }
  }

  lemma SkipPhase(q: Q)
    ensures Phase(q.(cur := q.cur + 1)) == Phase(q)
  {
    var q' := q.(cur := q.cur + 1);
    assert SomeOpen(q') <==> SomeOpen(q);
    assert forall x: nat :: Near(q', x) <==> Near(q, x);
  }

  // ---- whole runs ----

  /** What one call of NextBucket does. */
  ghost predicate NextSpec(q: Q, q': Q, num: nat, ids: seq<nat>)
    requires Inv(q) && Inv(q')
  {
    && q'.d == q.d && q'.open == q.open && q.CurNum() <= q'.CurNum()
    && NoRepeat(ids)
    && (forall x :: x in ids <==> x in Live(q) && q.d[x] == num)
    && (forall x :: x in Live(q) ==> num <= q.d[x])
    && Live(q') == Live(q) - Members(ids)
    && (Live(q) == {} <==> num == NullBkt)
    && (Live(q) == {} <==> ids == [])
    && (num != NullBkt ==> q'.CurNum() == num)
  }

  /** A bucket of stale entries only: the next bucket counts. */
  lemma NoneTaken(q: Q, q1: Q, q': Q, num: nat, ids: seq<nat>)
    requires Inv(q) && Inv(q1) && Inv(q') && NextSpec(q1, q', num, ids)
    requires q1.d == q.d && q1.open == q.open && q1.CurNum() == q.CurNum() && Live(q1) == Live(q) - Members([])
    ensures NextSpec(q, q', num, ids)
  {
    assert Live(q1) == Live(q);
  }

  lemma SomeTaken(q: Q, num: nat, ids: seq<nat>)
    requires Inv(q) && IsFilter(q, ids) && ids != [] && num == q.CurNum()
    ensures var q' := q.(bkts := q.bkts[q.cur := []]); Inv(q') && NextSpec(q, q', num, ids)
  {
    TakeKeeps(q, ids);
    TakeLive(q, ids);
    TakeReturns(q, ids);
    assert ids[0] in ids;
    assert Has(q, q.cur, ids[0]);
  }

  datatype Event = Move(moves: seq<(nat, nat)>) | Next(num: nat, ids: seq<nat>)

  ghost predicate Step(q: Q, e: Event, q': Q)
    requires Inv(q)
  {
    match e
    case Move(moves) => LegalMoves(q, moves) && q' == Moved(q, moves)
    case Next(num, ids) => Inv(q') && NextSpec(q, q', num, ids)
  }

  /** A run from q through the events to q'. */
  ghost predicate Run(q: Q, es: seq<Event>, q': Q)
    requires Inv(q)
    decreases |es|
  {
    if es == [] then q' == q
    else exists mid: Q :: Run(q, es[..|es| - 1], mid) && Inv(mid) && Step(mid, es[|es| - 1], q')
  }

  /** The identifiers returned by the calls of a run. */
  ghost function Returned(es: seq<Event>): set<nat> {
    if es == [] then {}
    else
      var e := es[|es| - 1];
      Returned(es[..|es| - 1]) + if e.Next? then Members(e.ids) else {}
  }

  /** The identifiers that had a bucket at the start or were given one. */
  ghost function Known(q: Q, es: seq<Event>): set<nat>
    requires Inv(q)
  {
    if es == [] then Live(q)
    else
      var e := es[|es| - 1];
      Known(q, es[..|es| - 1]) + if e.Move? then Ids(e.moves) else {}
  }

  /** What a call returned still has the number it was returned with. */
  ghost predicate Kept(e: Event, q: Q) {
    e.Next? ==>
      && (e.num != NullBkt ==> e.num <= q.CurNum())
      && forall x :: x in e.ids ==> x < |q.d| && q.d[x] == e.num != NullBkt
  }

  ghost predicate Settled(q: Q, es: seq<Event>, q': Q)
    requires Inv(q) && Inv(q')
  {
    && Live(q') + Returned(es) == Known(q, es)
    && Live(q') !! Returned(es)
    && forall i :: 0 <= i < |es| ==> Kept(es[i], q')
  }

  /** Moves touch nobody who has been returned. */
  lemma {:induction false} MovesSpare(q: Q, moves: seq<(nat, nat)>, x: nat)
    requires Inv(q) && LegalMoves(q, moves) && x < |q.d| && q.d[x] <= q.CurNum()
    ensures Moved(q, moves).d[x] == q.d[x] && x !in Ids(moves)
  {
    if moves != [] {
      MovesSpare(q, moves[..|moves| - 1], x);
      IdsNext(moves);
    }
  }

  lemma KeptMove(q: Q, moves: seq<(nat, nat)>, e: Event)
    requires Inv(q) && LegalMoves(q, moves) && Kept(e, q)
    ensures Kept(e, Moved(q, moves))
    ensures e.Next? ==> forall x :: x in e.ids ==> x !in Ids(moves)
  {
    if e.Next? {
      forall x | x in e.ids
        ensures x !in Ids(moves) && Moved(q, moves).d[x] == q.d[x]
      {
        MovesSpare(q, moves, x);
      }
    }
  }

  lemma {:induction false} ReturnedFrom(es: seq<Event>, x: nat)
    requires x in Returned(es)
    ensures exists i :: 0 <= i < |es| && es[i].Next? && x in es[i].ids
  {
    var k := |es| - 1;
    if x in Returned(es[..k]) {
      ReturnedFrom(es[..k], x);
      var i :| 0 <= i < k && es[..k][i].Next? && x in es[..k][i].ids;
      assert es[i].Next? && x in es[i].ids;
    } else {
      assert es[k].Next? && x in es[k].ids;
    }
  }

  lemma {:induction false} ReturnedHas(es: seq<Event>, i: nat, x: nat)
    requires i < |es| && es[i].Next? && x in es[i].ids
    ensures x in Returned(es)
  {
    var k := |es| - 1;
    if i < k {
      ReturnedHas(es[..k], i, x);
    }
  }

  lemma SettledMove(q: Q, es: seq<Event>, mid: Q, moves: seq<(nat, nat)>)
    requires Inv(q) && Inv(mid) && Settled(q, es, mid) && LegalMoves(mid, moves)
    ensures Inv(Moved(mid, moves)) && Settled(q, es + [Move(moves)], Moved(mid, moves))
  {
    MovesKeep(mid, moves);
    var all := es + [Move(moves)];
    assert all[..|all| - 1] == es;
    forall i | 0 <= i < |es|
      ensures Kept(all[i], Moved(mid, moves))
    {
      KeptMove(mid, moves, es[i]);
    }
    forall x | x in Returned(es)
      ensures x !in Ids(moves)
    {
      ReturnedFrom(es, x);
      var i :| 0 <= i < |es| && es[i].Next? && x in es[i].ids;
      KeptMove(mid, moves, es[i]);
    }
  }

  lemma KeptNext(q: Q, q': Q, num: nat, ids: seq<nat>, e: Event)
    requires Inv(q) && Inv(q') && NextSpec(q, q', num, ids)
    ensures Kept(e, q) ==> Kept(e, q')
    ensures Kept(Next(num, ids), q')
  {
  }

  lemma SettledNext(q: Q, es: seq<Event>, mid: Q, num: nat, ids: seq<nat>, q': Q)
    requires Inv(q) && Inv(mid) && Inv(q') && Settled(q, es, mid) && NextSpec(mid, q', num, ids)
    ensures Settled(q, es + [Next(num, ids)], q')
  {
    var all := es + [Next(num, ids)];
    assert all[..|all| - 1] == es;
    forall i | 0 <= i < |all|
      ensures Kept(all[i], q')
    {
      KeptNext(mid, q', num, ids, all[i]);
    }
    NextBalance(q, es, mid, num, ids, q');
  }

  lemma NextBalance(q: Q, es: seq<Event>, mid: Q, num: nat, ids: seq<nat>, q': Q)
    requires Inv(q) && Inv(mid) && Inv(q') && NextSpec(mid, q', num, ids)
    requires Live(mid) + Returned(es) == Known(q, es) && Live(mid) !! Returned(es)
    ensures Live(q') + (Returned(es) + Members(ids)) == Known(q, es)
    ensures Live(q') !! Returned(es) + Members(ids)
  {
    assert Members(ids) <= Live(mid);
  }

  lemma {:induction false} RunSettled(q: Q, es: seq<Event>, q': Q)
    requires Inv(q) && Run(q, es, q')
    ensures Inv(q') && Settled(q, es, q')
    decreases |es|
  {
    if es != [] {
      var k := |es| - 1;
      var mid: Q :| Run(q, es[..k], mid) && Inv(mid) && Step(mid, es[k], q');
      RunSettled(q, es[..k], mid);
      SettledStep(q, es, mid, q');
    }
  }

  lemma SettledStep(q: Q, es: seq<Event>, mid: Q, q': Q)
    requires Inv(q) && Inv(mid) && es != [] && Settled(q, es[..|es| - 1], mid) && Step(mid, es[|es| - 1], q')
    ensures Inv(q') && Settled(q, es, q')
  {
    var k := |es| - 1;
    assert es[..k] + [es[k]] == es;
    match es[k]
    case Move(moves) => SettledMove(q, es[..k], mid, moves);
    case Next(num, ids) => SettledNext(q, es[..k], mid, num, ids, q');
  }

  /** Of two calls the later returns no smaller number and none of the earlier one's identifiers. */
  ghost predicate Precedes(e: Event, f: Event) {
    e.Next? && f.Next? ==>
      && (f.num == NullBkt || (e.num != NullBkt ==> e.num <= f.num))
      && forall x :: x in e.ids ==> x !in f.ids
  }

  ghost predicate Orderly(es: seq<Event>) {
    forall i, j :: 0 <= i < j < |es| ==> Precedes(es[i], es[j])
  }

  lemma {:induction false} RunOrderly(q: Q, es: seq<Event>, q': Q)
    requires Inv(q) && Run(q, es, q')
    ensures Orderly(es)
    decreases |es|
  {
    if es != [] {
      var k := |es| - 1;
      var mid: Q :| Run(q, es[..k], mid) && Inv(mid) && Step(mid, es[k], q');
      RunOrderly(q, es[..k], mid);
      RunSettled(q, es[..k], mid);
      OrderlyStep(q, es, mid, q');
    }
  }

  lemma OrderlyStep(q: Q, es: seq<Event>, mid: Q, q': Q)
    requires Inv(q) && Inv(mid) && es != [] && Step(mid, es[|es| - 1], q')
    requires Settled(q, es[..|es| - 1], mid) && Orderly(es[..|es| - 1])
    ensures Orderly(es)
  {
    var k := |es| - 1;
    forall i, j | 0 <= i < j < |es|
      ensures Precedes(es[i], es[j])
    {
      assert es[..k][i] == es[i];
      if j < k {
        assert es[..k][j] == es[j];
      } else if es[i].Next? && es[k].Next? {
        NextFollows(q, es[..k], mid, i, es[k].num, es[k].ids, q');
      }
    }
  }

  lemma NextFollows(q: Q, es: seq<Event>, mid: Q, i: nat, num: nat, ids: seq<nat>, q': Q)
    requires Inv(q) && Inv(mid) && Inv(q') && Settled(q, es, mid) && NextSpec(mid, q', num, ids)
    requires i < |es| && es[i].Next?
    ensures num == NullBkt || (es[i].num != NullBkt ==> es[i].num <= num)
    ensures forall x :: x in es[i].ids ==> x !in ids
  {
    assert Kept(es[i], mid);
    if num != NullBkt {
      var x := ids[0];
      assert x in ids;
      LiveIsAhead(mid, x);
    }
    forall x | x in es[i].ids
      ensures x !in ids
    {
      ReturnedHas(es, i, x);
    }
  }

  /** Once a call finds nothing, everybody known has been returned. */
  lemma RunDrained(q: Q, es: seq<Event>, q': Q)
    requires Inv(q) && Run(q, es, q') && es != [] && es[|es| - 1].Next? && es[|es| - 1].num == NullBkt
    ensures Returned(es) == Known(q, es)
  {
    RunSettled(q, es, q');
    var k := |es| - 1;
    var mid: Q :| Run(q, es[..k], mid) && Inv(mid) && Step(mid, es[k], q');
    assert Live(q') == {};
  }
}
