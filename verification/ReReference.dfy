/**
 * The re-reference matrix: for each epoch and each cache line of vertex data one byte that says
 * where in the epoch the line is last used, or how many epochs away its next use is.
 */
module ReReference {
  import opened Arith

  const PER_LINE: nat := 16
  const MSB: nat := 128
  const MAX_REREF: nat := 127
  const NEVER: nat := 255

  function MyCeil(x: nat, y: nat): (r: nat)
    requires y > 0
  {
    (x + y - 1) / y
  }

  /** A byte without, and with, its most significant bit. */
  function ClearMsb(b: nat): (r: nat)
    ensures b < 256 ==> r == b % MSB
  {
    if b >= MSB then b - MSB else b
  }

  function SetMsb(b: nat): (r: nat)
    ensures b < 256 ==> r == MSB + b % MSB
  {
    if b >= MSB then b else b + MSB
  }

  /** The quotient rounded up: the least number of pieces of size y that cover x. */
  lemma CeilCovers(x: nat, y: nat)
    requires y > 0
    ensures x <= MyCeil(x, y) * y && (x > 0 ==> MyCeil(x, y) > 0)
    ensures forall q: nat :: x <= q * y ==> MyCeil(x, y) <= q
  {
    var c := (x + y - 1) / y;
    assert x + y - 1 == y * c + (x + y - 1) % y;
    assert c * y == y * c;
    if c == 0 {
      assert y * c == 0;
    }
    forall q: nat | x <= q * y
      ensures c <= q
    {
      assert q * y == y * q;
      if q < c {
        MulNext(y, q, c);
      }
    }
  }

  /** A quotient is below n if the dividend is below n times the divisor. */
  lemma DivBelow(x: nat, w: nat, n: nat)
    requires w > 0 && x < n * w
    ensures x / w < n
  {
    var q := x / w;
    assert x == w * q + x % w;
    assert n * w == w * n;
    if n <= q {
      if n < q {
        MulNext(w, n, q);
      }
    }
  }

  // ---- references ----

  /** The sizes of an epoch and of the whole matrix. */
  datatype Layout = Layout(perEpoch: nat, epochs: nat, lines: nat) {
    predicate Valid() { perEpoch > 0 && epochs > 0 }
  }

  function LayoutOf(n: nat, epochs: nat): Layout
    requires n > 0 && epochs > 0
  {
    Layout(MyCeil(n, epochs), epochs, MyCeil(n, PER_LINE))
  }

  function EpochOf(m: Layout, v: nat): nat
    requires m.Valid()
  {
    v / m.perEpoch
  }

  function LineOf(v: nat): nat { v / PER_LINE }

  /** Epochs and lines are stretches of consecutive vertices that cover all of them; an epoch is as
      short, and the lines are as few, as that allows. */
  lemma LayoutCovers(n: nat, epochs: nat, v: nat)
    requires n > 0 && epochs > 0 && v < n
    ensures var m := LayoutOf(n, epochs);
            && m.Valid() && m.epochs == epochs && EpochOf(m, v) < epochs && LineOf(v) < m.lines
            && EpochOf(m, v) * m.perEpoch <= v < EpochOf(m, v) * m.perEpoch + m.perEpoch
            && LineOf(v) * PER_LINE <= v < LineOf(v) * PER_LINE + PER_LINE
            && (forall w: nat :: n <= w * epochs ==> m.perEpoch <= w) && (forall k: nat :: n <= k * PER_LINE ==> m.lines <= k)
  {
    var m := LayoutOf(n, epochs);
    CeilCovers(n, epochs);
    CeilCovers(n, PER_LINE);
    assert m.perEpoch * epochs == epochs * m.perEpoch;
    DivBelow(v, m.perEpoch, epochs);
    DivBelow(v, PER_LINE, m.lines);
    var e := v / m.perEpoch;
    assert v == m.perEpoch * e + v % m.perEpoch && m.perEpoch * e == e * m.perEpoch;
  }

  /** Some vertex of the line has v as a neighbour. */
  ghost predicate Uses(adj: seq<seq<nat>>, line: nat, v: nat) {
    exists i, k :: 0 <= i < |adj| && 0 <= k < |adj[i]| && LineOf(i) == line && adj[i][k] == v
  }

  /** The last neighbour of the line that falls into the epoch, or -1. */
  ghost predicate IsLast(m: Layout, adj: seq<seq<nat>>, line: nat, epoch: nat, x: int)
    requires m.Valid()
  {
    && (x >= 0 ==> Uses(adj, line, x) && EpochOf(m, x) == epoch)
    && x >= -1
    && forall v: nat :: Uses(adj, line, v) && EpochOf(m, v) == epoch ==> v <= x
  }

  function Max(a: int, b: int): int { if a < b then b else a }

  /** The maximum over the first k neighbours of a row that fall into the epoch, starting from x. */
  ghost function RowMax(m: Layout, row: seq<nat>, k: nat, epoch: nat, x: int): int
    requires m.Valid() && k <= |row|
  {
    if k == 0 then x
    else
      var y := RowMax(m, row, k - 1, epoch, x);
      if EpochOf(m, row[k - 1]) == epoch then Max(row[k - 1], y) else y
  }

  /** ... and over the rows of the line's vertices below i. */
  ghost function LastUse(m: Layout, adj: seq<seq<nat>>, i: nat, line: nat, epoch: nat): int
    requires m.Valid() && i <= |adj|
  {
    if i == 0 then -1
    else
      var y := LastUse(m, adj, i - 1, line, epoch);
      if LineOf(i - 1) == line then RowMax(m, adj[i - 1], |adj[i - 1]|, epoch, y) else y
  }

  lemma {:induction false} RowMaxIs(m: Layout, row: seq<nat>, k: nat, epoch: nat, x: int)
    requires m.Valid() && k <= |row|
    ensures var y := RowMax(m, row, k, epoch, x);
            && y >= x
            && (y == x || exists j :: 0 <= j < k && row[j] == y && EpochOf(m, row[j]) == epoch)
            && forall j :: 0 <= j < k && EpochOf(m, row[j]) == epoch ==> row[j] <= y
  {
    if k > 0 {
      RowMaxIs(m, row, k - 1, epoch, x);
    }
  }

  ghost predicate UsesBelow(adj: seq<seq<nat>>, n: nat, line: nat, v: nat) {
    exists i, k :: 0 <= i < n && i < |adj| && 0 <= k < |adj[i]| && LineOf(i) == line && adj[i][k] == v
  }

  lemma {:induction false} LastUseBelow(m: Layout, adj: seq<seq<nat>>, i: nat, line: nat, epoch: nat)
    requires m.Valid() && i <= |adj|
    ensures var x := LastUse(m, adj, i, line, epoch);
            && x >= -1 && (x >= 0 ==> UsesBelow(adj, i, line, x) && EpochOf(m, x) == epoch)
            && forall v: nat :: UsesBelow(adj, i, line, v) && EpochOf(m, v) == epoch ==> v <= x
  {
    if i > 0 {
      LastUseBelow(m, adj, i - 1, line, epoch);
      var y := LastUse(m, adj, i - 1, line, epoch);
      var x := LastUse(m, adj, i, line, epoch);
      if LineOf(i - 1) == line {
        RowMaxIs(m, adj[i - 1], |adj[i - 1]|, epoch, y);
      }
      forall v: nat | UsesBelow(adj, i, line, v) && EpochOf(m, v) == epoch
        ensures v <= x
      {
        var j, k :| 0 <= j < i && j < |adj| && 0 <= k < |adj[j]| && LineOf(j) == line && adj[j][k] == v;
        assert j < i - 1 ==> UsesBelow(adj, i - 1, line, v);
      }
    }
  }

  /** What the first pass records is the last use. */
  lemma LastUseIsLast(m: Layout, adj: seq<seq<nat>>, line: nat, epoch: nat)
    requires m.Valid()
    ensures IsLast(m, adj, line, epoch, LastUse(m, adj, |adj|, line, epoch))
  {
    LastUseBelow(m, adj, |adj|, line, epoch);
    forall v: nat
      ensures Uses(adj, line, v) <==> UsesBelow(adj, |adj|, line, v)
    {
    }
  }

  // ---- the byte of a line in an epoch ----

  /** The byte as the backward pass computes it, from the last uses of the line in all epochs. */
  ghost function Byte(m: Layout, perSub: nat, last: seq<int>, epoch: nat): nat
    requires m.Valid() && perSub > 0 && |last| == m.epochs && epoch < m.epochs
    decreases m.epochs - epoch
  {
    if epoch == m.epochs - 1 then
      if last[epoch] != -1 then MAX_REREF else NEVER
    else if last[epoch] != -1 then
      var pos := last[epoch] - epoch * m.perEpoch;
      ClearMsb((if pos >= 0 then pos / perSub else 0) % 256)
    else
      var next := Byte(m, perSub, last, epoch + 1);
      if next >= MSB then (if next == NEVER then NEVER else SetMsb((next + 1) % 256)) else SetMsb(1)
  }

  /** The number of epochs to the next one that uses the line, or none. */
  ghost predicate NextUse(last: seq<int>, epoch: nat, d: nat) {
    d > 0 && epoch + d < |last| && last[epoch + d] != -1 && forall e :: epoch < e < epoch + d ==> last[e] == -1
  }

  ghost predicate NoUse(last: seq<int>, epoch: nat) { forall e :: epoch < e < |last| ==> last[e] == -1 }

  /** Positions within an epoch. */
  ghost predicate InEpoch(m: Layout, last: seq<int>) {
    forall e: nat :: e < |last| && last[e] != -1 ==> UseInEpoch(m, last[e], e)
  }

  ghost predicate UseInEpoch(m: Layout, x: int, e: nat) { 0 <= x - e * m.perEpoch < m.perEpoch }

  /** A used epoch's byte is the sub-epoch of the last use, at most 127. */
  lemma ByteUsed(m: Layout, perSub: nat, last: seq<int>, epoch: nat)
    requires m.Valid() && perSub > 0 && m.perEpoch <= 128 * perSub && |last| == m.epochs && InEpoch(m, last)
    requires epoch < m.epochs - 1 && last[epoch] != -1
    ensures 0 <= last[epoch] - epoch * m.perEpoch
    ensures Byte(m, perSub, last, epoch) == (last[epoch] - epoch * m.perEpoch) / perSub <= MAX_REREF
  {
    assert UseInEpoch(m, last[epoch], epoch);
    DivBelow(last[epoch] - epoch * m.perEpoch, perSub, 128);
  }

  /** An unused epoch's byte from that of the next epoch. */
  lemma ByteStep(m: Layout, perSub: nat, last: seq<int>, epoch: nat)
    requires m.Valid() && perSub > 0 && m.perEpoch <= 128 * perSub && |last| == m.epochs && InEpoch(m, last)
    requires epoch < m.epochs - 1 && last[epoch] == -1
    ensures var b := Byte(m, perSub, last, epoch); var next := Byte(m, perSub, last, epoch + 1);
            if last[epoch + 1] != -1 then b == MSB + 1
            else if next == NEVER then b == NEVER
            else MSB <= next < NEVER ==> b == next + 1
  {
    if epoch + 1 < m.epochs - 1 && last[epoch + 1] != -1 {
      ByteUsed(m, perSub, last, epoch + 1);
    }
  }

  lemma NoUseNext(last: seq<int>, epoch: nat)
    requires NoUse(last, epoch)
    ensures NoUse(last, epoch + 1)
  {
  }

  /** An unused epoch's byte counts the epochs to the next use, up to 127, ... */
  lemma {:induction false} ByteUnused(m: Layout, perSub: nat, last: seq<int>, epoch: nat, d: nat)
    requires m.Valid() && perSub > 0 && m.perEpoch <= 128 * perSub && |last| == m.epochs && InEpoch(m, last)
    requires epoch < m.epochs - 1 && last[epoch] == -1 && NextUse(last, epoch, d)
    ensures Byte(m, perSub, last, epoch) == MSB + if d < 127 then d else 127
    decreases d
  {
    hide Byte, InEpoch;
    ByteStep(m, perSub, last, epoch);
    if d > 1 {
      assert last[epoch + 1] == -1;
      ByteUnused(m, perSub, last, epoch + 1, d - 1);
    }
  }

  /** ... and is 255 if there is none. */
  lemma {:induction false} ByteNever(m: Layout, perSub: nat, last: seq<int>, epoch: nat)
    requires m.Valid() && perSub > 0 && m.perEpoch <= 128 * perSub && |last| == m.epochs && InEpoch(m, last)
    requires epoch < m.epochs && last[epoch] == -1 && NoUse(last, epoch)
    ensures Byte(m, perSub, last, epoch) == NEVER
    decreases m.epochs - epoch
  {
    if epoch < m.epochs - 1 {
      hide Byte, InEpoch;
      ByteStep(m, perSub, last, epoch);
      NoUseNext(last, epoch);
      ByteNever(m, perSub, last, epoch + 1);
    }
  }

  // ---- what the matrix means ----

  ghost predicate Used(m: Layout, adj: seq<seq<nat>>, line: nat, epoch: nat)
    requires m.Valid()
  {
    exists v: nat :: Uses(adj, line, v) && EpochOf(m, v) == epoch
  }

  /** The first epoch after this one that uses the line is d epochs away. */
  ghost predicate FirstUseAfter(m: Layout, adj: seq<seq<nat>>, line: nat, epoch: nat, d: nat)
    requires m.Valid()
  {
    && d > 0 && epoch + d < m.epochs && Used(m, adj, line, epoch + d)
    && forall e: nat :: epoch < e < epoch + d ==> !Used(m, adj, line, e)
  }

  ghost predicate NeverUsedAfter(m: Layout, adj: seq<seq<nat>>, line: nat, epoch: nat)
    requires m.Valid()
  {
    forall e: nat :: epoch < e < m.epochs ==> !Used(m, adj, line, e)
  }

  /** The meaning of one byte, said of the graph alone. */
  ghost predicate Describes(m: Layout, perSub: nat, adj: seq<seq<nat>>, line: nat, epoch: nat, b: nat)
    requires m.Valid() && perSub > 0 && epoch < m.epochs
  {
    if epoch == m.epochs - 1 then
      b == if Used(m, adj, line, epoch) then MAX_REREF else NEVER
    else
      && (b < MSB <==> Used(m, adj, line, epoch))
      && (forall x: nat :: IsLast(m, adj, line, epoch, x) ==>
            x >= epoch * m.perEpoch && b == (x - epoch * m.perEpoch) / perSub <= MAX_REREF)
      && (forall d: nat :: !Used(m, adj, line, epoch) && FirstUseAfter(m, adj, line, epoch, d) ==>
            b == MSB + if d < 127 then d else 127)
      && (!Used(m, adj, line, epoch) && NeverUsedAfter(m, adj, line, epoch) ==> b == NEVER)
  }

  /** The last uses of a line, epoch by epoch. */
  ghost function LastRow(m: Layout, adj: seq<seq<nat>>, line: nat): (r: seq<int>)
    requires m.Valid()
    ensures |r| == m.epochs
  {
    seq(m.epochs, e requires 0 <= e => LastUse(m, adj, |adj|, line, e))
  }

  lemma LastRowUsed(m: Layout, adj: seq<seq<nat>>, line: nat, epoch: nat)
    requires m.Valid() && epoch < m.epochs
    ensures var x := LastRow(m, adj, line)[epoch];
            && (x != -1 <==> Used(m, adj, line, epoch))
            && (x != -1 ==> x >= 0 && EpochOf(m, x) == epoch)
            && forall y: nat :: IsLast(m, adj, line, epoch, y) ==> x == y
  {
    LastUseIsLast(m, adj, line, epoch);
  }

  lemma RowInEpoch(m: Layout, adj: seq<seq<nat>>, line: nat)
    requires m.Valid()
    ensures InEpoch(m, LastRow(m, adj, line))
  {
    var last := LastRow(m, adj, line);
    forall e: nat | e < |last| && last[e] != -1
      ensures UseInEpoch(m, last[e], e)
    {
      LastRowUsed(m, adj, line, e);
      var x := last[e];
      assert x == m.perEpoch * (x / m.perEpoch) + x % m.perEpoch;
      assert m.perEpoch * e == e * m.perEpoch;
    }
  }

  /** The byte computed from the last uses has the meaning said of the graph. */
  lemma ByteDescribes(m: Layout, perSub: nat, adj: seq<seq<nat>>, line: nat, epoch: nat)
    requires m.Valid() && perSub > 0 && m.perEpoch <= 128 * perSub && epoch < m.epochs
    ensures Describes(m, perSub, adj, line, epoch, Byte(m, perSub, LastRow(m, adj, line), epoch))
  {
    hide Used, InEpoch, Uses, LastUse;
    var last := LastRow(m, adj, line);
    RowInEpoch(m, adj, line);
    forall e: nat | e < m.epochs
      ensures last[e] != -1 <==> Used(m, adj, line, e)
    {
      LastRowUsed(m, adj, line, e);
    }
    LastRowUsed(m, adj, line, epoch);
    if epoch < m.epochs - 1 {
      if last[epoch] != -1 {
        ByteUsed(m, perSub, last, epoch);
      } else {
        hide Byte;
        ByteMarked(m, perSub, last, epoch);
        forall d: nat | FirstUseAfter(m, adj, line, epoch, d)
          ensures Byte(m, perSub, last, epoch) == MSB + if d < 127 then d else 127
        {
          ByteUnused(m, perSub, last, epoch, d);
        }
        if NeverUsedAfter(m, adj, line, epoch) {
          ByteNever(m, perSub, last, epoch);
        }
      }
    }
  }

  /** Every byte fits, and an unused epoch's byte has its most significant bit set. */
  lemma {:induction false} ByteMarked(m: Layout, perSub: nat, last: seq<int>, epoch: nat)
    requires m.Valid() && perSub > 0 && |last| == m.epochs && epoch < m.epochs
    ensures Byte(m, perSub, last, epoch) <= 255
    ensures last[epoch] == -1 ==> Byte(m, perSub, last, epoch) >= MSB
    decreases m.epochs - epoch
  {
    if epoch < m.epochs - 1 {
      ByteMarked(m, perSub, last, epoch + 1);
    }
  }

  // ---- flat arrays ----

  /** A place in a flat table of rows of the given width. */
  function Place(width: nat, row: nat, col: nat): nat { row * width + col }

  lemma PlaceFits(width: nat, rows: nat, row: nat, col: nat)
    requires row < rows && col < width
    ensures Place(width, row, col) < rows * width
  {
    MulNext(width, row, rows);
  }

  lemma PlaceUnique(width: nat, row: nat, col: nat, row': nat, col': nat)
    requires col < width && col' < width && Place(width, row, col) == Place(width, row', col')
    ensures row == row' && col == col'
  {
    QuotientUnique(width, row, col, row', col');
  }

  /** The entry of a table. */
  ghost function At(t: seq<int>, rows: nat, width: nat, row: nat, col: nat): int
    requires |t| == rows * width && row < rows && col < width
  {
    PlaceFits(width, rows, row, col);
    t[Place(width, row, col)]
  }

  /** Writing one entry changes that entry only. */
  lemma WriteOne(t: seq<int>, t': seq<int>, rows: nat, width: nat, row: nat, col: nat, x: int)
    requires |t| == rows * width && row < rows && col < width && Place(width, row, col) < |t|
    requires t' == t[Place(width, row, col) := x]
    ensures forall r: nat, c: nat :: r < rows && c < width ==>
              At(t', rows, width, r, c) == if r == row && c == col then x else At(t, rows, width, r, c)
  {
    forall r: nat, c: nat | r < rows && c < width
      ensures At(t', rows, width, r, c) == if r == row && c == col then x else At(t, rows, width, r, c)
    {
      PlaceFits(width, rows, r, c);
      if Place(width, r, c) == Place(width, row, col) {
        PlaceUnique(width, r, c, row, col);
      }
    }
  }

  // ---- first pass ----

  /** The last use after all rows below i and the first k neighbours of row i. */
  ghost function Partial(m: Layout, adj: seq<seq<nat>>, i: nat, k: nat, line: nat, epoch: nat): int
    requires m.Valid() && i < |adj| && k <= |adj[i]|
  {
    var x := LastUse(m, adj, i, line, epoch);
    if LineOf(i) == line then RowMax(m, adj[i], k, epoch, x) else x
  }

  ghost predicate TempIs(m: Layout, adj: seq<seq<nat>>, t: seq<int>, i: nat)
    requires m.Valid() && i <= |adj|
  {
    && |t| == m.lines * m.epochs
    && forall r: nat, c: nat :: r < m.lines && c < m.epochs ==> At(t, m.lines, m.epochs, r, c) == LastUse(m, adj, i, r, c)
  }

  ghost predicate TempPartial(m: Layout, adj: seq<seq<nat>>, t: seq<int>, i: nat, k: nat)
    requires m.Valid() && i < |adj| && k <= |adj[i]|
  {
    && |t| == m.lines * m.epochs
    && forall r: nat, c: nat :: r < m.lines && c < m.epochs ==> At(t, m.lines, m.epochs, r, c) == Partial(m, adj, i, k, r, c)
  }

  lemma NoteUse(m: Layout, adj: seq<seq<nat>>, t: seq<int>, t': seq<int>, i: nat, k: nat)
    requires m.Valid() && i < |adj| && k < |adj[i]| && TempPartial(m, adj, t, i, k)
    requires LineOf(i) < m.lines && EpochOf(m, adj[i][k]) < m.epochs
    requires var p := Place(m.epochs, LineOf(i), EpochOf(m, adj[i][k]));
             p < |t| && t' == t[p := Max(adj[i][k], t[p])]
    ensures TempPartial(m, adj, t', i, k + 1)
  {
    var p := Place(m.epochs, LineOf(i), EpochOf(m, adj[i][k]));
    WriteOne(t, t', m.lines, m.epochs, LineOf(i), EpochOf(m, adj[i][k]), Max(adj[i][k], t[p]));
    assert t[p] == At(t, m.lines, m.epochs, LineOf(i), EpochOf(m, adj[i][k]));
  }

  /** Every vertex has its line and its epoch inside the tables. */
  lemma Fits(m: Layout, n: nat, epochs: nat, v: nat)
    requires n > 0 && epochs > 0 && m == LayoutOf(n, epochs) && v < n
    ensures m.Valid() && LineOf(v) < m.lines && EpochOf(m, v) < m.epochs
  {
    CeilCovers(n, epochs);
    CeilCovers(n, PER_LINE);
    DivBelow(v, PER_LINE, m.lines);
    assert m.perEpoch * m.epochs == m.epochs * m.perEpoch;
    DivBelow(v, m.perEpoch, m.epochs);
  }

  ghost predicate Graph(adj: seq<seq<nat>>) {
    |adj| > 0 && forall i, k :: 0 <= i < |adj| && 0 <= k < |adj[i]| ==> adj[i][k] < |adj|
  }

  method NoteRow(adj: seq<seq<nat>>, m: Layout, temp: array<int>, i: nat)
    requires Graph(adj) && m.epochs > 0 && m == LayoutOf(|adj|, m.epochs) && m.Valid() && i < |adj|
    requires TempIs(m, adj, temp[..], i)
    modifies temp
    ensures TempIs(m, adj, temp[..], i + 1)
  {
    hide TempIs, TempPartial, LayoutOf;
    Fits(m, |adj|, m.epochs, i);
    RowStarts(m, adj, temp[..], i);
    for k := 0 to |adj[i]|
      invariant TempPartial(m, adj, temp[..], i, k)
    {
      var v := adj[i][k];
      Fits(m, |adj|, m.epochs, v);
      TempSize(m, adj, temp[..], i, k);
      var p := Place(m.epochs, i / PER_LINE, v / m.perEpoch);
      PlaceFits(m.epochs, m.lines, LineOf(i), EpochOf(m, v));
      ghost var t := temp[..];
      temp[p] := Max(v, temp[p]);
      NoteUse(m, adj, t, temp[..], i, k);
    }
    RowEnds(m, adj, temp[..], i);
  }

  lemma TempSize(m: Layout, adj: seq<seq<nat>>, t: seq<int>, i: nat, k: nat)
    requires m.Valid() && i < |adj| && k <= |adj[i]| && TempPartial(m, adj, t, i, k)
    ensures |t| == m.lines * m.epochs
  {
  }

  lemma RowStarts(m: Layout, adj: seq<seq<nat>>, t: seq<int>, i: nat)
    requires m.Valid() && i < |adj| && TempIs(m, adj, t, i)
    ensures TempPartial(m, adj, t, i, 0)
  {
  }

  lemma RowEnds(m: Layout, adj: seq<seq<nat>>, t: seq<int>, i: nat)
    requires m.Valid() && i < |adj| && TempPartial(m, adj, t, i, |adj[i]|)
    ensures TempIs(m, adj, t, i + 1)
  {
  }

  lemma NothingNoted(m: Layout, adj: seq<seq<nat>>, t: seq<int>)
    requires m.Valid() && |t| == m.lines * m.epochs && forall p :: 0 <= p < |t| ==> t[p] == -1
    ensures TempIs(m, adj, t, 0)
  {
    forall r: nat, c: nat | r < m.lines && c < m.epochs
      ensures At(t, m.lines, m.epochs, r, c) == -1
    {
      PlaceFits(m.epochs, m.lines, r, c);
    }
  }

  method FirstPass(adj: seq<seq<nat>>, m: Layout, temp: array<int>)
    requires Graph(adj) && m.epochs > 0 && m == LayoutOf(|adj|, m.epochs) && m.Valid()
    requires temp.Length == m.lines * m.epochs && forall p :: 0 <= p < temp.Length ==> temp[p] == -1
    modifies temp
    ensures TempIs(m, adj, temp[..], |adj|)
  {
    hide TempIs, LayoutOf, Graph;
    NothingNoted(m, adj, temp[..]);
    for i := 0 to |adj|
      invariant TempIs(m, adj, temp[..], i)
    {
      NoteRow(adj, m, temp, i);
    }
  }

  // ---- second pass ----

  /** The bytes of the lines below `line` are right, and so are those of `line` from an epoch on. */
  ghost predicate BytesAre(m: Layout, perSub: nat, adj: seq<seq<nat>>, b: seq<int>, line: nat, epoch: nat)
    requires m.Valid() && perSub > 0
  {
    && |b| == m.epochs * m.lines
    && forall e: nat, l: nat :: e < m.epochs && l < m.lines && (l < line || (l == line && e >= epoch)) ==>
         At(b, m.epochs, m.lines, e, l) == Byte(m, perSub, LastRow(m, adj, l), e)
  }

  lemma WriteByte(m: Layout, perSub: nat, adj: seq<seq<nat>>, b: seq<int>, b': seq<int>, line: nat, epoch: nat)
    requires m.Valid() && perSub > 0 && line < m.lines && epoch < m.epochs
    requires BytesAre(m, perSub, adj, b, line, epoch + 1)
    requires var p := Place(m.lines, epoch, line);
             p < |b| && b' == b[p := Byte(m, perSub, LastRow(m, adj, line), epoch)]
    ensures BytesAre(m, perSub, adj, b', line, epoch)
  {
    WriteOne(b, b', m.epochs, m.lines, epoch, line, Byte(m, perSub, LastRow(m, adj, line), epoch));
  }

  /** One byte, from the last use and the byte of the following epoch. */
  method OneByte(m: Layout, perSub: nat, ghost adj: seq<seq<nat>>, line: nat, epoch: nat, last: int, next: int)
    returns (b: nat)
    requires m.Valid() && perSub > 0 && m.perEpoch <= 128 * perSub && line < m.lines && epoch < m.epochs
    requires last == LastRow(m, adj, line)[epoch]
    requires epoch < m.epochs - 1 ==> next == Byte(m, perSub, LastRow(m, adj, line), epoch + 1)
    ensures b == Byte(m, perSub, LastRow(m, adj, line), epoch) <= 255
  {
    ByteMarked(m, perSub, LastRow(m, adj, line), epoch);
    RowInEpoch(m, adj, line);
    if epoch == m.epochs - 1 {
      b := if last != -1 then ClearMsb(MAX_REREF) else SetMsb(MAX_REREF);
    } else if last != -1 {
      var pos := last - epoch * m.perEpoch;
      assert UseInEpoch(m, last, epoch);
      b := ClearMsb((pos / perSub) % 256);
    } else if next >= MSB {
      b := if next == NEVER then NEVER else SetMsb((next + 1) % 256);
    } else {
      b := SetMsb(1);
    }
  }

  method SecondPass(ghost adj: seq<seq<nat>>, m: Layout, perSub: nat, temp: array<int>, matrix: array<int>)
    requires m.Valid() && perSub > 0 && m.perEpoch <= 128 * perSub
    requires temp != matrix && TempIs(m, adj, temp[..], |adj|) && matrix.Length == m.epochs * m.lines
    modifies matrix
    ensures BytesAre(m, perSub, adj, matrix[..], m.lines, 0)
  {
    for line := 0 to m.lines
      invariant BytesAre(m, perSub, adj, matrix[..], line, m.epochs)
    {
      for epoch := m.epochs downto 0
        invariant BytesAre(m, perSub, adj, matrix[..], line, epoch)
      {
        PlaceFits(m.epochs, m.lines, line, epoch);
        PlaceFits(m.lines, m.epochs, epoch, line);
        assert temp[..][Place(m.epochs, line, epoch)] == At(temp[..], m.lines, m.epochs, line, epoch);
        var next := 0;
        if epoch < m.epochs - 1 {
          PlaceFits(m.lines, m.epochs, epoch + 1, line);
          next := matrix[Place(m.lines, epoch + 1, line)];
          assert matrix[..][Place(m.lines, epoch + 1, line)] == At(matrix[..], m.epochs, m.lines, epoch + 1, line);
        }
        var b := OneByte(m, perSub, adj, line, epoch, temp[Place(m.epochs, line, epoch)], next);
        ghost var was := matrix[..];
        matrix[Place(m.lines, epoch, line)] := b;
        WriteByte(m, perSub, adj, was, matrix[..], line, epoch);
      }
    }
  }

  /** The matrix of a non-empty graph: every byte, in bounds, means what it should. */
  method CreateReRefMatrix(adj: seq<seq<nat>>, epochs: nat) returns (matrix: array<int>)
    requires Graph(adj) && epochs > 0
    ensures var m := LayoutOf(|adj|, epochs); var perSub := MyCeil(MyCeil(|adj|, epochs), 128);
            && m.Valid() && perSub > 0 && matrix.Length == epochs * m.lines
            && forall e: nat, l: nat :: e < epochs && l < m.lines ==>
                 && 0 <= At(matrix[..], epochs, m.lines, e, l) <= 255
                 && Describes(m, perSub, adj, l, e, At(matrix[..], epochs, m.lines, e, l))
  {
    var m := LayoutOf(|adj|, epochs);
    CeilCovers(|adj|, epochs);
    var perSub := MyCeil(m.perEpoch, 128);
    CeilCovers(m.perEpoch, 128);
    var temp := new int[m.lines * epochs](_ => -1);
    matrix := new int[epochs * m.lines](_ => 0);
    FirstPass(adj, m, temp);
    SecondPass(adj, m, perSub, temp, matrix);
    ghost var b := matrix[..];
    forall e: nat, l: nat | e < epochs && l < m.lines
      ensures 0 <= At(b, epochs, m.lines, e, l) <= 255 && Describes(m, perSub, adj, l, e, At(b, epochs, m.lines, e, l))
    {
      ByteDescribes(m, perSub, adj, l, e);
      ByteMarked(m, perSub, LastRow(m, adj, l), e);
    }
  }
}
