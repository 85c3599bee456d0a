/** What a page walk reads, how addresses split into digits, and when an MMU cache entry is true. */
module PageWalkSpec {
  import opened Basics
  import opened PageTree

  const PAGE_SIZE: nat := 4096
  const CANONICAL: nat := 0x200_0000_0000_0000

  // ---- the 57-bit layout ----

  /** The weight of the digit of a level: two to the power of the bits below it. */
  function Weight(level: nat): (w: nat)
    requires 1 <= level <= LEVELS
    ensures w > 0
  {
    match level
    case 5 => 0x1_0000_0000_0000
    case 4 => 0x80_0000_0000
    case 3 => 0x4000_0000
    case 2 => 0x20_0000
    case _ => 0x1000
  }

  /** The table index of an address at a level: nine bits. */
  function GetOffset(va: nat, level: nat): nat
    requires 1 <= level <= LEVELS
  {
    va % CANONICAL / Weight(level) % FANOUT
  }

  /** The tag of an address in the MMU cache of a level: all bits from that level's digit up. */
  function GetIndex(va: nat, level: nat): nat
    requires 1 <= level <= LEVELS
  {
    va % CANONICAL / Weight(level)
  }

  /** One digit less is a division by 512. */
  lemma UpWeight(va: nat, level: nat)
    requires 1 <= level < LEVELS
    ensures Weight(level + 1) == FANOUT * Weight(level)
    ensures Up(va / PAGE_SIZE, level - 1) == va / Weight(level) ==>
              Up(va / PAGE_SIZE, level) == va / Weight(level + 1)
  {
    var x := Up(va / PAGE_SIZE, level - 1);
    assert Up(va / PAGE_SIZE, level) == x / FANOUT;
  }

  lemma {:induction false} UpIsShift(va: nat, level: nat)
    requires 1 <= level <= LEVELS
    ensures Up(va / PAGE_SIZE, level - 1) == va / Weight(level)
    decreases level
  {
    if level == 1 {
      assert Up(va / PAGE_SIZE, 0) == va / PAGE_SIZE;
    } else {
      UpIsShift(va, level - 1);
      UpWeight(va, level - 1);
    }
  }

  /** Index and offset of an address are the leading digits and the digit of its page number. */
  lemma UpIsIndex(va: nat, level: nat)
    requires va < CANONICAL && 1 <= level <= LEVELS
    ensures va / PAGE_SIZE < VPAGES
    ensures GetIndex(va, level) == Up(va / PAGE_SIZE, level - 1)
    ensures GetOffset(va, level) == Offset(va / PAGE_SIZE, level)
  {
    UpIsShift(va, level);
  }

  lemma {:induction false} DigitSum(va: nat, level: nat)
    requires va < CANONICAL && 1 <= level <= LEVELS
    ensures Up(va / PAGE_SIZE, level) * FANOUT * Weight(level) + GetOffset(va, level) * Weight(level)
         == Up(va / PAGE_SIZE, level - 1) * Weight(level)
  {
    UpIsIndex(va, level);
    UpSplit(va / PAGE_SIZE, level);
    assert (FANOUT * Up(va / PAGE_SIZE, level) + Offset(va / PAGE_SIZE, level)) * Weight(level)
        == Up(va / PAGE_SIZE, level) * FANOUT * Weight(level) + Offset(va / PAGE_SIZE, level) * Weight(level);
  }

  /** Five digits and the offset in the page make up the address again. */
  lemma DigitsRebuild(va: nat)
    requires va < CANONICAL
    ensures va == GetOffset(va, 5) * Weight(5) + GetOffset(va, 4) * Weight(4) + GetOffset(va, 3) * Weight(3)
                + GetOffset(va, 2) * Weight(2) + GetOffset(va, 1) * Weight(1) + va % PAGE_SIZE
  {
    var v := va / PAGE_SIZE;
    DigitSum(va, 1);
    DigitSum(va, 2);
    DigitSum(va, 3);
    DigitSum(va, 4);
    DigitSum(va, 5);
    UpTop(v);
    assert Up(v, 0) == v;
  }

  // ---- the entries a walk reads ----

  /** The frame of the table page a walk to v uses at a level; the root's frame is CR3. */
  ghost function BaseOf(t: Tree, v: nat, level: nat): nat
    requires EntriesOk(t) && 1 <= level <= LEVELS
  {
    if level == LEVELS then Frame(t, 0) else BaseRead(t, v, level + 1)
  }

  /** The address of the table entry a walk from CR3 reads at a level. */
  ghost function EntryAddr(t: Tree, v: nat, level: nat): nat
    requires EntriesOk(t) && 1 <= level <= LEVELS
  {
    BaseOf(t, v, level) * PAGE_SIZE + Offset(v, level) * 8
  }

  /** The entry lies in the table page the walk has come to; entries are eight bytes and do not overlap. */
  lemma EntryInPage(t: Tree, v: nat, w: nat, level: nat)
    requires EntriesOk(t) && 1 <= level <= LEVELS
    ensures EntryAddr(t, v, level) / PAGE_SIZE == BaseOf(t, v, level)
    ensures EntryAddr(t, v, level) % 8 == 0 && EntryAddr(t, v, level) % PAGE_SIZE + 8 <= PAGE_SIZE
    ensures BaseOf(t, v, level) == BaseOf(t, w, level) && Offset(v, level) < Offset(w, level) ==>
              EntryAddr(t, v, level) + 8 <= EntryAddr(t, w, level)
    ensures Offset(v, level) == 0 ==> EntryAddr(t, v, level) == BaseOf(t, v, level) * PAGE_SIZE
  {
    assert 8 * (Offset(v, level) + 1) <= PAGE_SIZE;
  }

  /** The entries read from level hi down to level lo. */
  ghost function Trail(t: Tree, v: nat, hi: nat, lo: nat): (r: seq<nat>)
    requires EntriesOk(t) && 1 <= lo <= hi + 1 && hi <= LEVELS
    ensures |r| == hi + 1 - lo && forall k :: 0 <= k < |r| ==> r[k] == EntryAddr(t, v, hi - k)
  {
    seq(hi + 1 - lo, k requires 0 <= k < hi + 1 - lo => EntryAddr(t, v, hi - k))
  }

  lemma TrailNext(t: Tree, v: nat, hi: nat, lo: nat)
    requires EntriesOk(t) && 1 <= lo <= hi <= LEVELS
    ensures Trail(t, v, hi, lo) == Trail(t, v, hi, lo + 1) + [EntryAddr(t, v, lo)]
  {
  }

  /** A walk that starts lower reads exactly the last entries of the walk from CR3. */
  lemma TrailSuffix(t: Tree, v: nat, hi: nat)
    requires EntriesOk(t) && 1 <= hi <= LEVELS
    ensures Trail(t, v, LEVELS, 1) == Trail(t, v, LEVELS, hi + 1) + Trail(t, v, hi, 1)
  {
  }

  /** Two addresses with the same digits down to a level are walked alike down to it. */
  lemma {:induction false} SamePrefix(t: Tree, v: nat, w: nat, level: nat, at: nat)
    requires EntriesOk(t) && 1 <= level <= at <= LEVELS && Up(v, level - 1) == Up(w, level - 1)
    ensures PageAt(t, v, at) == PageAt(t, w, at) && BaseRead(t, v, at) == BaseRead(t, w, at)
    decreases LEVELS - at
  {
    SameDigit(v, w, level, at);
    if at < LEVELS {
      SamePrefix(t, v, w, level, at + 1);
      SameDigit(v, w, level, at + 1);
    }
  }

  lemma {:induction false} SameUp(v: nat, w: nat, n: nat, m: nat)
    requires Up(v, n) == Up(w, n) && n <= m
    ensures Up(v, m) == Up(w, m)
    decreases m
  {
    if n < m {
      SameUp(v, w, n, m - 1);
    }
  }

  lemma SameDigit(v: nat, w: nat, level: nat, at: nat)
    requires 1 <= level <= at && Up(v, level - 1) == Up(w, level - 1)
    ensures Offset(v, at) == Offset(w, at)
  {
    SameUp(v, w, level - 1, at - 1);
  }

  // ---- MMU caches ----

  datatype Block = Block(valid: bool, tag: nat, data: nat)

  /** For every address with this tag the walk from CR3 reads this base at the cache's level. */
  ghost predicate EntryTrue(t: Tree, level: nat, tag: nat, data: nat)
    requires EntriesOk(t) && 1 <= level <= LEVELS
  {
    data != ABSENT && forall v: nat :: v < VPAGES && Up(v, level - 1) == tag ==> BaseRead(t, v, level) == data
  }

  type Psc = seq<seq<Block>>

  ghost predicate PscOk(t: Tree, level: nat, psc: Psc)
    requires EntriesOk(t) && 1 <= level <= LEVELS
  {
    forall row, way :: 0 <= row < |psc| && 0 <= way < |psc[row]| && psc[row][way].valid ==>
      EntryTrue(t, level, psc[row][way].tag, psc[row][way].data)
  }

  lemma PscStays(t: Tree, t': Tree, level: nat, psc: Psc)
    requires TableOk(t) && Grows(t, t') && 1 <= level <= LEVELS && PscOk(t, level, psc)
    ensures PscOk(t', level, psc)
  {
    GrowsExtends(t, t');
    forall row, way | 0 <= row < |psc| && 0 <= way < |psc[row]| && psc[row][way].valid
      ensures EntryTrue(t', level, psc[row][way].tag, psc[row][way].data)
    {
      assert EntryTrue(t, level, psc[row][way].tag, psc[row][way].data);
    }
  }

  lemma FilledIsTrue(t: Tree, v: nat, level: nat)
    requires EntriesOk(t) && 1 <= level <= LEVELS && BaseRead(t, v, level) != ABSENT
    ensures EntryTrue(t, level, Up(v, level - 1), BaseRead(t, v, level))
  {
    forall w: nat | w < VPAGES && Up(w, level - 1) == Up(v, level - 1)
      ensures BaseRead(t, w, level) == BaseRead(t, v, level)
    {
      SamePrefix(t, v, w, level, level);
    }
  }

  lemma FillKeeps(t: Tree, level: nat, psc: Psc, row: nat, way: nat, b: Block)
    requires EntriesOk(t) && 1 <= level <= LEVELS && PscOk(t, level, psc)
    requires row < |psc| && way < |psc[row]| && EntryTrue(t, level, b.tag, b.data)
    ensures PscOk(t, level, psc[row := psc[row][way := b]])
  {
  }

  // ---- growth, step by step ----

  lemma GrowsTrans(a: Tree, b: Tree, c: Tree)
    requires Grows(a, b) && Grows(b, c)
    ensures Grows(a, c)
  {
    forall i: nat, o: nat | i < |a.pages| && o < FANOUT
      ensures EntryGrows(a, c, i, o)
    {
      assert EntryGrows(a, b, i, o) && EntryGrows(b, c, i, o);
    }
  }

  lemma GrowsRefl(t: Tree)
    requires EntriesOk(t)
    ensures Grows(t, t)
  {
  }

  /** An absent base above the lowest level means there is no child page. */
  lemma MissingEntry(t: Tree, v: nat, level: nat)
    requires TreeOk(t) && 2 <= level <= LEVELS && PageAt(t, v, level).Some?
    ensures BaseRead(t, v, level) == ABSENT <==> PageAt(t, v, level - 1) == None
    ensures BaseRead(t, v, level) == ABSENT <==> t.pages[PageAt(t, v, level).value].entry[Offset(v, level)] == None
  {
    var i, o := PageAt(t, v, level).value, Offset(v, level);
    assert EntryOk(t, i, o);
    if t.pages[i].entry[o].Some? {
      assert HasFrame(t, t.pages[i].entry[o].value);
    }
  }

  /** After a new table page the walk gets one level further and no more. */
  lemma DescendOne(t: Tree, t': Tree, v: nat, level: nat, i: nat, frame: nat)
    requires TreeOk(t) && 2 <= level <= LEVELS && PageAt(t, v, level) == Some(i)
    requires t' == AddChild(t, i, Offset(v, level), frame) && Grows(t, t')
    ensures PageAt(t', v, level - 1) == Some(|t.pages|) && BaseRead(t', v, level - 1) == ABSENT
  {
    PageStays(t, t', v, level);
  }

  /** Above an entry that is present no level is missing. */
  lemma {:induction false} PresentAbove(t: Tree, v: nat, low: nat, level: nat)
    requires TreeOk(t) && 1 <= low <= level <= LEVELS && BaseRead(t, v, low) != ABSENT
    ensures PageAt(t, v, level).Some? && BaseRead(t, v, level) != ABSENT
    decreases level
  {
    if level > low {
      PresentAbove(t, v, low, level - 1);
      MissingEntry(t, v, level);
    }
  }

  /** A walk that reaches the data page has found every level present. */
  lemma LevelsPresent(t: Tree, v: nat, level: nat)
    requires TreeOk(t) && 1 <= level <= LEVELS && BaseRead(t, v, 1) != ABSENT
    ensures PageAt(t, v, level).Some? && BaseRead(t, v, level) != ABSENT
  {
    PresentAbove(t, v, 1, level);
  }

  /** The highest level whose entry is missing on the way to v. */
  ghost predicate FirstMissing(t: Tree, v: nat, level: nat)
    requires EntriesOk(t)
  {
    1 <= level <= LEVELS && BaseRead(t, v, level) == ABSENT && (level == LEVELS || BaseRead(t, v, level + 1) != ABSENT)
  }

  lemma MissingOnce(t: Tree, v: nat, level: nat, other: nat)
    requires TreeOk(t) && FirstMissing(t, v, level) && FirstMissing(t, v, other)
    ensures level == other
  {
    if level < other {
      PresentAbove(t, v, level + 1, other);
    } else if other < level {
      PresentAbove(t, v, other + 1, level);
    }
  }

  /** A walk from CR3 stops at the first missing entry. */
  lemma StopsFirst(t: Tree, v: nat, last: nat, fault: nat)
    requires TreeOk(t) && 1 <= last <= fault <= LEVELS && PageAt(t, v, fault).Some? && BaseRead(t, v, fault) == ABSENT
    ensures BaseRead(t, v, last) == ABSENT && FirstMissing(t, v, fault)
    ensures forall level: nat :: FirstMissing(t, v, level) ==> level == fault
  {
    if BaseRead(t, v, last) != ABSENT {
      PresentAbove(t, v, last, fault);
    }
    if fault < LEVELS {
      assert PageAt(t, v, fault + 1).Some?;
      MissingEntry(t, v, fault + 1);
    }
    forall level: nat | FirstMissing(t, v, level)
      ensures level == fault
    {
      MissingOnce(t, v, level, fault);
    }
  }

  lemma NeverMissing(t: Tree, v: nat)
    requires TreeOk(t) && BaseRead(t, v, 1) != ABSENT
    ensures forall level: nat :: !FirstMissing(t, v, level)
  {
    forall level: nat | 1 <= level <= LEVELS
      ensures BaseRead(t, v, level) != ABSENT
    {
      PresentAbove(t, v, 1, level);
    }
  }

  // ---- what a page fault adds ----

  /** Table pages in the frames from k0 up to k1, and nothing else. */
  ghost predicate TablesAdded(t: Tree, t': Tree, frames: seq<nat>, k0: nat, k1: nat) {
    && k0 <= k1 <= |frames| && |t'.pages| == |t.pages| + k1 - k0
    && (forall j :: k0 <= j < k1 ==> Frame(t', |t.pages| + (j - k0)) == frames[j])
    && forall k: nat :: k < VPAGES ==> (k in t'.table <==> k in t.table)
  }

  /** A table page in each frame but the last, the page of v in the last one, and nothing else. */
  ghost predicate FaultServed(t: Tree, t': Tree, v: nat, frames: seq<nat>) {
    && frames != [] && |t'.pages| == |t.pages| + |frames| - 1
    && (forall j: nat :: j < |frames| - 1 ==> Frame(t', |t.pages| + j) == frames[j])
    && v in t'.table && t'.table[v] == frames[|frames| - 1]
    && forall k: nat :: k < VPAGES && k != v ==> (k in t'.table <==> k in t.table)
  }

  /** What a served fault maps, address by address. */
  lemma FaultCases(t: Tree, t': Tree, v: nat, frames: seq<nat>, w: nat, j: nat)
    requires FaultServed(t, t', v, frames) && Grows(t, t') && TableOk(t') && w < VPAGES && j < |frames| - 1 && v < VPAGES
    ensures |t'.pages| - |t.pages| == |frames| - 1
    ensures FIRST_TABLE_VPAGE + |t.pages| + j in t'.table && t'.table[FIRST_TABLE_VPAGE + |t.pages| + j] == frames[j]
    ensures v in t'.table && t'.table[v] == frames[|frames| - 1]
    ensures w != v ==> (w in t'.table <==> w in t.table) && (w in t.table ==> t'.table[w] == t.table[w])
  {
    assert HasFrame(t', |t.pages| + j) && Frame(t', |t.pages| + j) == frames[j];
  }

  lemma TablesTrans(t: Tree, q: Tree, r: Tree, frames: seq<nat>, k0: nat, k1: nat, k2: nat)
    requires TablesAdded(t, q, frames, k0, k1) && TablesAdded(q, r, frames, k1, k2) && Grows(q, r) && TableOk(q)
    ensures TablesAdded(t, r, frames, k0, k2)
  {
    forall j | k0 <= j < k2
      ensures Frame(r, |t.pages| + (j - k0)) == frames[j]
    {
      if j < k1 {
        assert HasFrame(q, |t.pages| + (j - k0));
      } else {
        assert |t.pages| + (j - k0) == |q.pages| + (j - k1);
      }
    }
  }

  lemma NoneAdded(t: Tree, frames: seq<nat>, k: nat)
    requires k <= |frames|
    ensures TablesAdded(t, t, frames, k, k)
  {
  }

  /** One more table page. */
  lemma NextAdded(t: Tree, q: Tree, r: Tree, frames: seq<nat>, k0: nat, k: nat)
    requires k < |frames| && TablesAdded(t, q, frames, k0, k) && TablesAdded(q, r, [frames[k]], 0, 1)
    requires Grows(t, q) && Grows(q, r) && TreeOk(q)
    ensures TablesAdded(t, r, frames, k0, k + 1) && Grows(t, r)
  {
    assert Frame(r, |q.pages| + (0 - 0)) == [frames[k]][0];
    assert TablesAdded(q, r, frames, k, k + 1);
    TablesTrans(t, q, r, frames, k0, k, k + 1);
    GrowsTrans(t, q, r);
  }

  lemma TableAdded(t: Tree, i: nat, o: nat, frames: seq<nat>, k: nat)
    requires Shape(t) && i < |t.pages| && o < FANOUT && t.lev[i] >= 2 && k < |frames|
    ensures TablesAdded(t, AddChild(t, i, o, frames[k]), frames, k, k + 1)
  {
  }

  lemma RootAdded(t: Tree, frames: seq<nat>)
    requires TreeOk(t) && t.pages == [] && frames != []
    ensures TablesAdded(t, AddRoot(t, frames[0]), frames, 0, 1)
  {
  }

  lemma DataAdded(t: Tree, q: Tree, i: nat, v: nat, frames: seq<nat>)
    requires frames != [] && TablesAdded(t, q, frames, 0, |frames| - 1) && TreeOk(q) && i < |q.pages| && v < VPAGES
    ensures FaultServed(t, AddData(q, i, v, frames[|frames| - 1]), v, frames)
  {
    hide EntryOk, Anchored, PageAt;
    var r := AddData(q, i, v, frames[|frames| - 1]);
    forall j: nat | j < |frames| - 1
      ensures Frame(r, |t.pages| + j) == frames[j]
    {
      assert Frame(q, |t.pages| + (j - 0)) == frames[j];
    }
  }

  lemma {:induction false} NothingToRead(t: Tree, v: nat, level: nat)
    requires EntriesOk(t) && t.pages == [] && 1 <= level <= LEVELS
    ensures BaseRead(t, v, level) == ABSENT
    decreases LEVELS - level
  {
    if level < LEVELS {
      NothingToRead(t, v, level + 1);
    }
  }
}
