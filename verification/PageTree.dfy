/**
 * The five-level page table as an arena of table pages, and the flat map from virtual to physical
 * pages it has to agree with.  A virtual page number has five nine-bit digits.
 */
module PageTree {
  import opened Basics

  const FANOUT: nat := 512
  const LEVELS: nat := 5
  const VPAGES: nat := 0x2000_0000_0000
  const FIRST_TABLE_VPAGE: nat := 0xF_0000_00F0_0000
  const ABSENT: nat := 0xFFFF_FFFF_FFFF_FFFF
  const NO_FRAME: nat := 0xF_FFFF_FFFF_FFFF

  // ---- digits of a virtual page number ----

  /** v without its n lowest digits. */
  function Up(v: nat, n: nat): nat {
    if n == 0 then v else Up(v, n - 1) / FANOUT
  }

  /** The digit that selects the entry in a table page of the given level. */
  function Offset(v: nat, level: nat): (o: nat)
    requires level >= 1
    ensures o < FANOUT
  {
    Up(v, level - 1) % FANOUT
  }

  lemma UpSplit(v: nat, level: nat)
    requires level >= 1
    ensures Up(v, level - 1) == FANOUT * Up(v, level) + Offset(v, level)
  {
  }

  lemma TwoDigits(a: nat, o: nat, q: nat, v: nat)
    requires o < FANOUT && q < FANOUT && v == FANOUT * (FANOUT * a + o) + q
    ensures Up(v, 2) == a && Offset(v, 2) == o && Up(v, 1) == FANOUT * a + o && Offset(v, 1) == q
  {
    assert Up(v, 0) == v;
    assert Up(v, 1) == v / FANOUT == FANOUT * a + o;
    assert Up(v, 2) == Up(v, 1) / FANOUT == a;
  }

  lemma UpTop(v: nat)
    requires v < VPAGES
    ensures Up(v, LEVELS) == 0
  {
    assert Up(v, 1) < 0x10_0000_0000;
    assert Up(v, 2) < 0x800_0000;
    assert Up(v, 3) < 0x4_0000;
    assert Up(v, 4) < 0x200;
  }

  // ---- the tree ----

  /** One table page: child pages, and the frames they or the data pages sit in. */
  datatype Page = Page(entry: seq<Option<nat>>, base: seq<nat>)

  /**
   * The arena, with the level and the address prefix of each page, and the flat table.  The page
   * number i sits at virtual page FIRST_TABLE_VPAGE + i; page 0 is the root.
   */
  datatype Tree = Tree(pages: seq<Page>, lev: seq<nat>, pre: seq<nat>, table: map<nat, nat>)

  ghost predicate Shape(t: Tree) {
    && |t.lev| == |t.pages| && |t.pre| == |t.pages|
    && (t.pages != [] ==> t.lev[0] == LEVELS && t.pre[0] == 0)
    && (forall i: nat :: i < |t.pages| ==>
          1 <= t.lev[i] <= LEVELS && |t.pages[i].entry| == FANOUT && |t.pages[i].base| == FANOUT)
    && (forall i: nat :: i < |t.pages| ==> t.pre[i] < Span(t.lev[i]))
  }

  /** How many table pages of a level there can be. */
  ghost function Span(level: nat): nat
    requires level <= LEVELS
    decreases LEVELS - level
  {
    if level == LEVELS then 1 else FANOUT * Span(level + 1)
  }

  lemma SpanOne()
    ensures Span(0) == VPAGES
  {
    assert Span(3) == FANOUT * (FANOUT * Span(5));
    assert Span(1) == FANOUT * (FANOUT * Span(3));
  }

  /** The frame a table page sits in. */
  ghost function Frame(t: Tree, i: nat): nat {
    if FIRST_TABLE_VPAGE + i in t.table then t.table[FIRST_TABLE_VPAGE + i] else ABSENT
  }

  ghost predicate HasFrame(t: Tree, i: nat) { FIRST_TABLE_VPAGE + i in t.table }

  /** An entry of a page above the lowest level. */
  ghost predicate InnerOk(t: Tree, i: nat, o: nat)
    requires Shape(t) && i < |t.pages| && o < FANOUT
  {
    match t.pages[i].entry[o]
    case None => t.pages[i].base[o] == ABSENT
    case Some(c) =>
      && 0 < c < |t.pages| && t.lev[c] + 1 == t.lev[i] && t.pre[c] == FANOUT * t.pre[i] + o
      && t.pages[i].base[o] == Frame(t, c)
  }

  /** An entry of a page of the lowest level. */
  ghost predicate LeafOk(t: Tree, i: nat, o: nat)
    requires Shape(t) && i < |t.pages| && o < FANOUT
  {
    var v := FANOUT * t.pre[i] + o;
    t.pages[i].base[o] == if v in t.table then t.table[v] else ABSENT
  }

  ghost predicate EntryOk(t: Tree, i: nat, o: nat)
    requires Shape(t) && i < |t.pages| && o < FANOUT
  {
    if t.lev[i] == 1 then LeafOk(t, i, o) else InnerOk(t, i, o)
  }

  ghost predicate EntriesOk(t: Tree) {
    Shape(t) && forall i: nat, o: nat :: i < |t.pages| && o < FANOUT ==> EntryOk(t, i, o)
  }

  /** The page of the given level on the way from the root to virtual page v. */
  ghost function PageAt(t: Tree, v: nat, level: nat): (r: Option<nat>)
    requires EntriesOk(t) && 1 <= level <= LEVELS
    ensures r.Some? ==> r.value < |t.pages| && t.lev[r.value] == level
    ensures r.Some? && v < VPAGES ==> t.pre[r.value] == Up(v, level)
    decreases LEVELS - level
  {
    if level == LEVELS then
      UpTopIf(v);
      if t.pages == [] then None else Some(0)
    else
      match PageAt(t, v, level + 1)
      case None => None
      case Some(i) =>
        assert EntryOk(t, i, Offset(v, level + 1));
        UpSplit(v, level + 1);
        t.pages[i].entry[Offset(v, level + 1)]
  }

  lemma UpTopIf(v: nat)
    ensures v < VPAGES ==> Up(v, LEVELS) == 0
  {
    if v < VPAGES {
      UpTop(v);
    }
  }

  /** What the walk reads at a level: the frame of the next page, or of the data at level one. */
  ghost function BaseRead(t: Tree, v: nat, level: nat): nat
    requires EntriesOk(t) && 1 <= level <= LEVELS
  {
    match PageAt(t, v, level)
    case None => ABSENT
    case Some(i) => t.pages[i].base[Offset(v, level)]
  }

  /** Every page lies on the way to the addresses with its prefix. */
  ghost predicate Anchored(t: Tree, j: nat, v: nat)
    requires EntriesOk(t)
  {
    j < |t.pages| && v < VPAGES && Up(v, t.lev[j]) == t.pre[j] ==> PageAt(t, v, t.lev[j]) == Some(j)
  }

  /** The flat table: data pages and table pages, all in different frames. */
  ghost predicate TableOk(t: Tree) {
    && (forall k :: k in t.table ==> k < VPAGES || FIRST_TABLE_VPAGE <= k < FIRST_TABLE_VPAGE + |t.pages|)
    && (forall i: nat :: i < |t.pages| ==> HasFrame(t, i))
    && (forall k :: k in t.table ==> t.table[k] < NO_FRAME)
    && (forall k, m :: k in t.table && m in t.table && t.table[k] == t.table[m] ==> k == m)
  }

  ghost predicate TreeOk(t: Tree) {
    && EntriesOk(t) && TableOk(t)
    && (forall j: nat, v: nat :: Anchored(t, j, v))
    && (forall v: nat :: v < VPAGES && v in t.table ==> PageAt(t, v, 1).Some?)
  }

  lemma LeafIs(t: Tree, i: nat, o: nat, v: nat)
    requires EntriesOk(t) && i < |t.pages| && t.lev[i] == 1 && o < FANOUT && v == FANOUT * t.pre[i] + o
    ensures t.pages[i].base[o] == if v in t.table then t.table[v] else ABSENT
  {
    assert EntryOk(t, i, o);
  }

  /** The tree and the flat table agree on every address. */
  lemma TreeAgrees(t: Tree, v: nat)
    requires TreeOk(t) && v < VPAGES
    ensures BaseRead(t, v, 1) == if v in t.table then t.table[v] else ABSENT
  {
    var r := PageAt(t, v, 1);
    if r.Some? {
      UpSplit(v, 1);
      LeafIs(t, r.value, Offset(v, 1), v);
    }
  }

  /** Table pages and data pages never share a frame. */
  lemma FramesDiffer(t: Tree, i: nat, j: nat, v: nat, w: nat)
    requires TreeOk(t) && i < |t.pages| && j < |t.pages| && v < VPAGES && w < VPAGES
    ensures i != j ==> Frame(t, i) != Frame(t, j)
    ensures BaseRead(t, v, 1) != ABSENT ==> BaseRead(t, v, 1) != Frame(t, i)
    ensures v != w && BaseRead(t, v, 1) != ABSENT ==> BaseRead(t, v, 1) != BaseRead(t, w, 1)
  {
    TreeAgrees(t, v);
    TreeAgrees(t, w);
    assert HasFrame(t, i) && HasFrame(t, j);
  }

  // ---- growing the tree ----

  /** A frame no page sits in, as the random search returns it. */
  ghost predicate Fresh(t: Tree, frame: nat) {
    frame < NO_FRAME && forall k :: k in t.table ==> t.table[k] != frame
  }

  function EmptyPage(): Page {
    Page(seq(FANOUT, _ => None), seq(FANOUT, _ => ABSENT))
  }

  function SetEntry(p: Page, o: nat, entry: Option<nat>, base: nat): Page
    requires o < |p.entry| && o < |p.base|
  {
    Page(p.entry[o := entry], p.base[o := base])
  }

  ghost function AddRoot(t: Tree, frame: nat): Tree {
    Tree([EmptyPage()], [LEVELS], [0], t.table[FIRST_TABLE_VPAGE := frame])
  }

  ghost function AddChild(t: Tree, i: nat, o: nat, frame: nat): Tree
    requires Shape(t) && i < |t.pages| && o < FANOUT && t.lev[i] >= 2
  {
    var c := |t.pages|;
    Tree(t.pages[i := SetEntry(t.pages[i], o, Some(c), frame)] + [EmptyPage()],
         t.lev + [t.lev[i] - 1], t.pre + [FANOUT * t.pre[i] + o], t.table[FIRST_TABLE_VPAGE + c := frame])
  }

  ghost function AddData(t: Tree, i: nat, v: nat, frame: nat): Tree
    requires Shape(t) && i < |t.pages|
  {
    t.(pages := t.pages[i := SetEntry(t.pages[i], Offset(v, 1), t.pages[i].entry[Offset(v, 1)], frame)],
       table := t.table[v := frame])
  }

  /** Nothing that could be walked before is walked differently now. */
  ghost predicate Extends(t: Tree, t': Tree)
    requires EntriesOk(t) && EntriesOk(t')
  {
    && (forall v: nat, level: nat :: 1 <= level <= LEVELS && PageAt(t, v, level).Some? ==> SamePage(t, t', v, level))
    && (forall v: nat, level: nat :: 1 <= level <= LEVELS && BaseRead(t, v, level) != ABSENT ==>
          BaseRead(t', v, level) == BaseRead(t, v, level))
    && (t.pages != [] ==> Frame(t', 0) == Frame(t, 0))
  }

  ghost predicate SamePage(t: Tree, t': Tree, v: nat, level: nat)
    requires EntriesOk(t) && EntriesOk(t') && 1 <= level <= LEVELS
  {
    PageAt(t', v, level) == PageAt(t, v, level)
  }

  /** Entries that are present stay, in the arena as a whole. */
  ghost predicate Grows(t: Tree, t': Tree) {
    && EntriesOk(t) && EntriesOk(t') && |t.pages| <= |t'.pages|
    && (forall i: nat :: i < |t.pages| ==> t'.lev[i] == t.lev[i] && t'.pre[i] == t.pre[i])
    && (forall i: nat, o: nat :: i < |t.pages| && o < FANOUT ==> EntryGrows(t, t', i, o))
    && (forall k :: k in t.table ==> k in t'.table && t'.table[k] == t.table[k])
  }

  ghost predicate EntryGrows(t: Tree, t': Tree, i: nat, o: nat)
    requires Shape(t) && Shape(t') && i < |t.pages| <= |t'.pages| && o < FANOUT
  {
    && (t.pages[i].entry[o].Some? ==> t'.pages[i].entry[o] == t.pages[i].entry[o])
    && (t.pages[i].base[o] != ABSENT ==> t'.pages[i].base[o] == t.pages[i].base[o])
  }

  lemma {:induction false} PageStays(t: Tree, t': Tree, v: nat, level: nat)
    requires Grows(t, t') && 1 <= level <= LEVELS && PageAt(t, v, level).Some?
    ensures SamePage(t, t', v, level)
    decreases LEVELS - level
  {
    if level < LEVELS {
      PageStays(t, t', v, level + 1);
      assert EntryGrows(t, t', PageAt(t, v, level + 1).value, Offset(v, level + 1));
    }
  }

  lemma GrowsExtends(t: Tree, t': Tree)
    requires Grows(t, t') && TableOk(t)
    ensures Extends(t, t')
  {
    forall v: nat, level: nat | 1 <= level <= LEVELS && PageAt(t, v, level).Some?
      ensures SamePage(t, t', v, level)
    {
      PageStays(t, t', v, level);
    }
    forall v: nat, level: nat | 1 <= level <= LEVELS && BaseRead(t, v, level) != ABSENT
      ensures BaseRead(t', v, level) == BaseRead(t, v, level)
    {
      assert SamePage(t, t', v, level);
      assert EntryGrows(t, t', PageAt(t, v, level).value, Offset(v, level));
    }
    if t.pages != [] {
      assert HasFrame(t, 0);
    }
  }

  lemma RootKeeps(t: Tree, frame: nat)
    requires TreeOk(t) && t.pages == [] && Fresh(t, frame)
    ensures TreeOk(AddRoot(t, frame)) && Grows(t, AddRoot(t, frame))
  {
    var t' := AddRoot(t, frame);
    forall j: nat, v: nat
      ensures Anchored(t', j, v)
    {
    }
  }

  lemma ChildInner(t: Tree, i: nat, o: nat, frame: nat, k: nat, q: nat)
    requires TreeOk(t) && i < |t.pages| && o < FANOUT && t.lev[i] >= 2 && t.pages[i].entry[o] == None
    requires k < |t.pages| && q < FANOUT && Shape(AddChild(t, i, o, frame))
    ensures EntryOk(AddChild(t, i, o, frame), k, q) && EntryGrows(t, AddChild(t, i, o, frame), k, q)
  {
    hide Anchored, PageAt;
    assert EntryOk(t, k, q);
    if t.lev[k] == 1 {
      SpanOne();
      assert Span(0) == FANOUT * Span(1);
    } else if t.pages[k].entry[q].Some? {
      assert HasFrame(t, t.pages[k].entry[q].value);
    }
  }

  lemma ChildShape(t: Tree, i: nat, o: nat, frame: nat)
    requires Shape(t) && i < |t.pages| && o < FANOUT && t.lev[i] >= 2
    ensures Shape(AddChild(t, i, o, frame))
  {
    assert Span(t.lev[i] - 1) == FANOUT * Span(t.lev[i]);
  }

  lemma ChildEntry(t: Tree, i: nat, o: nat, frame: nat, k: nat, q: nat)
    requires TreeOk(t) && i < |t.pages| && o < FANOUT && t.lev[i] >= 2 && t.pages[i].entry[o] == None && Fresh(t, frame)
    requires k <= |t.pages| && q < FANOUT && Shape(AddChild(t, i, o, frame))
    ensures EntryOk(AddChild(t, i, o, frame), k, q)
  {
    hide TreeOk, EntryOk, Fresh;
    if k < |t.pages| {
      ChildInner(t, i, o, frame, k, q);
    } else {
      ChildFirst(t, i, o, frame, q);
    }
  }

  lemma ChildEntries(t: Tree, i: nat, o: nat, frame: nat)
    requires TreeOk(t) && i < |t.pages| && o < FANOUT && t.lev[i] >= 2 && t.pages[i].entry[o] == None && Fresh(t, frame)
    ensures EntriesOk(AddChild(t, i, o, frame))
  {
    ChildShape(t, i, o, frame);
    forall k: nat, q: nat | k <= |t.pages| && q < FANOUT
      ensures EntryOk(AddChild(t, i, o, frame), k, q)
    {
      ChildEntry(t, i, o, frame, k, q);
    }
  }

  lemma EmptyBase(o: nat)
    requires o < FANOUT
    ensures |EmptyPage().base| == FANOUT && EmptyPage().base[o] == ABSENT
    ensures |EmptyPage().entry| == FANOUT && EmptyPage().entry[o] == None
  {
  }

  /** The entries of the new page itself are empty, rightly so. */
  lemma ChildFirst(t: Tree, i: nat, o: nat, frame: nat, q: nat)
    requires TreeOk(t) && i < |t.pages| && o < FANOUT && t.lev[i] >= 2 && t.pages[i].entry[o] == None
    requires q < FANOUT && Shape(AddChild(t, i, o, frame))
    ensures EntryOk(AddChild(t, i, o, frame), |t.pages|, q)
  {
    var t', c := AddChild(t, i, o, frame), |t.pages|;
    EmptyBase(q);
    assert t'.pages[c] == EmptyPage();
    if t.lev[i] == 2 {
      var v := FANOUT * (FANOUT * t.pre[i] + o) + q;
      ChildIsNew(t, i, o, q, v);
      LeafFrom(t', c, q, v);
    }
  }

  lemma ChildGrows(t: Tree, i: nat, o: nat, frame: nat)
    requires TreeOk(t) && i < |t.pages| && o < FANOUT && t.lev[i] >= 2 && t.pages[i].entry[o] == None && Fresh(t, frame)
    requires EntriesOk(AddChild(t, i, o, frame))
    ensures Grows(t, AddChild(t, i, o, frame))
  {
    forall k: nat, q: nat | k < |t.pages| && q < FANOUT
      ensures EntryGrows(t, AddChild(t, i, o, frame), k, q)
    {
      ChildInner(t, i, o, frame, k, q);
    }
  }

  lemma TwoBelow(a: nat, o: nat, q: nat)
    requires a < Span(2) && o < FANOUT && q < FANOUT
    ensures FANOUT * (FANOUT * a + o) + q < VPAGES
  {
    SpanOne();
    assert Span(1) == FANOUT * Span(2) && Span(0) == FANOUT * Span(1);
  }

  /** No data page lies under a prefix that has no table page yet. */
  lemma ChildIsNew(t: Tree, i: nat, o: nat, q: nat, v: nat)
    requires TreeOk(t) && i < |t.pages| && o < FANOUT && q < FANOUT && t.lev[i] == 2 && t.pages[i].entry[o] == None
    requires v == FANOUT * (FANOUT * t.pre[i] + o) + q
    ensures v !in t.table && v < VPAGES
  {
    assert t.pre[i] < Span(2);
    TwoBelow(t.pre[i], o, q);
    TwoDigits(t.pre[i], o, q, v);
    NoChildNoData(t, i, o, v);
  }

  lemma NoChildNoData(t: Tree, i: nat, o: nat, v: nat)
    requires TreeOk(t) && i < |t.pages| && t.lev[i] == 2 && o < FANOUT && t.pages[i].entry[o] == None
    requires v < VPAGES && Up(v, 2) == t.pre[i] && Offset(v, 2) == o
    ensures v !in t.table
  {
    assert Anchored(t, i, v);
    assert PageAt(t, v, 1) == None;
  }

  lemma ChildAnchored(t: Tree, i: nat, o: nat, frame: nat, j: nat, v: nat)
    requires TreeOk(t) && i < |t.pages| && o < FANOUT && t.lev[i] >= 2 && t.pages[i].entry[o] == None
    requires Grows(t, AddChild(t, i, o, frame))
    ensures Anchored(AddChild(t, i, o, frame), j, v)
  {
    var t', c := AddChild(t, i, o, frame), |t.pages|;
    if j < c {
      assert Anchored(t, j, v);
      if v < VPAGES && Up(v, t.lev[j]) == t.pre[j] {
        PageStays(t, t', v, t.lev[j]);
      }
    } else if j == c && v < VPAGES && Up(v, t'.lev[c]) == t'.pre[c] {
      UpSplit(v, t.lev[i]);
      assert Anchored(t, i, v);
      PageStays(t, t', v, t.lev[i]);
    }
  }

  /** A new table page below an empty entry. */
  lemma ChildKeeps(t: Tree, i: nat, o: nat, frame: nat)
    requires TreeOk(t) && i < |t.pages| && o < FANOUT && t.lev[i] >= 2 && t.pages[i].entry[o] == None && Fresh(t, frame)
    ensures TreeOk(AddChild(t, i, o, frame)) && Grows(t, AddChild(t, i, o, frame))
  {
    var t' := AddChild(t, i, o, frame);
    ChildEntries(t, i, o, frame);
    ChildGrows(t, i, o, frame);
    forall j: nat, v: nat
      ensures Anchored(t', j, v)
    {
      ChildAnchored(t, i, o, frame, j, v);
    }
    forall v: nat | v < VPAGES && v in t'.table
      ensures PageAt(t', v, 1).Some?
    {
      PageStays(t, t', v, 1);
    }
    ChildTable(t, i, o, frame);
  }

  lemma ChildTable(t: Tree, i: nat, o: nat, frame: nat)
    requires TreeOk(t) && i < |t.pages| && o < FANOUT && t.lev[i] >= 2 && Fresh(t, frame)
    ensures TableOk(AddChild(t, i, o, frame))
  {
    var t' := AddChild(t, i, o, frame);
    forall j: nat | j < |t'.pages|
      ensures HasFrame(t', j)
    {
      assert j < |t.pages| ==> HasFrame(t, j);
    }
  }

  // ---- mapping a data page ----

  /** An address has one slot in the lowest-level pages. */
  lemma OnlySlot(t: Tree, i: nat, v: nat, k: nat, q: nat)
    requires TreeOk(t) && v < VPAGES && PageAt(t, v, 1) == Some(i) && k < |t.pages| && q < FANOUT && t.lev[k] == 1
    ensures FANOUT * t.pre[k] + q == v <==> k == i && q == Offset(v, 1)
  {
    UpSplit(v, 1);
    if FANOUT * t.pre[k] + q == v {
      LastDigit(t.pre[k], q, v);
      assert Anchored(t, k, v);
    }
  }

  lemma DataBase(t: Tree, i: nat, v: nat, frame: nat, k: nat, q: nat)
    requires Shape(t) && i < |t.pages| && k < |t.pages| && q < FANOUT
    ensures AddData(t, i, v, frame).pages[k].entry == t.pages[k].entry
    ensures |AddData(t, i, v, frame).pages[k].base| == FANOUT
    ensures AddData(t, i, v, frame).pages[k].base[q] ==
              if k == i && q == Offset(v, 1) then frame else t.pages[k].base[q]
  {
  }

  lemma DataLeaf(t: Tree, i: nat, v: nat, frame: nat, k: nat, q: nat)
    requires TreeOk(t) && v < VPAGES && PageAt(t, v, 1) == Some(i)
    requires k < |t.pages| && t.lev[k] == 1 && q < FANOUT && Shape(AddData(t, i, v, frame))
    ensures LeafOk(AddData(t, i, v, frame), k, q)
  {
    var w := FANOUT * t.pre[k] + q;
    LeafIs(t, k, q, w);
    OnlySlot(t, i, v, k, q);
    DataBase(t, i, v, frame, k, q);
    LeafFrom(AddData(t, i, v, frame), k, q, w);
  }

  lemma LeafFrom(t: Tree, i: nat, o: nat, v: nat)
    requires Shape(t) && i < |t.pages| && o < FANOUT && v == FANOUT * t.pre[i] + o
    requires t.pages[i].base[o] == if v in t.table then t.table[v] else ABSENT
    ensures LeafOk(t, i, o)
  {
  }

  lemma DataInner(t: Tree, i: nat, v: nat, frame: nat, k: nat, q: nat)
    requires TreeOk(t) && v < VPAGES && PageAt(t, v, 1) == Some(i)
    requires k < |t.pages| && t.lev[k] > 1 && q < FANOUT && Shape(AddData(t, i, v, frame))
    ensures InnerOk(AddData(t, i, v, frame), k, q)
  {
    assert EntryOk(t, k, q);
    if t.pages[k].entry[q].Some? {
      assert HasFrame(t, t.pages[k].entry[q].value);
    }
  }

  lemma DataEntry(t: Tree, i: nat, v: nat, frame: nat, k: nat, q: nat)
    requires TreeOk(t) && v < VPAGES && PageAt(t, v, 1) == Some(i)
    requires k < |t.pages| && q < FANOUT && Shape(AddData(t, i, v, frame))
    ensures EntryOk(AddData(t, i, v, frame), k, q)
  {
    if t.lev[k] == 1 {
      DataLeaf(t, i, v, frame, k, q);
    } else {
      DataInner(t, i, v, frame, k, q);
    }
  }

  lemma DataGrows(t: Tree, i: nat, v: nat, frame: nat, k: nat, q: nat)
    requires TreeOk(t) && v < VPAGES && PageAt(t, v, 1) == Some(i) && v !in t.table
    requires k < |t.pages| && q < FANOUT && Shape(AddData(t, i, v, frame))
    ensures EntryGrows(t, AddData(t, i, v, frame), k, q)
  {
    if k == i && q == Offset(v, 1) {
      UpSplit(v, 1);
      LeafIs(t, i, q, v);
    }
  }

  lemma LastDigit(a: nat, q: nat, v: nat)
    requires q < FANOUT && v == FANOUT * a + q
    ensures Up(v, 1) == a && Offset(v, 1) == q
  {
    assert Up(v, 0) == v;
  }

  lemma DataEntries(t: Tree, i: nat, v: nat, frame: nat)
    requires TreeOk(t) && v < VPAGES && PageAt(t, v, 1) == Some(i) && v !in t.table && Fresh(t, frame)
    ensures Grows(t, AddData(t, i, v, frame))
  {
    assert Shape(AddData(t, i, v, frame));
    forall k: nat, q: nat | k < |t.pages| && q < FANOUT
      ensures EntryOk(AddData(t, i, v, frame), k, q) && EntryGrows(t, AddData(t, i, v, frame), k, q)
    {
      DataEntry(t, i, v, frame, k, q);
      DataGrows(t, i, v, frame, k, q);
    }
  }

  lemma DataAnchored(t: Tree, t': Tree, j: nat, w: nat)
    requires Grows(t, t') && |t'.pages| == |t.pages| && Anchored(t, j, w)
    ensures Anchored(t', j, w)
  {
    if j < |t.pages| && w < VPAGES && Up(w, t.lev[j]) == t.pre[j] {
      PageStays(t, t', w, t.lev[j]);
    }
  }

  /** A data page mapped for an address whose table pages are all there. */
  lemma DataKeeps(t: Tree, i: nat, v: nat, frame: nat)
    requires TreeOk(t) && v < VPAGES && PageAt(t, v, 1) == Some(i) && v !in t.table && Fresh(t, frame)
    ensures TreeOk(AddData(t, i, v, frame)) && Grows(t, AddData(t, i, v, frame))
    ensures BaseRead(AddData(t, i, v, frame), v, 1) == frame
  {
    var t' := AddData(t, i, v, frame);
    DataEntries(t, i, v, frame);
    forall j: nat, w: nat
      ensures Anchored(t', j, w)
    {
      assert Anchored(t, j, w);
      DataAnchored(t, t', j, w);
    }
    PageStays(t, t', v, 1);
    forall w: nat | w < VPAGES && w in t'.table
      ensures PageAt(t', w, 1).Some?
    {
      if w != v {
        PageStays(t, t', w, 1);
      }
    }
    DataTable(t, i, v, frame);
  }

  lemma DataTable(t: Tree, i: nat, v: nat, frame: nat)
    requires TableOk(t) && Shape(t) && i < |t.pages| && v < VPAGES && v !in t.table && Fresh(t, frame)
    ensures TableOk(AddData(t, i, v, frame))
  {
    forall j: nat | j < |t.pages|
      ensures HasFrame(AddData(t, i, v, frame), j)
    {
      assert HasFrame(t, j);
    }
  }
}
