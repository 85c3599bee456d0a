/** The page table walker: page faults, MMU caches, and one walk in flight at a time. */
module PageWalker {
  import opened Pigeonhole
  import opened Basics
  import opened PageTree
  import opened PageWalkSpec

  /** The request in the MSHR; trace lists the addresses sent to memory for it. */
  datatype Walk = Walk(va: nat, level: nat, init: nat, returned: bool, droppable: bool, fullAddr: nat, trace: seq<nat>) {
    function Page(): nat { va / PAGE_SIZE }
  }

  /** What a finished request gets: the data for the TLB, or nothing yet. */
  datatype Outcome = Pending | Translated(data: nat) | Dropped

  /**
   * The physical address returned for a frame.  The offset is combined with a logical and, so only
   * its truth value survives in the low bits.
   */
  function PhysicalData(frame: nat, va: nat): nat {
    frame * PAGE_SIZE + if va != 0 then 1 else 0
  }

  /** The frame survives; the page offset does so only where it happens to be one. */
  lemma DataKeepsFrame(frame: nat, va: nat)
    requires va != 0
    ensures PhysicalData(frame, va) / PAGE_SIZE == frame
    ensures PhysicalData(frame, va) % PAGE_SIZE == va % PAGE_SIZE <==> va % PAGE_SIZE == 1
  {
  }

  /** Frames the random search may hand out, one for each page to be mapped. */
  ghost predicate Supply(inverse: map<nat, nat>, frames: seq<nat>) {
    NoRepeat(frames) && forall i :: 0 <= i < |frames| ==> frames[i] < NO_FRAME && frames[i] !in inverse
  }

  ghost predicate Hits(psc: Psc, tag: nat) {
    psc != [] && exists way :: 0 <= way < |psc[tag % |psc|]| && psc[tag % |psc|][way].valid && psc[tag % |psc|][way].tag == tag
  }

  /** The cache of a level holds the walk base of an address. */
  ghost predicate HitAt(psc: seq<Psc>, va: nat, level: nat) {
    2 <= level <= LEVELS && |psc| == 4 && Hits(psc[level - 2], GetIndex(va, level))
  }

  /** The ways the replacement policies of the four caches picked, one for each level. */
  ghost predicate WaysFit(psc: seq<Psc>, va: nat, ways: seq<nat>) {
    forall level: nat :: 2 <= level <= LEVELS ==> WayFitsAt(psc, va, ways, level)
  }

  ghost predicate WayFitsAt(psc: seq<Psc>, va: nat, ways: seq<nat>, level: nat) {
    2 <= level <= LEVELS && |psc| == 4 && |ways| == 4 && WayFits(psc[level - 2], GetIndex(va, level), ways[level - 2])
  }

  ghost predicate WayFits(psc: Psc, tag: nat, way: nat) {
    psc != [] && way < |psc[tag % |psc|]|
  }

  ghost predicate CacheIs(t: Tree, psc: seq<Psc>, i: nat)
    requires EntriesOk(t) && |psc| == 4 && i < 4
  {
    psc[i] != [] && PscOk(t, i + 2, psc[i])
  }

  /** All entries of the four caches are true. */
  ghost predicate CachesAre(t: Tree, psc: seq<Psc>)
    requires EntriesOk(t)
  {
    |psc| == 4 && forall i: nat :: i < 4 ==> CacheIs(t, psc, i)
  }

  lemma CachesStay(t: Tree, t': Tree, psc: seq<Psc>)
    requires TableOk(t) && Grows(t, t') && CachesAre(t, psc)
    ensures CachesAre(t', psc)
  {
    forall i: nat | i < 4
      ensures CacheIs(t', psc, i)
    {
      assert CacheIs(t, psc, i);
      PscStays(t, t', i + 2, psc[i]);
    }
  }

  lemma CacheFilled(t: Tree, psc: seq<Psc>, level: nat, row: nat, way: nat, b: Block)
    requires EntriesOk(t) && CachesAre(t, psc) && 2 <= level <= LEVELS && EntryTrue(t, level, b.tag, b.data)
    requires row < |psc[level - 2]| && way < |psc[level - 2][row]|
    ensures CachesAre(t, psc[level - 2 := psc[level - 2][row := psc[level - 2][row][way := b]]])
  {
    var psc' := psc[level - 2 := psc[level - 2][row := psc[level - 2][row][way := b]]];
    assert CacheIs(t, psc, level - 2);
    FillKeeps(t, level, psc[level - 2], row, way, b);
    forall i: nat | i < 4
      ensures CacheIs(t, psc', i)
    {
      assert CacheIs(t, psc, i);
    }
  }

  /** The registers and maps that go with a tree. */
  ghost predicate MapsAre(t: Tree, cr3: nat, next: nat, inverse: map<nat, nat>) {
    && TreeOk(t)
    && cr3 == (if t.pages == [] then ABSENT else Frame(t, 0))
    && next == FIRST_TABLE_VPAGE + |t.pages|
    && forall k :: k in t.table ==> t.table[k] in inverse && inverse[t.table[k]] == k
  }

  lemma RootMaps(t: Tree, cr3: nat, next: nat, inverse: map<nat, nat>, frame: nat)
    requires MapsAre(t, cr3, next, inverse) && t.pages == [] && frame < NO_FRAME && frame !in inverse
    ensures MapsAre(AddRoot(t, frame), frame, next + 1, inverse[frame := next]) && next !in t.table
    ensures Grows(t, AddRoot(t, frame))
  {
    RootKeeps(t, frame);
  }

  lemma ChildMaps(t: Tree, cr3: nat, next: nat, inverse: map<nat, nat>, i: nat, o: nat, frame: nat)
    requires MapsAre(t, cr3, next, inverse) && frame < NO_FRAME && frame !in inverse
    requires i < |t.pages| && o < FANOUT && t.lev[i] >= 2 && t.pages[i].entry[o] == None
    ensures MapsAre(AddChild(t, i, o, frame), cr3, next + 1, inverse[frame := next]) && next !in t.table
    ensures Grows(t, AddChild(t, i, o, frame))
  {
    ChildKeeps(t, i, o, frame);
    assert HasFrame(t, 0);
  }

  lemma DataMaps(t: Tree, cr3: nat, next: nat, inverse: map<nat, nat>, i: nat, v: nat, frame: nat)
    requires MapsAre(t, cr3, next, inverse) && frame < NO_FRAME && frame !in inverse
    requires v < VPAGES && PageAt(t, v, 1) == Some(i) && t.pages[i].base[Offset(v, 1)] == ABSENT
    ensures v !in t.table
    ensures MapsAre(AddData(t, i, v, frame), cr3, next, inverse[frame := v])
    ensures Grows(t, AddData(t, i, v, frame)) && BaseRead(AddData(t, i, v, frame), v, 1) == frame
  {
    TreeAgrees(t, v);
    DataKeeps(t, i, v, frame);
    assert HasFrame(t, 0);
  }

  /** The entry below a base is the one a walk from CR3 reads. */
  lemma EntryIs(t: Tree, va: nat, level: nat, base: nat)
    requires EntriesOk(t) && va < CANONICAL && 1 <= level < LEVELS && base == BaseRead(t, va / PAGE_SIZE, level + 1)
    ensures base * PAGE_SIZE + GetOffset(va, level) * 8 == EntryAddr(t, va / PAGE_SIZE, level)
  {
    UpIsIndex(va, level);
  }

  lemma OthersSame(psc: seq<Psc>, psc': seq<Psc>, va: nat, ways: seq<nat>, i: nat)
    requires |psc| == |psc'| == 4 && 2 <= i <= LEVELS && forall k: nat :: k < 4 && k != i - 2 ==> psc'[k] == psc[k]
    ensures forall k: nat :: 2 <= k <= LEVELS && k != i ==> WayFitsAt(psc', va, ways, k) == WayFitsAt(psc, va, ways, k)
    ensures forall k: nat :: 2 <= k <= LEVELS && k != i ==> HitAt(psc', va, k) == HitAt(psc, va, k)
  {
    hide Hits, WayFits;
  }

  /** What a cache holds for an address is the base a walk from CR3 reads. */
  lemma HitBase(t: Tree, cr3: nat, next: nat, inverse: map<nat, nat>, va: nat, level: nat, base: nat)
    requires MapsAre(t, cr3, next, inverse) && va < CANONICAL && 2 <= level <= LEVELS && EntryTrue(t, level, GetIndex(va, level), base)
    ensures base == BaseRead(t, va / PAGE_SIZE, level) != ABSENT && t.pages != []
  {
    UpIsIndex(va, level);
    if t.pages == [] {
      NothingToRead(t, va / PAGE_SIZE, level);
    }
  }

  lemma DownFrom(t: Tree, cr3: nat, next: nat, inverse: map<nat, nat>, frames: seq<nat>, k: nat)
    requires MapsAre(t, cr3, next, inverse) && k <= |frames|
    ensures EntriesOk(t) && Grows(t, t) && TablesAdded(t, t, frames, k, k)
  {
    GrowsRefl(t);
    NoneAdded(t, frames, k);
  }

  /** The caches of the levels above init are as they were. */
  ghost predicate SameAbove(psc: seq<Psc>, psc': seq<Psc>, init: nat) {
    |psc'| == |psc| && forall i: nat :: i < |psc| && i + 2 > init ==> psc'[i] == psc[i]
  }

  /**
   * What becomes of a walk w once memory has answered.  Read from CR3 down to the level just answered,
   * an entry is missing or not; only a request that may not be dropped has its missing pages mapped.
   */
  ghost predicate Resumed(t: Tree, t': Tree, w: Walk, psc: seq<Psc>, psc': seq<Psc>, m: Option<Walk>, frames: seq<nat>, outcome: Outcome)
  {
    && EntriesOk(t) && EntriesOk(t') && w.level < w.init <= LEVELS == |frames|
    && var missing := BaseRead(t, w.Page(), w.level + 1) == ABSENT;
       match outcome
       case Dropped => missing && w.droppable && t' == t && psc' == psc && m == None && w.Page() !in t.table
       case Pending =>
         && !missing && w.level > 0 && t' == t && psc' == psc
         && var addr := EntryAddr(t, w.Page(), w.level);
            m == Some(w.(fullAddr := addr, returned := false, trace := w.trace + [addr]))
       case Translated(data) =>
         && (if missing then !w.droppable else w.level == 0 && t' == t && w.trace == Trail(t, w.Page(), w.init, 1))
         && (forall level: nat :: FirstMissing(t, w.Page(), level) ==> FaultServed(t, t', w.Page(), frames[LEVELS - level..]))
         && m == None && BaseRead(t', w.Page(), 1) != ABSENT && data == PhysicalData(BaseRead(t', w.Page(), 1), w.va)
         && SameAbove(psc, psc', w.init) && forall k: nat :: 2 <= k <= w.init ==> HitAt(psc', w.va, k)
  }

  lemma DropResumed(t: Tree, w: Walk, psc: seq<Psc>, frames: seq<nat>)
    requires EntriesOk(t) && w.level < w.init <= LEVELS == |frames| && w.droppable && w.Page() !in t.table
    requires BaseRead(t, w.Page(), w.level + 1) == ABSENT
    ensures Resumed(t, t, w, psc, psc, None, frames, Dropped)
  {
  }

  lemma FaultResumed(t: Tree, t': Tree, w: Walk, psc: seq<Psc>, psc': seq<Psc>, frames: seq<nat>, fault: nat, data: nat)
    requires EntriesOk(t) && EntriesOk(t') && w.level < w.init <= LEVELS == |frames| && !w.droppable && 1 <= fault <= LEVELS
    requires BaseRead(t, w.Page(), w.level + 1) == ABSENT
    requires forall level: nat :: FirstMissing(t, w.Page(), level) ==> level == fault
    requires FaultServed(t, t', w.Page(), frames[LEVELS - fault..])
    requires BaseRead(t', w.Page(), 1) != ABSENT && data == PhysicalData(BaseRead(t', w.Page(), 1), w.va)
    requires SameAbove(psc, psc', w.init) && forall k: nat :: 2 <= k <= w.init ==> HitAt(psc', w.va, k)
    ensures Resumed(t, t', w, psc, psc', None, frames, Translated(data))
  {
    hide FirstMissing, FaultServed, HitAt, SameAbove;
  }

  /** So the missing entry and the kind of request decide what happens, and a droppable request maps nothing. */
  lemma ResumedIff(t: Tree, t': Tree, w: Walk, psc: seq<Psc>, psc': seq<Psc>, m: Option<Walk>, frames: seq<nat>, outcome: Outcome)
    requires Resumed(t, t', w, psc, psc', m, frames, outcome)
    ensures var missing := BaseRead(t, w.Page(), w.level + 1) == ABSENT;
            && (outcome.Dropped? <==> missing && w.droppable) && (outcome.Pending? <==> !missing && w.level > 0)
            && (!missing || w.droppable ==> t' == t)
            && (outcome.Translated? ==> m == None && |psc'| == |psc| && forall i: nat :: i < |psc| && i + 2 > w.init ==> psc'[i] == psc[i])
            && (!outcome.Translated? ==> psc' == psc)
  {
  }

  class PageTableWalker {
    var pages: seq<Page>
    var cr3: nat
    var pageTable: map<nat, nat>
    var inverseTable: map<nat, nat>
    var nextTableVpage: nat
    /** The MMU caches of levels two to five. */
    var psc: seq<Psc>
    var mshr: Option<Walk>

    /** Level and address prefix of each table page. */
    ghost var lev: seq<nat>
    ghost var pre: seq<nat>

    ghost function State(): Tree
      reads this
    {
      Tree(pages, lev, pre, pageTable)
    }

    ghost predicate MapsOk()
      reads this
    {
      MapsAre(State(), cr3, nextTableVpage, inverseTable)
    }

    ghost predicate CachesOk()
      requires EntriesOk(State())
      reads this
    {
      CachesAre(State(), psc)
    }

    ghost predicate WalkOk()
      requires EntriesOk(State())
      reads this
    {
      mshr.Some? ==>
        var w := mshr.value;
        && pages != [] && 0 < w.va < CANONICAL && w.level <= w.init <= LEVELS && 1 <= w.init
        && (if w.returned then w.level < w.init && w.trace == Trail(State(), w.Page(), w.init, w.level + 1)
            else 1 <= w.level && w.trace == Trail(State(), w.Page(), w.init, w.level)
                 && w.fullAddr == EntryAddr(State(), w.Page(), w.level))
    }

    ghost predicate Valid()
      reads this
    {
      MapsOk() && CachesOk() && WalkOk()
    }

    /** The caches start empty, with any number of sets and ways. */
    constructor (caches: seq<Psc>)
      requires |caches| == 4 && forall i :: 0 <= i < 4 ==> caches[i] != []
      requires forall i, row, way :: 0 <= i < 4 && 0 <= row < |caches[i]| && 0 <= way < |caches[i][row]| ==> !caches[i][row][way].valid
      ensures Valid() && pages == [] && mshr == None
    {
      pages, lev, pre := [], [], [];
      cr3 := ABSENT;
      pageTable, inverseTable := map[], map[];
      nextTableVpage := FIRST_TABLE_VPAGE;
      psc := caches;
      mshr := None;
    }

    // ---- mapping pages to frames ----

    /** A virtual page gets a frame; a page that has one keeps it. */
    method MapPage(vpage: nat, frame: nat) returns (ppage: nat)
      modifies this`pageTable, this`inverseTable
      ensures vpage in old(pageTable) ==>
                ppage == old(pageTable)[vpage] && pageTable == old(pageTable) && inverseTable == old(inverseTable)
      ensures vpage !in old(pageTable) ==>
                ppage == frame && pageTable == old(pageTable)[vpage := frame] && inverseTable == old(inverseTable)[frame := vpage]
    {
      if vpage !in pageTable {
        pageTable := pageTable[vpage := frame];
        inverseTable := inverseTable[frame := vpage];
      }
      ppage := pageTable[vpage];
    }

    /** The root page, at the first fault of all. */
    method AddRootPage(frame: nat)
      requires MapsOk() && pages == [] && frame < NO_FRAME && frame !in inverseTable
      modifies this`pages, this`lev, this`pre, this`cr3, this`pageTable, this`inverseTable, this`nextTableVpage
      ensures MapsOk() && State() == AddRoot(old(State()), frame) && Grows(old(State()), State())
      ensures inverseTable.Keys == old(inverseTable).Keys + {frame}
    {
      RootMaps(State(), cr3, nextTableVpage, inverseTable, frame);
      pages := [EmptyPage()];
      lev, pre := [LEVELS], [0];
      cr3 := MapPage(nextTableVpage, frame);
      nextTableVpage := nextTableVpage + 1;
    }

    /** A table page below an empty entry. */
    method AddTablePage(i: nat, o: nat, frame: nat)
      requires MapsOk() && i < |pages| && o < FANOUT && lev[i] >= 2 && pages[i].entry[o] == None
      requires frame < NO_FRAME && frame !in inverseTable
      modifies this`pages, this`lev, this`pre, this`pageTable, this`inverseTable, this`nextTableVpage
      ensures MapsOk() && State() == AddChild(old(State()), i, o, frame) && Grows(old(State()), State())
      ensures inverseTable.Keys == old(inverseTable).Keys + {frame}
    {
      ChildMaps(State(), cr3, nextTableVpage, inverseTable, i, o, frame);
      assert Shape(State());
      hide MapsAre, AddChild, Grows, Shape, TreeOk, EntriesOk;
      PutTable(i, o, frame);
    }

    method PutTable(i: nat, o: nat, frame: nat)
      requires Shape(State()) && i < |pages| && o < FANOUT && lev[i] >= 2 && nextTableVpage == FIRST_TABLE_VPAGE + |pages|
      requires nextTableVpage !in pageTable && frame !in inverseTable
      modifies this`pages, this`lev, this`pre, this`pageTable, this`inverseTable, this`nextTableVpage
      ensures State() == AddChild(old(State()), i, o, frame) && nextTableVpage == old(nextTableVpage) + 1
      ensures inverseTable == old(inverseTable)[frame := old(nextTableVpage)]
    {
      ghost var t := State();
      var c := |pages|;
      lev, pre := lev + [lev[i] - 1], pre + [FANOUT * pre[i] + o];
      var base := MapPage(nextTableVpage, frame);
      nextTableVpage := nextTableVpage + 1;
      pages := pages[i := SetEntry(pages[i], o, Some(c), base)] + [EmptyPage()];
      assert State() == AddChild(t, i, o, frame);
    }

    /** The data page of an address whose table pages are all there. */
    method AddDataPage(i: nat, v: nat, frame: nat)
      requires MapsOk() && v < VPAGES && PageAt(State(), v, 1) == Some(i)
      requires pages[i].base[Offset(v, 1)] == ABSENT && frame < NO_FRAME && frame !in inverseTable
      modifies this`pages, this`pageTable, this`inverseTable
      ensures MapsOk() && State() == AddData(old(State()), i, v, frame) && Grows(old(State()), State())
      ensures BaseRead(State(), v, 1) == frame
    {
      ghost var t := State();
      DataMaps(t, cr3, nextTableVpage, inverseTable, i, v, frame);
      var o := Offset(v, 1);
      var base := MapPage(v, frame);
      pages := pages[i := SetEntry(pages[i], o, pages[i].entry[o], base)];
      assert State() == AddData(t, i, v, frame);
    }

    // ---- page faults ----

    ghost predicate SupplyFrom(frames: seq<nat>, k: nat)
      reads this
    {
      NoRepeat(frames) && forall j :: k <= j < |frames| ==> frames[j] < NO_FRAME && frames[j] !in inverseTable
    }

    /** One more table page on the way to v. */
    method AddLevel(page: nat, v: nat, level: nat, frame: nat)
      requires MapsOk() && 2 <= level <= LEVELS && frame < NO_FRAME && frame !in inverseTable
      requires PageAt(State(), v, level) == Some(page) && BaseRead(State(), v, level) == ABSENT
      modifies this`pages, this`lev, this`pre, this`pageTable, this`inverseTable, this`nextTableVpage
      ensures MapsOk() && Grows(old(State()), State())
      ensures PageAt(State(), v, level - 1) == Some(old(|pages|)) && BaseRead(State(), v, level - 1) == ABSENT
      ensures inverseTable.Keys == old(inverseTable).Keys + {frame}
      ensures TablesAdded(old(State()), State(), [frame], 0, 1)
    {
      ghost var t := State();
      MissingEntry(t, v, level);
      AddTablePage(page, Offset(v, level), frame);
      TableAdded(t, page, Offset(v, level), [frame], 0);
      DescendOne(t, State(), v, level, page, frame);
    }

    /** Table pages down to level one, below the first missing entry. */
    method BuildDown(i: nat, v: nat, top: nat, frames: seq<nat>, k0: nat) returns (page: nat)
      requires MapsOk() && 1 <= top <= LEVELS && k0 + top == |frames| && SupplyFrom(frames, k0)
      requires PageAt(State(), v, top) == Some(i) && BaseRead(State(), v, top) == ABSENT
      modifies this`pages, this`lev, this`pre, this`pageTable, this`inverseTable, this`nextTableVpage
      ensures MapsOk() && Grows(old(State()), State()) && SupplyFrom(frames, |frames| - 1)
      ensures PageAt(State(), v, 1) == Some(page) && BaseRead(State(), v, 1) == ABSENT
      ensures TablesAdded(old(State()), State(), frames, k0, |frames| - 1)
    {
      hide TablesAdded, Grows, TreeOk, EntriesOk, PageAt, BaseRead, NoRepeat;
      ghost var t0 := State();
      DownFrom(t0, cr3, nextTableVpage, inverseTable, frames, k0);
      var level, k := top, k0;
      page := i;
      while level > 1
        invariant MapsOk() && Grows(t0, State()) && EntriesOk(State()) && 1 <= level <= LEVELS && k + level == |frames|
        invariant PageAt(State(), v, level) == Some(page) && BaseRead(State(), v, level) == ABSENT
        invariant SupplyFrom(frames, k) && TablesAdded(t0, State(), frames, k0, k)
      {
        page := NextTable(page, v, level, frames, k0, k, t0);
        level, k := level - 1, k + 1;
      }
    }

    /** One turn of the loop. */
    method NextTable(i: nat, v: nat, level: nat, frames: seq<nat>, ghost k0: nat, k: nat, ghost t0: Tree) returns (page: nat)
      requires MapsOk() && Grows(t0, State()) && 2 <= level <= LEVELS && k + level == |frames|
      requires PageAt(State(), v, level) == Some(i) && BaseRead(State(), v, level) == ABSENT
      requires SupplyFrom(frames, k) && TablesAdded(t0, State(), frames, k0, k)
      modifies this`pages, this`lev, this`pre, this`pageTable, this`inverseTable, this`nextTableVpage
      ensures MapsOk() && Grows(t0, State()) && EntriesOk(State())
      ensures PageAt(State(), v, level - 1) == Some(page) && BaseRead(State(), v, level - 1) == ABSENT
      ensures SupplyFrom(frames, k + 1) && TablesAdded(t0, State(), frames, k0, k + 1)
    {
      hide TablesAdded, Grows, TreeOk, EntriesOk, PageAt;
      ghost var t := State();
      page := |pages|;
      AddLevel(i, v, level, frames[k]);
      NextAdded(t0, t, State(), frames, k0, k);
    }

    /** The missing pages of an address, from the level whose entry is missing down to the data page. */
    method HandlePageFault(i: nat, v: nat, ptLevel: nat, frames: seq<nat>)
      requires MapsOk() && v < VPAGES && 1 <= ptLevel <= LEVELS + 1 && |frames| == ptLevel && SupplyFrom(frames, 0)
      requires if ptLevel == LEVELS + 1 then pages == []
               else PageAt(State(), v, ptLevel) == Some(i) && BaseRead(State(), v, ptLevel) == ABSENT
      modifies this`pages, this`lev, this`pre, this`cr3, this`pageTable, this`inverseTable, this`nextTableVpage
      ensures MapsOk() && Grows(old(State()), State()) && BaseRead(State(), v, 1) == frames[ptLevel - 1]
      ensures FaultServed(old(State()), State(), v, frames)
    {
      ghost var t0 := State();
      hide TreeOk, TablesAdded, FaultServed, Grows, NoRepeat;
      var page := BuildTables(i, v, ptLevel, frames);
      ghost var t1 := State();
      AddDataPage(page, v, frames[ptLevel - 1]);
      DataAdded(t0, t1, page, v, frames);
      GrowsTrans(t0, t1, State());
    }

    /** All missing table pages, the root among them if there is none. */
    method BuildTables(i: nat, v: nat, ptLevel: nat, frames: seq<nat>) returns (page: nat)
      requires MapsOk() && v < VPAGES && 1 <= ptLevel <= LEVELS + 1 && |frames| == ptLevel && SupplyFrom(frames, 0)
      requires if ptLevel == LEVELS + 1 then pages == []
               else PageAt(State(), v, ptLevel) == Some(i) && BaseRead(State(), v, ptLevel) == ABSENT
      modifies this`pages, this`lev, this`pre, this`cr3, this`pageTable, this`inverseTable, this`nextTableVpage
      ensures MapsOk() && Grows(old(State()), State()) && SupplyFrom(frames, ptLevel - 1)
      ensures PageAt(State(), v, 1) == Some(page) && BaseRead(State(), v, 1) == ABSENT
      ensures TablesAdded(old(State()), State(), frames, 0, ptLevel - 1)
    {
      ghost var t0 := State();
      if ptLevel == LEVELS + 1 {
        AddRootPage(frames[0]);
        ghost var t1 := State();
        RootAdded(t0, frames);
        hide TreeOk, TablesAdded, Grows;
        page := BuildDown(0, v, LEVELS, frames, 1);
        GrowsTrans(t0, t1, State());
        TablesTrans(t0, t1, State(), frames, 0, 1, ptLevel - 1);
      } else {
        page := BuildDown(i, v, ptLevel, frames, 0);
      }
    }

    // ---- MMU caches ----

    method CheckHit(level: nat, tag: nat) returns (data: nat)
      requires MapsOk() && CachesOk() && 2 <= level <= LEVELS
      ensures data != ABSENT <==> Hits(psc[level - 2], tag)
      ensures data != ABSENT ==> EntryTrue(State(), level, tag, data)
    {
      assert CacheIs(State(), psc, level - 2);
      var cache: Psc := psc[level - 2];
      var row := tag % |cache|;
      for way := 0 to |cache[row]|
        invariant forall u :: 0 <= u < way ==> !(cache[row][u].valid && cache[row][u].tag == tag)
      {
        if cache[row][way].valid && cache[row][way].tag == tag {
          return cache[row][way].data;
        }
      }
      return ABSENT;
    }

    method FillMmuCache(level: nat, tag: nat, base: nat, way: nat)
      requires MapsOk() && CachesOk() && 2 <= level <= LEVELS && WayFits(psc[level - 2], tag, way)
      requires EntryTrue(State(), level, tag, base)
      modifies this`psc
      ensures CachesOk() && Hits(psc[level - 2], tag)
      ensures |psc| == 4 && forall i: nat :: i < 4 && i != level - 2 ==> psc[i] == old(psc[i])
    {
      var cache: Psc := psc[level - 2];
      var row := tag % |cache|;
      CacheFilled(State(), psc, level, row, way, Block(true, tag, base));
      psc := psc[level - 2 := cache[row := cache[row][way := Block(true, tag, base)]]];
      assert psc[level - 2][row][way] == Block(true, tag, base);
    }

    // ---- walking the tree ----

    /** Down to the entry of level `last`; stops early, at a level other than zero, at a missing entry. */
    method WalkDown(va: nat, last: nat) returns (page: nat, base: nat, fault: nat)
      requires MapsOk() && pages != [] && va < CANONICAL && 1 <= last <= LEVELS
      ensures fault == 0 ==> base == BaseRead(State(), va / PAGE_SIZE, last) != ABSENT
      ensures fault != 0 ==> last <= fault <= LEVELS && PageAt(State(), va / PAGE_SIZE, fault) == Some(page)
                             && BaseRead(State(), va / PAGE_SIZE, fault) == ABSENT
    {
      ghost var v := va / PAGE_SIZE;
      page, base, fault := 0, ABSENT, 0;
      var i := LEVELS;
      while i >= last
        invariant last - 1 <= i <= LEVELS
        invariant i >= 1 ==> PageAt(State(), v, i) == Some(page)
        invariant i < LEVELS ==> base == BaseRead(State(), v, i + 1) != ABSENT
      {
        UpIsIndex(va, i);
        base := pages[page].base[GetOffset(va, i)];
        if base == ABSENT {
          fault := i;
          return;
        }
        if i > 1 {
          MissingEntry(State(), v, i);
          page := pages[page].entry[GetOffset(va, i)].value;
        }
        i := i - 1;
      }
    }

    method FillLevel(va: nat, i: nat, page: nat, init: nat, way: nat) returns (next: nat)
      requires MapsOk() && CachesOk() && va < CANONICAL && 2 <= i <= LEVELS
      requires BaseRead(State(), va / PAGE_SIZE, 1) != ABSENT && PageAt(State(), va / PAGE_SIZE, i) == Some(page)
      requires WayFits(psc[i - 2], GetIndex(va, i), way)
      modifies this`psc
      ensures CachesOk() && PageAt(State(), va / PAGE_SIZE, i - 1) == Some(next)
      ensures i <= init ==> HitAt(psc, va, i)
      ensures i > init ==> psc == old(psc)
      ensures |psc| == 4 && forall k: nat :: k < 4 && k != i - 2 ==> psc[k] == old(psc[k])
    {
      ghost var v := va / PAGE_SIZE;
      UpIsIndex(va, i);
      LevelsPresent(State(), v, i);
      MissingEntry(State(), v, i);
      var base := pages[page].base[GetOffset(va, i)];
      next := pages[page].entry[GetOffset(va, i)].value;
      if init >= i {
        FilledIsTrue(State(), v, i);
        FillMmuCache(i, GetIndex(va, i), base, way);
      }
    }

    /** The bases of a complete walk go into the caches of the levels up to init. */
    method FillCaches(va: nat, init: nat, ways: seq<nat>)
      requires MapsOk() && CachesOk() && va < CANONICAL && init <= LEVELS
      requires BaseRead(State(), va / PAGE_SIZE, 1) != ABSENT && WaysFit(psc, va, ways)
      modifies this`psc
      ensures CachesOk() && SameAbove(old(psc), psc, init)
      ensures forall k: nat :: 2 <= k <= init ==> HitAt(psc, va, k)
      ensures |psc| == |old(psc)| == 4 && forall i: nat :: i < 4 && i + 2 > init ==> psc[i] == old(psc)[i]
    {
      ghost var t := State();
      LevelsPresent(t, va / PAGE_SIZE, LEVELS);
      var page, i := 0, LEVELS;
      while i > 1
        invariant 1 <= i <= LEVELS && State() == t && CachesAre(t, psc)
        invariant PageAt(t, va / PAGE_SIZE, i) == Some(page)
        invariant forall k: nat :: 2 <= k <= i ==> WayFitsAt(psc, va, ways, k)
        invariant forall k: nat :: 2 <= k <= init && i < k ==> HitAt(psc, va, k)
        invariant SameAbove(old(psc), psc, init)
      {
        page := FillNext(va, i, page, init, ways, old(psc));
        i := i - 1;
      }
    }

    /** One turn of the loop. */
    method FillNext(va: nat, i: nat, page: nat, init: nat, ways: seq<nat>, ghost before: seq<Psc>) returns (next: nat)
      requires MapsOk() && CachesOk() && va < CANONICAL && 2 <= i <= LEVELS && init <= LEVELS
      requires BaseRead(State(), va / PAGE_SIZE, 1) != ABSENT && PageAt(State(), va / PAGE_SIZE, i) == Some(page)
      requires forall k: nat :: 2 <= k <= i ==> WayFitsAt(psc, va, ways, k)
      requires forall k: nat :: 2 <= k <= init && i < k ==> HitAt(psc, va, k)
      requires SameAbove(before, psc, init)
      modifies this`psc
      ensures CachesOk() && PageAt(State(), va / PAGE_SIZE, i - 1) == Some(next) && SameAbove(before, psc, init)
      ensures forall k: nat :: 2 <= k < i ==> WayFitsAt(psc, va, ways, k)
      ensures forall k: nat :: 2 <= k <= init && i <= k ==> HitAt(psc, va, k)
    {
      ghost var psc0 := psc;
      assert WayFitsAt(psc, va, ways, i);
      hide TreeOk, CacheIs, Hits, WayFits;
      next := FillLevel(va, i, page, init, ways[i - 2]);
      OthersSame(psc0, psc, va, ways, i);
    }

    // ---- one request ----

    /** The lowest level whose walk base a cache holds, and that base; the root needs none. */
    method DeepestHit(va: nat) returns (level: nat, base: nat)
      requires MapsOk() && CachesOk() && va < CANONICAL
      ensures 1 <= level <= LEVELS && forall k :: 2 <= k <= level ==> !HitAt(psc, va, k)
      ensures level < LEVELS ==> HitAt(psc, va, level + 1) && base == BaseRead(State(), va / PAGE_SIZE, level + 1)
      ensures level < LEVELS ==> base != ABSENT && pages != []
    {
      assert |psc| == 4;
      hide EntryTrue, Hits, BaseRead, GetIndex, TreeOk, EntriesOk, CachesAre;
      var data5 := CheckHit(5, GetIndex(va, 5));
      var data4 := CheckHit(4, GetIndex(va, 4));
      var data3 := CheckHit(3, GetIndex(va, 3));
      var data2 := CheckHit(2, GetIndex(va, 2));
      if data2 != ABSENT {
        level, base := 1, data2;
      } else if data3 != ABSENT {
        level, base := 2, data3;
      } else if data4 != ABSENT {
        level, base := 3, data4;
      } else if data5 != ABSENT {
        level, base := 4, data5;
      } else {
        level, base := LEVELS, ABSENT;
      }
      if level < LEVELS {
        HitBase(State(), cr3, nextTableVpage, inverseTable, va, level + 1, base);
      }
    }

    /** The first request of all finds no page table and is served at once with a page fault. */
    method ServeFirst(va: nat, frames: seq<nat>, ways: seq<nat>) returns (data: nat)
      requires Valid() && mshr == None && pages == [] && 0 < va < CANONICAL
      requires |frames| == LEVELS + 1 && Supply(inverseTable, frames) && WaysFit(psc, va, ways)
      modifies this`pages, this`lev, this`pre, this`cr3, this`pageTable, this`inverseTable, this`nextTableVpage, this`psc
      ensures MapsOk() && CachesOk() && Grows(old(State()), State())
      ensures BaseRead(State(), va / PAGE_SIZE, 1) == frames[LEVELS] && data == PhysicalData(frames[LEVELS], va)
      ensures FaultServed(old(State()), State(), va / PAGE_SIZE, frames)
      ensures forall k: nat :: 2 <= k <= LEVELS ==> HitAt(psc, va, k)
    {
      ghost var t := State();
      HandlePageFault(0, va / PAGE_SIZE, LEVELS + 1, frames);
      CachesStay(t, State(), psc);
      assert frames[LEVELS] != ABSENT;
      FillCaches(va, LEVELS, ways);
      LevelsPresent(State(), va / PAGE_SIZE, LEVELS);
      var _, frame, fault := WalkDown(va, 1);
      if fault != 0 {
        LevelsPresent(State(), va / PAGE_SIZE, fault);
      }
      data := PhysicalData(frame, va);
    }

    /** Any other starts a walk at the entry a walk from CR3 would read at that level. */
    method StartWalk(va: nat, droppable: bool, level: nat, hit: nat)
      requires Valid() && mshr == None && pages != [] && 0 < va < CANONICAL && 1 <= level <= LEVELS
      requires level < LEVELS ==> hit == BaseRead(State(), va / PAGE_SIZE, level + 1)
      modifies this`mshr
      ensures Valid() && mshr.Some? && mshr.value.va == va && mshr.value.level == mshr.value.init == level
      ensures mshr.value.fullAddr == EntryAddr(State(), va / PAGE_SIZE, level) && mshr.value.droppable == droppable
    {
      var base := if level < LEVELS then hit else cr3;
      UpIsIndex(va, level);
      var addr := base * PAGE_SIZE + GetOffset(va, level) * 8;
      mshr := Some(Walk(va, level, level, false, droppable, addr, [addr]));
      assert addr == EntryAddr(State(), va / PAGE_SIZE, level);
      assert mshr.value.trace == Trail(State(), va / PAGE_SIZE, level, level);
    }

    /** A request from the read queue: a walk starts at the deepest level the caches allow. */
    method Accept(va: nat, droppable: bool, frames: seq<nat>, ways: seq<nat>) returns (outcome: Outcome)
      requires Valid() && mshr == None && 0 < va < CANONICAL
      requires |frames| == LEVELS + 1 && Supply(inverseTable, frames) && WaysFit(psc, va, ways)
      modifies this
      ensures Valid() && Grows(old(State()), State())
      ensures outcome == (if old(pages) == [] then Translated(PhysicalData(frames[LEVELS], va)) else Pending)
      ensures outcome.Translated? ==> FaultServed(old(State()), State(), va / PAGE_SIZE, frames)
      ensures outcome.Translated? ==> mshr == None && BaseRead(State(), va / PAGE_SIZE, 1) == frames[LEVELS]
                                      && forall k: nat :: 2 <= k <= LEVELS ==> HitAt(psc, va, k)
      ensures outcome.Pending? ==> mshr.Some? && mshr.value.va == va && mshr.value.level == mshr.value.init
                                   && mshr.value.droppable == droppable
      ensures outcome.Pending? ==> State() == old(State()) && psc == old(psc)
      ensures outcome.Pending? ==> mshr.value.fullAddr == EntryAddr(State(), va / PAGE_SIZE, mshr.value.init)
      ensures outcome.Pending? ==> (mshr.value.init < LEVELS ==> HitAt(psc, va, mshr.value.init + 1))
                                   && forall k :: 2 <= k <= mshr.value.init ==> !HitAt(psc, va, k)
    {
      GrowsRefl(State());
      var level, base := DeepestHit(va);
      if level == LEVELS && cr3 == ABSENT {
        CrAbsent();
        var data := ServeFirst(va, frames, ways);
        outcome := Translated(data);
      } else {
        CrAbsent();
        StartWalk(va, droppable, level, base);
        outcome := Pending;
      }
    }

    lemma CrAbsent()
      requires MapsOk()
      ensures cr3 == ABSENT <==> pages == []
    {
      if pages != [] {
        assert HasFrame(State(), 0);
      }
    }

    /** Memory has answered: the entry of the current level is known. */
    method ReturnData()
      requires Valid() && mshr.Some? && !mshr.value.returned
      modifies this`mshr
      ensures Valid() && mshr == Some(old(mshr).value.(returned := true, level := old(mshr).value.level - 1))
    {
      var w := mshr.value;
      mshr := Some(w.(returned := true, level := w.level - 1));
    }

    /** The walk is complete: caches are filled up to where it started, and the frame is reported. */
    method Finish(ways: seq<nat>) returns (data: nat)
      requires MapsOk() && CachesOk() && mshr.Some? && 0 < mshr.value.va < CANONICAL && mshr.value.init <= LEVELS
      requires BaseRead(State(), mshr.value.Page(), 1) != ABSENT && WaysFit(psc, mshr.value.va, ways)
      modifies this`psc, this`mshr
      ensures Valid() && mshr == None
      ensures data == PhysicalData(BaseRead(State(), old(mshr).value.Page(), 1), old(mshr).value.va)
      ensures forall k: nat :: 2 <= k <= old(mshr).value.init ==> HitAt(psc, old(mshr).value.va, k)
      ensures SameAbove(old(psc), psc, old(mshr).value.init)
    {
      var w := mshr.value;
      FillCaches(w.va, w.init, ways);
      LevelsPresent(State(), w.Page(), LEVELS);
      var _, frame, fault := WalkDown(w.va, 1);
      if fault != 0 {
        LevelsPresent(State(), w.Page(), fault);
      }
      data := PhysicalData(frame, w.va);
      mshr := None;
    }

    /** One entry further: the address of the next level's entry goes to memory. */
    method SendNext(base: nat)
      requires Valid() && mshr.Some? && mshr.value.returned && 1 <= mshr.value.level < LEVELS
      requires base == BaseRead(State(), mshr.value.Page(), mshr.value.level + 1)
      modifies this`mshr
      ensures Valid() && mshr.Some? && !mshr.value.returned
      ensures var addr := EntryAddr(State(), old(mshr).value.Page(), old(mshr).value.level);
              mshr.value == old(mshr).value.(fullAddr := addr, returned := false, trace := old(mshr).value.trace + [addr])
    {
      var w := mshr.value;
      EntryIs(State(), w.va, w.level, base);
      hide CachesAre, TreeOk, EntryAddr, GetOffset, BaseRead;
      var addr := base * PAGE_SIZE + GetOffset(w.va, w.level) * 8;
      TrailNext(State(), w.Page(), w.init, w.level);
      mshr := Some(w.(fullAddr := addr, returned := false, trace := w.trace + [addr]));
    }

    /** A missing entry: its pages are mapped at once, and the walk is complete. */
    method ServeFault(page: nat, fault: nat, frames: seq<nat>, ways: seq<nat>) returns (data: nat)
      requires Valid() && mshr.Some? && 1 <= fault <= LEVELS && |frames| == fault && SupplyFrom(frames, 0)
      requires PageAt(State(), mshr.value.Page(), fault) == Some(page) && BaseRead(State(), mshr.value.Page(), fault) == ABSENT
      requires WaysFit(psc, mshr.value.va, ways)
      modifies this
      ensures Valid() && mshr == None && Grows(old(State()), State())
      ensures BaseRead(State(), old(mshr).value.Page(), 1) == frames[fault - 1]
      ensures data == PhysicalData(frames[fault - 1], old(mshr).value.va)
      ensures forall k: nat :: 2 <= k <= old(mshr).value.init ==> HitAt(psc, old(mshr).value.va, k)
      ensures SameAbove(old(psc), psc, old(mshr).value.init) && FaultServed(old(State()), State(), old(mshr).value.Page(), frames)
    {
      ghost var t := State();
      var v := mshr.value.Page();
      HandlePageFault(page, v, fault, frames);
      CachesStay(t, State(), psc);
      assert frames[fault - 1] != ABSENT;
      data := Finish(ways);
    }

    /**
     * The walk goes on after memory has answered: it ends with the data frame, meets a page fault that
     * is served at once, is dropped if it may be, or reads the next level.
     */
    method Resume(frames: seq<nat>, ways: seq<nat>) returns (outcome: Outcome)
      requires Valid() && mshr.Some? && mshr.value.returned
      requires |frames| == LEVELS && Supply(inverseTable, frames) && WaysFit(psc, mshr.value.va, ways)
      modifies this
      ensures Valid() && Grows(old(State()), State())
      ensures Resumed(old(State()), State(), old(mshr).value, old(psc), psc, mshr, frames, outcome)
    {
      hide Grows, CachesAre, TreeOk, EntriesOk, WaysFit, GetIndex, Trail, Resumed, Supply;
      var w := mshr.value;
      WalkFits();
      var page, base, fault := WalkDown(w.va, w.level + 1);
      if fault != 0 {
        outcome := MeetFault(page, fault, frames, ways);
      } else if w.level == 0 {
        outcome := Deliver(frames, ways);
      } else {
        outcome := ReadOn(base, frames);
      }
    }

    lemma WalkFits()
      requires Valid() && mshr.Some?
      ensures EntriesOk(State()) && Grows(State(), State()) && 0 < mshr.value.va < CANONICAL && mshr.value.Page() < VPAGES
      ensures mshr.value.init <= LEVELS && (mshr.value.returned ==> mshr.value.level < mshr.value.init)
      ensures mshr.value.returned && mshr.value.level == 0 ==>
                mshr.value.trace == Trail(State(), mshr.value.Page(), mshr.value.init, 1)
    {
      GrowsRefl(State());
    }

    /** An entry is missing: the request is dropped if it may be, otherwise its pages are mapped. */
    method MeetFault(page: nat, fault: nat, frames: seq<nat>, ways: seq<nat>) returns (outcome: Outcome)
      requires Valid() && mshr.Some? && mshr.value.returned && mshr.value.level < fault <= LEVELS
      requires |frames| == LEVELS && Supply(inverseTable, frames) && WaysFit(psc, mshr.value.va, ways)
      requires PageAt(State(), mshr.value.Page(), fault) == Some(page) && BaseRead(State(), mshr.value.Page(), fault) == ABSENT
      modifies this
      ensures Valid() && Grows(old(State()), State())
      ensures Resumed(old(State()), State(), old(mshr).value, old(psc), psc, mshr, frames, outcome)
    {
      hide Grows, FaultServed, SameAbove, HitAt, CachesAre, TreeOk, EntriesOk, WaysFit, PhysicalData, Trail, Resumed, PageAt, BaseRead;
      ghost var t, w, before := State(), mshr.value, psc;
      WalkFits();
      StopsFirst(t, w.Page(), w.level + 1, fault);
      NotMapped(w.Page(), fault);
      if mshr.value.droppable {
        mshr := None;
        outcome := Dropped;
        DropResumed(t, w, before, frames);
      } else {
        var data := ServeFault(page, fault, frames[LEVELS - fault..], ways);
        outcome := Translated(data);
        FaultResumed(t, State(), w, before, psc, frames, fault, data);
      }
    }

    /** All levels have been read. */
    method Deliver(ghost frames: seq<nat>, ways: seq<nat>) returns (outcome: Outcome)
      requires Valid() && mshr.Some? && mshr.value.returned && mshr.value.level == 0
      requires BaseRead(State(), mshr.value.Page(), 1) != ABSENT && WaysFit(psc, mshr.value.va, ways) && |frames| == LEVELS
      modifies this`psc, this`mshr
      ensures Valid() && Grows(old(State()), State())
      ensures Resumed(old(State()), State(), old(mshr).value, old(psc), psc, mshr, frames, outcome)
    {
      hide Grows, FaultServed, SameAbove, HitAt, CachesAre, TreeOk, EntriesOk, WaysFit, PhysicalData, Trail;
      WalkFits();
      NeverMissing(State(), mshr.value.Page());
      var data := Finish(ways);
      outcome := Translated(data);
    }

    /** The next level's entry goes to memory. */
    method ReadOn(base: nat, ghost frames: seq<nat>) returns (outcome: Outcome)
      requires Valid() && mshr.Some? && mshr.value.returned && 1 <= mshr.value.level < LEVELS && |frames| == LEVELS
      requires base == BaseRead(State(), mshr.value.Page(), mshr.value.level + 1) != ABSENT
      modifies this`mshr
      ensures Valid() && Grows(old(State()), State())
      ensures Resumed(old(State()), State(), old(mshr).value, old(psc), psc, mshr, frames, outcome)
    {
      hide Grows, CachesAre, TreeOk, EntriesOk, Trail;
      WalkFits();
      SendNext(base);
      outcome := Pending;
    }

    /** A walk that stops early stops at a page that is not in the flat table either. */
    lemma NotMapped(v: nat, fault: nat)
      requires MapsOk() && v < VPAGES && 1 <= fault <= LEVELS && BaseRead(State(), v, fault) == ABSENT
      ensures v !in pageTable
    {
      TreeAgrees(State(), v);
      if BaseRead(State(), v, 1) != ABSENT {
        LevelsPresent(State(), v, fault);
      }
    }
  }
}
