/**
 * One channel of the memory controller: which queue entries are scheduled, which banks work for
 * them, and how addresses decode into channel, bank, column, rank and row.
 */
module DramSpec {
  import opened Basics
  import opened Arith

  /** Numbers of channels, banks, columns, ranks and rows; all powers of two in the program. */
  datatype Config = Config(channels: nat, banks: nat, columns: nat, ranks: nat, rows: nat) {
    predicate Valid() { channels > 0 && banks > 0 && columns > 0 && ranks > 0 && rows > 0 }
  }

  function GetChannel(c: Config, address: nat): nat
    requires c.Valid()
  {
    address % c.channels
  }

  function GetBank(c: Config, address: nat): nat
    requires c.Valid()
  {
    address / c.channels % c.banks
  }

  function GetColumn(c: Config, address: nat): nat
    requires c.Valid()
  {
    address / c.channels / c.banks % c.columns
  }

  function GetRank(c: Config, address: nat): nat
    requires c.Valid()
  {
    address / c.channels / c.banks / c.columns % c.ranks
  }

  function GetRow(c: Config, address: nat): nat
    requires c.Valid()
  {
    address / c.channels / c.banks / c.columns / c.ranks % c.rows
  }

  /** A request slot; address zero marks it empty. */
  datatype Packet = Packet(address: nat, event: nat, scheduled: bool, id: nat)

  const EMPTY: Packet := Packet(0, 0, false, 0)

  datatype Bank = Bank(working: bool, request: Option<nat>, isRead: bool, isWrite: bool, rowHit: bool,
                       openRow: Option<nat>, available: nat)

  /** The bank, counted over all ranks, that serves an address. */
  function BankOf(c: Config, address: nat): (b: nat)
    requires c.Valid()
    ensures b < c.ranks * c.banks
  {
    BankInRange(c, address);
    GetRank(c, address) * c.banks + GetBank(c, address)
  }

  lemma BankInRange(c: Config, address: nat)
    requires c.Valid()
    ensures GetRank(c, address) < c.ranks && GetBank(c, address) < c.banks
    ensures 0 <= GetRank(c, address) * c.banks && GetRank(c, address) * c.banks + c.banks <= c.ranks * c.banks
  {
    var r := GetRank(c, address);
    MulNext(c.banks, r, c.ranks);
    assert r * c.banks == c.banks * r && c.ranks * c.banks == c.banks * c.ranks;
    MulNext(c.banks, -1, r);
  }

  // ---- the decoding is one to one ----

  /** From the lowest bits up an address is its channel, bank, column, rank and row. */
  lemma DecodeRebuilds(c: Config, address: nat)
    requires c.Valid() && address < c.rows * (c.ranks * (c.columns * (c.banks * c.channels)))
    ensures GetChannel(c, address) < c.channels && GetBank(c, address) < c.banks && GetColumn(c, address) < c.columns
    ensures GetRank(c, address) < c.ranks && GetRow(c, address) < c.rows
    ensures address == (((GetRow(c, address) * c.ranks + GetRank(c, address)) * c.columns + GetColumn(c, address)) * c.banks
                        + GetBank(c, address)) * c.channels + GetChannel(c, address)
  {
    var w1 := c.channels;
    var w2, w3 := c.banks, c.columns;
    var a1 := Peel(address, w1);
    var a2 := Peel(a1, w2);
    var a3 := Peel(a2, w3);
    var a4 := Peel(a3, c.ranks);
    Shrinks(address, w1, c.rows * (c.ranks * (w3 * w2)));
    Regroup(c.rows, c.ranks, w3, w2, w1);
    Shrinks(a1, w2, c.rows * (c.ranks * w3));
    Shrinks(a2, w3, c.rows * c.ranks);
    Shrinks(a3, c.ranks, c.rows);
    DivMod(a4, c.rows, 0, a4);
  }

  /** One coordinate and what is above it. */
  lemma Peel(x: nat, w: nat) returns (above: nat)
    requires w > 0
    ensures above == x / w && 0 <= x % w < w && x == above * w + x % w
  {
    above := x / w;
    assert x == w * (x / w) + x % w && w * above == above * w;
  }

  lemma Shrinks(x: nat, w: nat, m: nat)
    requires w > 0 && x < m * w
    ensures x / w < m
  {
    var above := Peel(x, w);
    assert above * w == w * above && m * w == w * m;
    if above >= m {
      MulNext(w, m - 1, above);
    }
  }

  lemma Regroup(rows: nat, ranks: nat, columns: nat, banks: nat, channels: nat)
    ensures rows * (ranks * (columns * (banks * channels))) == rows * (ranks * (columns * banks)) * channels
    ensures rows * (ranks * (columns * banks)) == rows * (ranks * columns) * banks
    ensures rows * (ranks * columns) == rows * ranks * columns
  {
    Assoc(columns, banks, channels);
    Assoc(ranks, columns * banks, channels);
    Assoc(rows, ranks * (columns * banks), channels);
    Assoc(ranks, columns, banks);
    Assoc(rows, ranks * columns, banks);
    Assoc(rows, ranks, columns);
  }

  lemma Assoc(x: nat, y: nat, z: nat)
    ensures x * (y * z) == x * y * z
  {
  }

  /** Two addresses within the capacity of the channels that decode alike are the same. */
  lemma DecodeUnique(c: Config, x: nat, y: nat)
    requires c.Valid()
    requires x < c.rows * (c.ranks * (c.columns * (c.banks * c.channels)))
    requires y < c.rows * (c.ranks * (c.columns * (c.banks * c.channels)))
    requires GetChannel(c, x) == GetChannel(c, y) && GetBank(c, x) == GetBank(c, y) && GetColumn(c, x) == GetColumn(c, y)
    requires GetRank(c, x) == GetRank(c, y) && GetRow(c, x) == GetRow(c, y)
    ensures x == y
  {
    DecodeRebuilds(c, x);
    DecodeRebuilds(c, y);
  }

  /** Two addresses share a bank exactly if they agree in rank and bank. */
  lemma BankOfPair(c: Config, x: nat, y: nat)
    requires c.Valid()
    ensures BankOf(c, x) == BankOf(c, y) <==> GetRank(c, x) == GetRank(c, y) && GetBank(c, x) == GetBank(c, y)
  {
    BankInRange(c, x);
    BankInRange(c, y);
    PairUnique(c.banks, GetRank(c, x), GetBank(c, x), GetRank(c, y), GetBank(c, y));
  }

  lemma PairUnique(w: nat, q: nat, r: nat, q': nat, r': nat)
    requires r < w && r' < w
    ensures q * w + r == q' * w + r' <==> q == q' && r == r'
  {
    assert q * w == w * q && q' * w == w * q';
    if w * q + r == w * q' + r' {
      QuotientUnique(w, q, r, q', r');
    }
  }

  /** What scheduling needs to know of the decoding: the bank, over all ranks, and the row. */
  datatype Mapping = Mapping(banks: nat, bank: nat -> nat, row: nat -> nat)

  ghost predicate IsMapping(m: Mapping) { forall a: nat :: m.bank(a) < m.banks }

  function MappingOf(c: Config): (m: Mapping)
    requires c.Valid()
  {
    Mapping(c.ranks * c.banks, a => BankOf(c, a), a => GetRow(c, a))
  }

  /** Two addresses compete for one row of one bank exactly if rank, bank and row agree. */
  lemma MappingOk(c: Config, x: nat, y: nat)
    requires c.Valid()
    ensures IsMapping(MappingOf(c))
    ensures var m := MappingOf(c);
            m.bank(x) == m.bank(y) && m.row(x) == m.row(y) <==>
              GetRank(c, x) == GetRank(c, y) && GetBank(c, x) == GetBank(c, y) && GetRow(c, x) == GetRow(c, y)
  {
    BankOfPair(c, x, y);
  }

  // ---- scheduled entries and working banks ----

  ghost function Count(q: seq<Packet>): nat {
    if q == [] then 0 else (if q[|q| - 1].scheduled then 1 else 0) + Count(q[..|q| - 1])
  }

  ghost function Used(q: seq<Packet>): nat {
    if q == [] then 0 else (if q[|q| - 1].address != 0 then 1 else 0) + Used(q[..|q| - 1])
  }

  lemma {:induction false} CountUpdate(q: seq<Packet>, i: nat, p: Packet)
    requires i < |q|
    ensures Count(q[i := p]) + (if q[i].scheduled then 1 else 0) == Count(q) + if p.scheduled then 1 else 0
    ensures Used(q[i := p]) + (if q[i].address != 0 then 1 else 0) == Used(q) + if p.address != 0 then 1 else 0
  {
    var k := |q| - 1;
    if i < k {
      CountUpdate(q[..k], i, p);
      assert q[i := p][..k] == q[..k][i := p];
    } else {
      assert q[i := p][..k] == q[..k];
    }
  }

  lemma {:induction false} CountZero(q: seq<Packet>)
    ensures Count(q) == 0 <==> forall i :: 0 <= i < |q| ==> !q[i].scheduled
  {
    if q != [] {
      CountZero(q[..|q| - 1]);
    }
  }

  lemma {:induction false} UsedZero(q: seq<Packet>)
    ensures Used(q) == 0 <==> forall i :: 0 <= i < |q| ==> q[i].address == 0
    ensures Used(q) <= |q| && (Used(q) == |q| <==> forall i :: 0 <= i < |q| ==> q[i].address != 0)
  {
    if q != [] {
      UsedZero(q[..|q| - 1]);
    }
  }

  /** A scheduled entry has its bank working for it. */
  ghost predicate Served(m: Mapping, q: seq<Packet>, bank: seq<Bank>, i: nat)
    requires IsMapping(m) && |bank| == m.banks && i < |q|
  {
    q[i].scheduled ==>
      q[i].address != 0 && bank[m.bank(q[i].address)].working && bank[m.bank(q[i].address)].request == Some(i)
  }

  /** A working bank works for a scheduled entry of the active queue; an idle one for nobody. */
  ghost predicate Employed(m: Mapping, q: seq<Packet>, bank: seq<Bank>, b: nat, isWq: bool)
    requires IsMapping(m) && |bank| == m.banks && b < |bank|
  {
    if bank[b].working then
      && bank[b].request.Some? && bank[b].request.value < |q|
      && q[bank[b].request.value].scheduled && m.bank(q[bank[b].request.value].address) == b
      && bank[b].isWrite == isWq && bank[b].isRead == !isWq
    else
      bank[b].request == None && !bank[b].isRead && !bank[b].isWrite
  }

  ghost predicate Active(m: Mapping, q: seq<Packet>, bank: seq<Bank>, isWq: bool) {
    && IsMapping(m) && |bank| == m.banks
    && (forall i: nat :: i < |q| ==> Served(m, q, bank, i))
    && (forall b: nat :: b < |bank| ==> Employed(m, q, bank, b, isWq))
  }

  /** A bank works exactly if exactly one scheduled entry maps to it, and that is its request. */
  lemma WorkingIffOne(m: Mapping, q: seq<Packet>, bank: seq<Bank>, isWq: bool, b: nat)
    requires Active(m, q, bank, isWq) && b < |bank|
    ensures bank[b].working <==> exists i: nat :: MapsTo(m, q, i, b)
    ensures forall i: nat, j: nat :: MapsTo(m, q, i, b) && MapsTo(m, q, j, b) ==> i == j
    ensures forall i: nat :: MapsTo(m, q, i, b) ==> bank[b].request == Some(i)
  {
    assert Employed(m, q, bank, b, isWq);
    if bank[b].working {
      assert MapsTo(m, q, bank[b].request.value, b);
    }
    forall i: nat | MapsTo(m, q, i, b)
      ensures bank[b].working && bank[b].request == Some(i)
    {
      assert Served(m, q, bank, i);
    }
  }

  ghost predicate MapsTo(m: Mapping, q: seq<Packet>, i: nat, b: nat)
    requires IsMapping(m)
  {
    i < |q| && q[i].scheduled && m.bank(q[i].address) == b
  }

  function Idle(b: Bank): Bank {
    b.(request := None, rowHit := false, working := false, isRead := false, isWrite := false)
  }

  /** An entry becomes scheduled and its idle bank starts to work for it. */
  lemma ScheduleKeeps(m: Mapping, q: seq<Packet>, bank: seq<Bank>, isWq: bool, i: nat, p: Packet, nb: Bank)
    requires Active(m, q, bank, isWq) && i < |q| && q[i].address != 0 && !q[i].scheduled
    requires !bank[m.bank(q[i].address)].working && p.address == q[i].address && p.scheduled
    requires nb.working && nb.request == Some(i) && nb.isWrite == isWq && nb.isRead == !isWq
    ensures Active(m, q[i := p], bank[m.bank(q[i].address) := nb], isWq)
  {
    var b := m.bank(q[i].address);
    var q', bank' := q[i := p], bank[b := nb];
    forall j: nat | j < |q|
      ensures Served(m, q', bank', j)
    {
      assert Served(m, q, bank, j);
    }
    forall x: nat | x < |bank|
      ensures Employed(m, q', bank', x, isWq)
    {
      assert Employed(m, q, bank, x, isWq);
    }
  }

  /** A scheduled entry is taken back or removed, and its bank becomes idle. */
  lemma ReleaseKeeps(m: Mapping, q: seq<Packet>, bank: seq<Bank>, isWq: bool, i: nat, p: Packet, nb: Bank)
    requires Active(m, q, bank, isWq) && i < |q| && q[i].scheduled && !p.scheduled
    requires !nb.working && nb.request == None && !nb.isRead && !nb.isWrite
    ensures Active(m, q[i := p], bank[m.bank(q[i].address) := nb], isWq)
  {
    var b := m.bank(q[i].address);
    var q', bank' := q[i := p], bank[b := nb];
    assert Served(m, q, bank, i);
    forall j: nat | j < |q|
      ensures Served(m, q', bank', j)
    {
      assert Served(m, q, bank, j);
    }
    forall x: nat | x < |bank|
      ensures Employed(m, q', bank', x, isWq)
    {
      assert Employed(m, q, bank, x, isWq);
    }
  }

  /** An unscheduled slot may change at will. */
  lemma SlotKeeps(m: Mapping, q: seq<Packet>, bank: seq<Bank>, isWq: bool, i: nat, p: Packet)
    requires Active(m, q, bank, isWq) && i < |q| && !q[i].scheduled && !p.scheduled
    ensures Active(m, q[i := p], bank, isWq)
  {
    var q' := q[i := p];
    forall j: nat | j < |q|
      ensures Served(m, q', bank, j)
    {
      assert Served(m, q, bank, j);
    }
    forall x: nat | x < |bank|
      ensures Employed(m, q', bank, x, isWq)
    {
      assert Employed(m, q, bank, x, isWq);
    }
  }

  /** With nothing scheduled all banks are idle, and either queue may become the active one. */
  lemma NothingScheduled(m: Mapping, q: seq<Packet>, r: seq<Packet>, bank: seq<Bank>, isWq: bool)
    requires Active(m, q, bank, isWq) && Count(q) == 0 && Count(r) == 0
    ensures Active(m, r, bank, !isWq)
  {
    CountZero(q);
    CountZero(r);
    var other := !isWq;
    forall b: nat | b < |bank|
      ensures Employed(m, r, bank, b, other)
    {
      assert Employed(m, q, bank, b, isWq);
    }
  }
}
