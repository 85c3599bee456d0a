/** The read and write queue of one DRAM channel, its banks and its data bus. */
module DramController {
  import opened Basics
  import opened DramSpec

  // ---- searching a queue ----

  ghost predicate Waiting(p: Packet) { p.address != 0 && !p.scheduled }

  /** What a search looks for: entries being served, or entries waiting. */
  ghost predicate Wanted(p: Packet, serving: bool) { if serving then p.scheduled else Waiting(p) }

  /** i is the first of the oldest entries with the property, or the queue's size if there is none. */
  ghost predicate OldestOf(q: seq<Packet>, serving: bool, i: nat) {
    if i < |q| then
      && Wanted(q[i], serving)
      && forall j :: 0 <= j < |q| && Wanted(q[j], serving) ==> q[i].event <= q[j].event && (j < i ==> q[i].event < q[j].event)
    else i == |q| && forall j :: 0 <= j < |q| ==> !Wanted(q[j], serving)
  }

  /** The requests held in a queue. */
  ghost function Stored(q: seq<Packet>): multiset<(nat, nat)> {
    if q == [] then multiset{}
    else
      Stored(q[..|q| - 1]) + Held(q[|q| - 1])
  }

  ghost function Held(p: Packet): multiset<(nat, nat)> {
    if p.address != 0 then multiset{(p.address, p.id)} else multiset{}
  }

  lemma {:induction false} StoredUpdate(q: seq<Packet>, i: nat, p: Packet)
    requires i < |q|
    ensures Stored(q[i := p]) + Held(q[i]) == Stored(q) + Held(p)
  {
    hide Stored, Held;
    var k, r := |q| - 1, q[i := p];
    LastStored(q);
    LastStored(r);
    if i < k {
      StoredUpdate(q[..k], i, p);
      assert r[..k] == q[..k][i := p];
      Exchanged(Stored(q[..k]), Stored(r[..k]), Held(q[i]), Held(p), Held(q[k]));
    } else {
      assert r[..k] == q[..k];
      Exchanged(Held(q[k]), Held(p), Held(q[k]), Held(p), Stored(q[..k]));
    }
  }

  lemma LastStored(q: seq<Packet>)
    requires q != []
    ensures Stored(q) == Stored(q[..|q| - 1]) + Held(q[|q| - 1])
  {
  }

  lemma Exchanged(a: multiset<(nat, nat)>, b: multiset<(nat, nat)>, g: multiset<(nat, nat)>, h: multiset<(nat, nat)>,
                  z: multiset<(nat, nat)>)
    requires b + g == a + h
    ensures (b + z) + g == (a + z) + h
  {
    forall e: (nat, nat)
      ensures ((b + z) + g)[e] == ((a + z) + h)[e]
    {
      assert (b + g)[e] == (a + h)[e];
    }
  }

  class DramQueue {
    const isWq: bool
    var entries: seq<Packet>
    var occupancy: nat
    var scheduleIndex: nat
    var processIndex: nat

    ghost predicate Counted()
      reads this
    {
      occupancy == Used(entries)
    }

    /** What holds even while the two searches are out of date. */
    ghost predicate Sound()
      reads this
    {
      Counted() && forall i :: 0 <= i < |entries| && entries[i].scheduled ==> entries[i].address != 0
    }

    ghost predicate Valid()
      reads this
    {
      Sound() && OldestOf(entries, false, scheduleIndex) && OldestOf(entries, true, processIndex)
    }

    constructor (isWq: bool, size: nat)
      ensures Valid() && this.isWq == isWq && |entries| == size && Count(entries) == 0 && Stored(entries) == multiset{}
    {
      this.isWq := isWq;
      entries := seq(size, _ => EMPTY);
      occupancy, scheduleIndex, processIndex := 0, size, size;
      new;
      UsedZero(entries);
      CountZero(entries);
      NothingStored(entries);
    }

    /** The oldest request that is not scheduled yet. */
    method UpdateScheduleCycle()
      modifies this`scheduleIndex
      ensures OldestOf(entries, false, scheduleIndex)
    {
      var m: nat := |entries|;
      for i := 0 to |entries|
        invariant m == |entries| || m < i
        invariant m == |entries| ==> forall j :: 0 <= j < i ==> !Wanted(entries[j], false)
        invariant m < |entries| ==> Wanted(entries[m], false)
        invariant m < |entries| ==> forall j :: 0 <= j < i && Wanted(entries[j], false) ==>
                                      entries[m].event <= entries[j].event && (j < m ==> entries[m].event < entries[j].event)
      {
        if entries[i].address != 0 && !entries[i].scheduled && (m == |entries| || entries[i].event < entries[m].event) {
          m := i;
        }
      }
      scheduleIndex := m;
    }

    /** The oldest request that is being served. */
    method UpdateProcessCycle()
      modifies this`processIndex
      ensures OldestOf(entries, true, processIndex)
    {
      var m: nat := |entries|;
      for i := 0 to |entries|
        invariant m == |entries| || m < i
        invariant m == |entries| ==> forall j :: 0 <= j < i ==> !Wanted(entries[j], true)
        invariant m < |entries| ==> Wanted(entries[m], true)
        invariant m < |entries| ==> forall j :: 0 <= j < i && Wanted(entries[j], true) ==>
                                      entries[m].event <= entries[j].event && (j < m ==> entries[m].event < entries[j].event)
      {
        if entries[i].scheduled && (m == |entries| || entries[i].event < entries[m].event) {
          m := i;
        }
      }
      processIndex := m;
    }

    /** The request in slot i is marked as scheduled or taken back, and both searches are redone. */
    method Mark(i: nat, p: Packet)
      requires Valid() && i < |entries| && entries[i].address == p.address != 0
      modifies this`entries, this`scheduleIndex, this`processIndex
      ensures Valid() && entries == old(entries)[i := p]
    {
      UsedSame(entries, i, p);
      entries := entries[i := p];
      UpdateScheduleCycle();
      UpdateProcessCycle();
    }

    /** A served request leaves; what is waiting is not affected. */
    method Remove(i: nat)
      requires Valid() && i < |entries| && entries[i].scheduled
      modifies this`entries, this`occupancy, this`processIndex
      ensures Valid() && entries == old(entries)[i := EMPTY]
    {
      CountUpdate(entries, i, EMPTY);
      entries := entries[i := EMPTY];
      occupancy := occupancy - 1;
      UpdateProcessCycle();
    }

    /** A new request takes an empty slot. */
    method Put(i: nat, p: Packet)
      requires Valid() && i < |entries| && entries[i].address == 0 && p.address != 0 && !p.scheduled
      modifies this`entries, this`occupancy, this`scheduleIndex
      ensures Valid() && entries == old(entries)[i := p]
    {
      CountUpdate(entries, i, p);
      entries := entries[i := p];
      occupancy := occupancy + 1;
      UpdateScheduleCycle();
    }

    /** The first slot with an address; address zero finds an empty slot. */
    method CheckQueue(address: nat) returns (index: nat)
      ensures index <= |entries| && forall j :: 0 <= j < index ==> entries[j].address != address
      ensures index < |entries| ==> entries[index].address == address
    {
      for i := 0 to |entries|
        invariant forall j :: 0 <= j < i ==> entries[j].address != address
      {
        if entries[i].address == address {
          return i;
        }
      }
      return |entries|;
    }
  }

  lemma {:induction false} NothingStored(q: seq<Packet>)
    requires forall i :: 0 <= i < |q| ==> q[i].address == 0
    ensures Stored(q) == multiset{}
  {
    if q != [] {
      NothingStored(q[..|q| - 1]);
    }
  }

  // ---- choosing what to schedule ----

  /** A waiting request whose bank is free. */
  ghost predicate Ready(m: Mapping, bank: seq<Bank>, p: Packet)
    requires IsMapping(m) && |bank| == m.banks
  {
    Waiting(p) && !bank[m.bank(p.address)].working
  }

  /** One whose row is open in it. */
  ghost predicate RowReady(m: Mapping, bank: seq<Bank>, p: Packet)
    requires IsMapping(m) && |bank| == m.banks
  {
    Ready(m, bank, p) && bank[m.bank(p.address)].openRow == Some(m.row(p.address))
  }

  /** Entry i is older than entry j, or as old and not behind it. */
  ghost predicate Before(q: seq<Packet>, i: nat, j: nat) {
    i < |q| && j < |q| && q[i].event <= q[j].event && (j < i ==> q[i].event < q[j].event)
  }

  /** The oldest open-row hit if there is one, otherwise the oldest request with a free bank. */
  ghost predicate Chosen(m: Mapping, q: seq<Packet>, bank: seq<Bank>, i: nat, hit: bool)
    requires IsMapping(m) && |bank| == m.banks
  {
    && i <= |q|
    && (hit ==> i < |q| && RowReady(m, bank, q[i])
                && forall j :: 0 <= j < |q| && RowReady(m, bank, q[j]) ==> Before(q, i, j))
    && (!hit ==> forall j :: 0 <= j < |q| ==> !RowReady(m, bank, q[j]))
    && (!hit && i < |q| ==> Ready(m, bank, q[i]) && forall j :: 0 <= j < |q| && Ready(m, bank, q[j]) ==> Before(q, i, j))
    && (i == |q| ==> forall j :: 0 <= j < |q| ==> !Ready(m, bank, q[j]))
  }

  method OldestHit(m: Mapping, q: seq<Packet>, bank: seq<Bank>) returns (best: nat)
    requires IsMapping(m) && |bank| == m.banks
    ensures best <= |q| && (best == |q| ==> forall j :: 0 <= j < |q| ==> !RowReady(m, bank, q[j]))
    ensures best < |q| ==> RowReady(m, bank, q[best]) && forall j :: 0 <= j < |q| && RowReady(m, bank, q[j]) ==> Before(q, best, j)
  {
    best := |q|;
    for i := 0 to |q|
      invariant best == |q| || best < i
      invariant best == |q| ==> forall j :: 0 <= j < i ==> !RowReady(m, bank, q[j])
      invariant best < |q| ==> RowReady(m, bank, q[best])
      invariant best < |q| ==> forall j :: 0 <= j < i && RowReady(m, bank, q[j]) ==> Before(q, best, j)
    {
      if q[i].scheduled || q[i].address == 0 {
        continue;
      }
      var b := m.bank(q[i].address);
      if bank[b].working || bank[b].openRow != Some(m.row(q[i].address)) {
        continue;
      }
      if best == |q| || q[i].event < q[best].event {
        best := i;
      }
    }
  }

  method OldestReady(m: Mapping, q: seq<Packet>, bank: seq<Bank>) returns (best: nat)
    requires IsMapping(m) && |bank| == m.banks
    ensures best <= |q| && (best == |q| ==> forall j :: 0 <= j < |q| ==> !Ready(m, bank, q[j]))
    ensures best < |q| ==> Ready(m, bank, q[best]) && forall j :: 0 <= j < |q| && Ready(m, bank, q[j]) ==> Before(q, best, j)
  {
    best := |q|;
    for i := 0 to |q|
      invariant best == |q| || best < i
      invariant best == |q| ==> forall j :: 0 <= j < i ==> !Ready(m, bank, q[j])
      invariant best < |q| ==> Ready(m, bank, q[best])
      invariant best < |q| ==> forall j :: 0 <= j < i && Ready(m, bank, q[j]) ==> Before(q, best, j)
    {
      if q[i].scheduled || q[i].address == 0 || bank[m.bank(q[i].address)].working {
        continue;
      }
      if best == |q| || q[i].event < q[best].event {
        best := i;
      }
    }
  }

  method Choose(m: Mapping, q: seq<Packet>, bank: seq<Bank>) returns (i: nat, hit: bool)
    requires IsMapping(m) && |bank| == m.banks
    ensures Chosen(m, q, bank, i, hit)
  {
    i := OldestHit(m, q, bank);
    hit := i < |q|;
    if !hit {
      i := OldestReady(m, q, bank);
    }
  }

  // ---- the channel ----

  datatype Timing = Timing(tRP: nat, tRCD: nat, tCAS: nat, returnTime: nat, turnAround: nat) {
    /** When a request that starts now has its data. */
    function Due(hit: bool, now: nat): nat { now + if hit then tCAS else tRP + tRCD + tCAS }
  }

  /** What became of a request; before the end of the warm-up it never reaches the queues. */
  datatype AddResult = WarmingUp | Forwarded(index: nat) | Merged(index: nat) | Queued(index: nat) | Full

  /** The first entry for an address. */
  ghost predicate FoundAt(q: seq<Packet>, address: nat, i: nat) {
    i < |q| && q[i].address == address && forall j :: 0 <= j < i ==> q[j].address != address
  }

  /** Transfers on the data bus start at least the return time apart. */
  ghost predicate Spaced(transfers: seq<nat>, gap: nat) {
    forall i: nat, j: nat :: i < j < |transfers| ==> transfers[i] + gap <= transfers[j]
  }

  lemma SpacedNext(transfers: seq<nat>, gap: nat, now: nat)
    requires Spaced(transfers, gap) && (transfers != [] ==> transfers[|transfers| - 1] + gap <= now)
    ensures Spaced(transfers + [now], gap)
  {
    var t := transfers + [now];
    forall i: nat, j: nat | i < j < |t|
      ensures t[i] + gap <= t[j]
    {
      if j == |transfers| && i < |transfers| - 1 {
        assert transfers[i] + gap <= transfers[|transfers| - 1];
      }
    }
  }

  /** The channel as a value, with the history of accepted and answered requests and of transfers. */
  datatype Channel = Channel(
    mapping: Mapping, gap: nat, rq: seq<Packet>, wq: seq<Packet>, bank: seq<Bank>, writeMode: bool,
    nReads: nat, nWrites: nat, dbus: nat,
    accepted: multiset<(nat, nat)>, served: multiset<(nat, nat)>, transfers: seq<nat>)
  {
    function Current(): seq<Packet> { if writeMode then wq else rq }

    function Other(): seq<Packet> { if writeMode then rq else wq }

    /** The queue in use replaced, and with it the bank array and the count of scheduled entries. */
    function With(q: seq<Packet>, b: seq<Bank>, count: nat): Channel {
      if writeMode then this.(wq := q, bank := b, nWrites := count) else this.(rq := q, bank := b, nReads := count)
    }
  }

  ghost predicate BanksOk(c: Channel) {
    && IsMapping(c.mapping) && |c.bank| == c.mapping.banks
    && Active(c.mapping, c.Current(), c.bank, c.writeMode) && Count(c.Other()) == 0
    && c.nReads == Count(c.rq) && c.nWrites == Count(c.wq)
  }

  ghost predicate BusOk(c: Channel) {
    Spaced(c.transfers, c.gap) && (c.transfers != [] ==> c.transfers[|c.transfers| - 1] + c.gap <= c.dbus)
  }

  ghost predicate NothingLost(c: Channel) {
    c.accepted == c.served + Stored(c.rq) + Stored(c.wq)
  }

  ghost predicate ChannelOk(c: Channel) { BanksOk(c) && BusOk(c) && NothingLost(c) }

  lemma Cancel(x: multiset<(nat, nat)>, y: multiset<(nat, nat)>, h: multiset<(nat, nat)>)
    requires x + h == y + h
    ensures x == y
  {
    forall e: (nat, nat)
      ensures x[e] == y[e]
    {
      assert (x + h)[e] == (y + h)[e];
    }
  }

  /** A slot that keeps its request keeps what the queue holds. */
  lemma StoredSame(q: seq<Packet>, i: nat, p: Packet)
    requires i < |q| && p.address == q[i].address && p.id == q[i].id
    ensures Stored(q[i := p]) == Stored(q)
  {
    StoredUpdate(q, i, p);
    Cancel(Stored(q[i := p]), Stored(q), Held(p));
  }

  lemma StoredRemoved(q: seq<Packet>, i: nat)
    requires i < |q|
    ensures Stored(q) == Stored(q[i := EMPTY]) + Held(q[i])
  {
    StoredUpdate(q, i, EMPTY);
  }

  /** Request i starts on its bank. */
  lemma StartBanks(c: Channel, i: nat, p: Packet, nb: Bank)
    requires BanksOk(c) && i < |c.Current()| && Ready(c.mapping, c.bank, c.Current()[i])
    requires p.scheduled && p.address == c.Current()[i].address
    requires nb.working && nb.request == Some(i) && nb.isWrite == c.writeMode && nb.isRead == !c.writeMode
    ensures var q := c.Current();
            BanksOk(c.With(q[i := p], c.bank[c.mapping.bank(p.address) := nb], Count(q) + 1))
  {
    ScheduleKeeps(c.mapping, c.Current(), c.bank, c.writeMode, i, p, nb);
    CountUpdate(c.Current(), i, p);
  }

  lemma StartKeeps(c: Channel, i: nat, p: Packet, nb: Bank)
    requires ChannelOk(c) && i < |c.Current()| && Ready(c.mapping, c.bank, c.Current()[i])
    requires p.scheduled && p.address == c.Current()[i].address && p.id == c.Current()[i].id
    requires nb.working && nb.request == Some(i) && nb.isWrite == c.writeMode && nb.isRead == !c.writeMode
    ensures var q := c.Current();
            ChannelOk(c.With(q[i := p], c.bank[c.mapping.bank(p.address) := nb], Count(q) + 1))
  {
    var q, b := c.Current(), c.bank[c.mapping.bank(p.address) := nb];
    hide BanksOk, BusOk, NothingLost;
    StartBanks(c, i, p, nb);
    SameLeft(c, i, p, b, Count(q) + 1);
  }

  /** A change to one entry that keeps its request loses nothing, and leaves the bus alone. */
  lemma SameLeft(c: Channel, i: nat, p: Packet, b: seq<Bank>, count: nat)
    requires BusOk(c) && NothingLost(c) && i < |c.Current()| && p.address == c.Current()[i].address && p.id == c.Current()[i].id
    ensures BusOk(c.With(c.Current()[i := p], b, count)) && NothingLost(c.With(c.Current()[i := p], b, count))
  {
    hide Spaced, Stored;
    StoredSame(c.Current(), i, p);
  }

  /** Request i is taken back. */
  lemma TakeBackKeeps(c: Channel, i: nat, p: Packet, nb: Bank)
    requires ChannelOk(c) && i < |c.Current()| && c.Current()[i].scheduled
    requires !p.scheduled && p.address == c.Current()[i].address && p.id == c.Current()[i].id
    requires !nb.working && nb.request == None && !nb.isRead && !nb.isWrite
    ensures Count(c.Current()) > 0
    ensures var q := c.Current();
            ChannelOk(c.With(q[i := p], c.bank[c.mapping.bank(p.address) := nb], Count(q) - 1))
  {
    var q := c.Current();
    ReleaseKeeps(c.mapping, q, c.bank, c.writeMode, i, p, nb);
    CountUpdate(q, i, p);
    StoredSame(q, i, p);
  }

  lemma FinishBanks(c: Channel, i: nat, nb: Bank)
    requires BanksOk(c) && i < |c.Current()| && c.Current()[i].scheduled
    requires !nb.working && nb.request == None && !nb.isRead && !nb.isWrite
    ensures Count(c.Current()) > 0
    ensures var q := c.Current();
            BanksOk(c.With(q[i := EMPTY], c.bank[c.mapping.bank(q[i].address) := nb], Count(q) - 1))
  {
    ReleaseKeeps(c.mapping, c.Current(), c.bank, c.writeMode, i, EMPTY, nb);
    CountUpdate(c.Current(), i, EMPTY);
  }

  lemma FinishLost(c: Channel, i: nat)
    requires NothingLost(c) && i < |c.Current()|
    ensures var q := c.Current()[i := EMPTY];
            c.accepted == c.served + Held(c.Current()[i]) + Stored(q) + Stored(c.Other())
  {
    StoredRemoved(c.Current(), i);
  }

  /** Request i leaves over the data bus. */
  lemma FinishKeeps(c: Channel, i: nat, nb: Bank, now: nat)
    requires ChannelOk(c) && i < |c.Current()| && c.Current()[i].scheduled && c.dbus <= now
    requires !nb.working && nb.request == None && !nb.isRead && !nb.isWrite
    ensures Count(c.Current()) > 0
    ensures var q := c.Current();
            ChannelOk(c.With(q[i := EMPTY], c.bank[c.mapping.bank(q[i].address) := nb], Count(q) - 1)
                       .(dbus := now + c.gap, served := c.served + Held(q[i]), transfers := c.transfers + [now]))
  {
    hide Spaced, Held, Stored, Active, NothingLost;
    assert BusOk(c) && IsMapping(c.mapping) && |c.bank| == c.mapping.banks;
    var q := c.Current();
    var b, count := c.bank[c.mapping.bank(q[i].address) := nb], Count(q) - 1;
    FinishBanks(c, i, nb);
    hide BanksOk, Count;
    FinishLost(c, i);
    SpacedNext(c.transfers, c.gap, now);
    WithParts(c, q[i := EMPTY], b, count);
    SameBanks(c.With(q[i := EMPTY], b, count), now + c.gap, c.served + Held(q[i]), c.transfers + [now]);
  }

  lemma WithParts(c: Channel, q: seq<Packet>, b: seq<Bank>, count: nat)
    ensures var d := c.With(q, b, count);
            && d.Current() == q && d.Other() == c.Other() && d.gap == c.gap && d.accepted == c.accepted
            && d.transfers == c.transfers && d.served == c.served && d.dbus == c.dbus
  {
  }

  /** The history may grow as long as it adds up. */
  lemma SameBanks(c: Channel, dbus: nat, served: multiset<(nat, nat)>, transfers: seq<nat>)
    requires BanksOk(c) && Spaced(transfers, c.gap) && transfers != [] && transfers[|transfers| - 1] + c.gap <= dbus
    requires c.accepted == served + Stored(c.Current()) + Stored(c.Other())
    ensures ChannelOk(c.(dbus := dbus, served := served, transfers := transfers))
  {
    var d := c.(dbus := dbus, served := served, transfers := transfers);
    assert BanksOk(d);
    hide BanksOk, Spaced, Stored;
    Reordered(served, Stored(c.rq), Stored(c.wq));
  }

  lemma Reordered(a: multiset<(nat, nat)>, b: multiset<(nat, nat)>, c: multiset<(nat, nat)>)
    ensures (a + b) + c == (a + c) + b
  {
  }

  /** With nothing scheduled the other queue takes over. */
  lemma SwitchKeeps(c: Channel, turn: nat)
    requires ChannelOk(c) && Count(c.Current()) == 0
    ensures ChannelOk(c.(writeMode := !c.writeMode, dbus := c.dbus + turn))
  {
    NothingScheduled(c.mapping, c.Current(), c.Other(), c.bank, c.writeMode);
  }

  ghost function WithPut(c: Channel, toWq: bool, i: nat, p: Packet): Channel
    requires i < |if toWq then c.wq else c.rq|
  {
    (if toWq then c.(wq := c.wq[i := p]) else c.(rq := c.rq[i := p])).(accepted := c.accepted + Held(p))
  }

  lemma PutBanks(c: Channel, toWq: bool, i: nat, p: Packet)
    requires BanksOk(c) && !p.scheduled
    requires var q := if toWq then c.wq else c.rq; i < |q| && !q[i].scheduled
    ensures BanksOk(WithPut(c, toWq, i, p))
  {
    var q := if toWq then c.wq else c.rq;
    CountUpdate(q, i, p);
    if toWq == c.writeMode {
      SlotKeeps(c.mapping, q, c.bank, c.writeMode, i, p);
    }
  }

  lemma StoredAdded(q: seq<Packet>, i: nat, p: Packet)
    requires i < |q| && q[i].address == 0
    ensures Stored(q[i := p]) == Stored(q) + Held(p)
  {
    StoredUpdate(q, i, p);
    assert Held(q[i]) == multiset{};
  }

  /** A new request goes into an empty slot of either queue. */
  lemma PutKeeps(c: Channel, toWq: bool, i: nat, p: Packet)
    requires ChannelOk(c) && !p.scheduled
    requires var q := if toWq then c.wq else c.rq; i < |q| && q[i].address == 0 && !q[i].scheduled
    ensures ChannelOk(WithPut(c, toWq, i, p))
  {
    PutBanks(c, toWq, i, p);
    PutLost(c, toWq, i, p);
  }

  lemma PutLost(c: Channel, toWq: bool, i: nat, p: Packet)
    requires NothingLost(c)
    requires var q := if toWq then c.wq else c.rq; i < |q| && q[i].address == 0
    ensures NothingLost(WithPut(c, toWq, i, p))
  {
    StoredAdded(if toWq then c.wq else c.rq, i, p);
  }

  /** A busy bus only puts off the bank's next try. */
  lemma DelayKeeps(c: Channel, b: nat, available: nat)
    requires ChannelOk(c) && b < |c.bank|
    ensures ChannelOk(c.(bank := c.bank[b := c.bank[b].(available := available)]))
  {
    var bank' := c.bank[b := c.bank[b].(available := available)];
    forall i: nat | i < |c.Current()|
      ensures Served(c.mapping, c.Current(), bank', i)
    {
      assert Served(c.mapping, c.Current(), c.bank, i);
    }
    forall x: nat | x < |c.bank|
      ensures Employed(c.mapping, c.Current(), bank', x, c.writeMode)
    {
      assert Employed(c.mapping, c.Current(), c.bank, x, c.writeMode);
    }
  }

  lemma StartsOk(c: Channel)
    requires IsMapping(c.mapping) && |c.bank| == c.mapping.banks && !c.writeMode
    requires forall b :: 0 <= b < |c.bank| ==> c.bank[b] == Bank(false, None, false, false, false, None, 0)
    requires Count(c.rq) == 0 && Count(c.wq) == 0 && Stored(c.rq) == multiset{} && Stored(c.wq) == multiset{}
    requires c.nReads == c.nWrites == 0 && c.accepted == c.served == multiset{} && c.transfers == []
    ensures ChannelOk(c)
  {
    CountZero(c.rq);
  }

  ghost predicate SameHistory(c: Channel, c': Channel) {
    c'.dbus == c.dbus && c'.accepted == c.accepted && c'.served == c.served && c'.transfers == c.transfers
  }

  lemma StartModel(c: Channel, i: nat, p: Packet, nb: Bank) returns (c': Channel)
    requires ChannelOk(c) && i < |c.Current()| && Ready(c.mapping, c.bank, c.Current()[i])
    requires p.scheduled && p.address == c.Current()[i].address && p.id == c.Current()[i].id
    requires nb.working && nb.request == Some(i) && nb.isWrite == c.writeMode && nb.isRead == !c.writeMode
    ensures ChannelOk(c') && c'.bank == c.bank[c.mapping.bank(p.address) := nb]
    ensures c'.rq == (if c.writeMode then c.rq else c.rq[i := p]) && c'.wq == (if c.writeMode then c.wq[i := p] else c.wq)
    ensures c'.nReads == c.nReads + (if c.writeMode then 0 else 1) && c'.nWrites == c.nWrites + (if c.writeMode then 1 else 0)
    ensures c'.mapping == c.mapping && c'.gap == c.gap && c'.writeMode == c.writeMode && SameHistory(c, c')
  {
    StartKeeps(c, i, p, nb);
    c' := c.With(c.Current()[i := p], c.bank[c.mapping.bank(p.address) := nb], Count(c.Current()) + 1);
  }

  lemma FinishModel(c: Channel, i: nat, nb: Bank, now: nat) returns (c': Channel)
    requires ChannelOk(c) && i < |c.Current()| && c.Current()[i].scheduled && c.dbus <= now
    requires !nb.working && nb.request == None && !nb.isRead && !nb.isWrite
    ensures ChannelOk(c') && c'.bank == c.bank[c.mapping.bank(c.Current()[i].address) := nb]
    ensures c'.rq == (if c.writeMode then c.rq else c.rq[i := EMPTY]) && c'.wq == (if c.writeMode then c.wq[i := EMPTY] else c.wq)
    ensures (if c.writeMode then c.nWrites else c.nReads) > 0 && c.mapping.bank(c.Current()[i].address) < |c.bank|
    ensures c'.nReads == c.nReads - (if c.writeMode then 0 else 1) && c'.nWrites == c.nWrites - (if c.writeMode then 1 else 0)
    ensures c'.mapping == c.mapping && c'.gap == c.gap && c'.writeMode == c.writeMode && c'.dbus == now + c.gap
    ensures c'.accepted == c.accepted && c'.served == c.served + Held(c.Current()[i]) && c'.transfers == c.transfers + [now]
  {
    FinishKeeps(c, i, nb, now);
    var q := c.Current();
    c' := c.With(q[i := EMPTY], c.bank[c.mapping.bank(q[i].address) := nb], Count(q) - 1)
           .(dbus := now + c.gap, served := c.served + Held(q[i]), transfers := c.transfers + [now]);
  }

  lemma TakeBackModel(c: Channel, i: nat, p: Packet, nb: Bank) returns (c': Channel)
    requires ChannelOk(c) && i < |c.Current()| && c.Current()[i].scheduled
    requires !p.scheduled && p.address == c.Current()[i].address && p.id == c.Current()[i].id
    requires !nb.working && nb.request == None && !nb.isRead && !nb.isWrite
    ensures ChannelOk(c') && c'.bank == c.bank[c.mapping.bank(p.address) := nb] && c.mapping.bank(p.address) < |c.bank|
    ensures c'.rq == (if c.writeMode then c.rq else c.rq[i := p]) && c'.wq == (if c.writeMode then c.wq[i := p] else c.wq)
    ensures (if c.writeMode then c.nWrites else c.nReads) > 0
    ensures c'.nReads == c.nReads - (if c.writeMode then 0 else 1) && c'.nWrites == c.nWrites - (if c.writeMode then 1 else 0)
    ensures c'.mapping == c.mapping && c'.gap == c.gap && c'.writeMode == c.writeMode && SameHistory(c, c')
  {
    TakeBackKeeps(c, i, p, nb);
    c' := c.With(c.Current()[i := p], c.bank[c.mapping.bank(p.address) := nb], Count(c.Current()) - 1);
  }

  lemma SwitchModel(c: Channel, turn: nat) returns (c': Channel)
    requires ChannelOk(c) && Count(c.Current()) == 0
    ensures ChannelOk(c') && c' == c.(writeMode := !c.writeMode, dbus := c.dbus + turn)
  {
    SwitchKeeps(c, turn);
    c' := c.(writeMode := !c.writeMode, dbus := c.dbus + turn);
  }

  ghost predicate SameButAccepted(c: Channel, c': Channel) {
    && c'.mapping == c.mapping && c'.gap == c.gap && c'.bank == c.bank && c'.writeMode == c.writeMode
    && c'.nReads == c.nReads && c'.nWrites == c.nWrites && c'.dbus == c.dbus && c'.served == c.served
    && c'.transfers == c.transfers
  }

  lemma PutModel(c: Channel, toWq: bool, i: nat, p: Packet) returns (c': Channel)
    requires ChannelOk(c) && p.address != 0 && !p.scheduled
    requires var q := if toWq then c.wq else c.rq; i < |q| && q[i].address == 0 && !q[i].scheduled
    ensures ChannelOk(c') && SameButAccepted(c, c') && c'.accepted == c.accepted + multiset{(p.address, p.id)}
    ensures c'.rq == (if toWq then c.rq else c.rq[i := p]) && c'.wq == (if toWq then c.wq[i := p] else c.wq)
  {
    PutKeeps(c, toWq, i, p);
    c' := WithPut(c, toWq, i, p);
  }

  lemma DelayModel(c: Channel, b: nat, available: nat) returns (c': Channel)
    requires ChannelOk(c) && b < |c.bank|
    ensures ChannelOk(c') && c' == c.(bank := c.bank[b := c.bank[b].(available := available)])
  {
    DelayKeeps(c, b, available);
    c' := c.(bank := c.bank[b := c.bank[b].(available := available)]);
  }

  /** The sanity check of process: the bank's request is the entry being served. */
  lemma BankWorksFor(c: Channel, i: nat)
    requires ChannelOk(c) && i < |c.Current()| && c.Current()[i].scheduled
    ensures c.mapping.bank(c.Current()[i].address) < |c.bank|
    ensures c.bank[c.mapping.bank(c.Current()[i].address)].request == Some(i)
  {
    assert Served(c.mapping, c.Current(), c.bank, i);
  }

  lemma CountsAre(c: Channel)
    requires ChannelOk(c)
    ensures c.nReads == Count(c.rq) && c.nWrites == Count(c.wq)
  {
  }

  // ---- what a cycle does ----

  /** The queue in use, the banks, the bus, and the history of transfers. */
  datatype Snap = Snap(q: seq<Packet>, bank: seq<Bank>, dbus: nat, transfers: seq<nat>, served: multiset<(nat, nat)>)

  ghost predicate Fits(m: Mapping, c: Snap) { IsMapping(m) && |c.bank| == m.banks }

  /** A bank that works for request i. */
  function Busy(i: nat, isWq: bool, hit: bool, row: nat, due: nat): Bank {
    Bank(true, Some(i), !isWq, isWq, hit, Some(row), due)
  }

  /** Request i and its bank before and after it starts.  With its own row open in the bank it pays the
      column access alone; otherwise the row is closed and opened first. */
  ghost predicate Begun(m: Mapping, time: Timing, isWq: bool, now: nat, i: nat, p: Packet, p': Packet, b: Bank, b': Bank) {
    var row := m.row(p.address);
    && p' == Packet(p.address, b'.available, true, p.id)
    && b' == Bank(true, Some(i), !isWq, isWq, b.openRow == Some(row), Some(row), b'.available)
    && (b.openRow == Some(row) ==> b'.available == now + time.tCAS)
    && (b.openRow != Some(row) ==> b'.available == now + time.tRP + time.tRCD + time.tCAS)
  }

  /** Of two requests that start in the same cycle, a row hit is not due after a miss. */
  lemma HitNotLater(m: Mapping, time: Timing, isWq: bool, now: nat, i: nat, p: Packet, p': Packet, b: Bank, b': Bank,
                    j: nat, r: Packet, r': Packet, d: Bank, d': Bank)
    requires Begun(m, time, isWq, now, i, p, p', b, b') && Begun(m, time, isWq, now, j, r, r', d, d')
    requires b.openRow == Some(m.row(p.address))
    ensures p'.event <= r'.event && (p'.event == r'.event <==> d.openRow == Some(m.row(r.address)) || time.tRP + time.tRCD == 0)
  {
  }

  /** The chosen request i starts; nothing does if i is no request. */
  ghost predicate Starts(m: Mapping, time: Timing, isWq: bool, now: nat, c: Snap, i: nat, hit: bool, c': Snap)
    requires Fits(m, c)
  {
    && Chosen(m, c.q, c.bank, i, hit) && StartsAt(m, time, isWq, now, c, i, c')
    && c'.dbus == c.dbus && c'.transfers == c.transfers && c'.served == c.served
  }

  ghost predicate StartsAt(m: Mapping, time: Timing, isWq: bool, now: nat, c: Snap, i: nat, c': Snap)
    requires Fits(m, c)
  {
    if i >= |c.q| then c'.q == c.q && c'.bank == c.bank
    else
      var b := m.bank(c.q[i].address);
      && |c'.q| == |c.q| && |c'.bank| == |c.bank| && Begun(m, time, isWq, now, i, c.q[i], c'.q[i], c.bank[b], c'.bank[b])
      && c'.q == c.q[i := c'.q[i]] && c'.bank == c.bank[b := c'.bank[b]]
  }

  lemma NothingStarts(m: Mapping, time: Timing, isWq: bool, now: nat, c: Snap, i: nat)
    requires Fits(m, c) && i >= |c.q|
    ensures StartsAt(m, time, isWq, now, c, i, c)
  {
  }

  /** The latency the scheduler picks is that of the bank's open row. */
  lemma LatencyFits(m: Mapping, time: Timing, isWq: bool, now: nat, c: Snap, i: nat, hit: bool, c': Snap)
    requires Fits(m, c) && Chosen(m, c.q, c.bank, i, hit) && i < |c.q|
    requires c'.q == AfterSchedule(c.q, i, time.Due(hit, now))
    requires var p := c.q[i];
             c'.bank == c.bank[m.bank(p.address) := Busy(i, isWq, hit, m.row(p.address), time.Due(hit, now))]
    ensures StartsAt(m, time, isWq, now, c, i, c')
  {
    var b := m.bank(c.q[i].address);
    assert hit <==> c.bank[b].openRow == Some(m.row(c.q[i].address)) by {
      assert RowReady(m, c.bank, c.q[i]) ==> hit;
    }
  }

  ghost predicate ScheduleEffect(m: Mapping, time: Timing, isWq: bool, now: nat, c: Snap, c': Snap)
    requires Fits(m, c)
  {
    exists i: nat, hit: bool :: Starts(m, time, isWq, now, c, i, hit, c')
  }

  /** Request r: waits for its bank; or for the bus, and its bank with it; or is transferred. */
  ghost function ProcessEffect(m: Mapping, gap: nat, now: nat, c: Snap, r: nat): Snap
    requires Fits(m, c) && r < |c.q|
  {
    var b := m.bank(c.q[r].address);
    if c.bank[b].available > now then c
    else if c.dbus > now then c.(bank := c.bank[b := c.bank[b].(available := c.dbus)])
    else Snap(c.q[r := Packet(0, 0, false, 0)],
              c.bank[b := Bank(false, None, false, false, false, c.bank[b].openRow, c.bank[b].available)],
              now + gap, c.transfers + [now], c.served + multiset{(c.q[r].address, c.q[r].id)})
  }

  lemma Transferred(m: Mapping, gap: nat, now: nat, c: Snap, r: nat, c': Snap)
    requires Fits(m, c) && r < |c.q| && c.q[r].address != 0 && c.dbus <= now
    requires var b := m.bank(c.q[r].address); c.bank[b].available <= now && c'.bank == c.bank[b := Idle(c.bank[b])]
    requires c'.q == c.q[r := EMPTY] && c'.dbus == now + gap && c'.transfers == c.transfers + [now] && c'.served == c.served + Held(c.q[r])
    ensures c' == ProcessEffect(m, gap, now, c, r)
  {
  }

  lemma NotYet(m: Mapping, gap: nat, now: nat, c: Snap, r: nat)
    requires Fits(m, c) && r < |c.q|
    ensures var b := m.bank(c.q[r].address);
            && (c.bank[b].available > now ==> c == ProcessEffect(m, gap, now, c, r))
            && (c.bank[b].available <= now < c.dbus ==>
                  c.(bank := c.bank[b := c.bank[b].(available := c.dbus)]) == ProcessEffect(m, gap, now, c, r))
  {
  }

  /** One request starts if the oldest waiting one is due, then the oldest one in service is processed if it is. */
  ghost predicate AdvanceEffect(m: Mapping, time: Timing, isWq: bool, now: nat, c: Snap, c': Snap)
    requires Fits(m, c)
  {
    exists s: nat, mid: Snap, r: nat :: AdvanceVia(m, time, isWq, now, c, s, mid, r, c')
  }

  ghost predicate AdvanceVia(m: Mapping, time: Timing, isWq: bool, now: nat, c: Snap, s: nat, mid: Snap, r: nat, c': Snap)
    requires Fits(m, c)
  {
    && OldestOf(c.q, false, s)
    && (if s < |c.q| && c.q[s].event <= now then ScheduleEffect(m, time, isWq, now, c, mid) else mid == c)
    && OldestOf(mid.q, true, r) && Fits(m, mid)
    && c' == if r < |mid.q| && mid.q[r].event <= now then ProcessEffect(m, time.returnTime, now, mid, r) else mid
  }

  /** A bank whose request is taken back: its row stays open only if the data was almost there. */
  function Recovered(b: Bank, row: nat, tCAS: nat, now: nat): Bank {
    Idle(b).(openRow := if b.available <= now + tCAS then Some(row) else None, available := now)
  }

  /** The bank after the requests below n have been taken back. */
  ghost function BankAfter(m: Mapping, tCAS: nat, now: nat, q: seq<Packet>, b: Bank, n: nat): Bank
    requires IsMapping(m)
  {
    if b.working && b.request.Some? && b.request.value < n && b.request.value < |q|
    then Recovered(b, m.row(q[b.request.value].address), tCAS, now) else b
  }

  /** A bank before and after its request for a row is taken back. */
  ghost predicate FreedAt(b: Bank, b': Bank, row: nat, tCAS: nat, now: nat) {
    && b' == Bank(false, None, false, false, false, b'.openRow, now)
    && (b.available <= now + tCAS ==> b'.openRow == Some(row)) && (b.available > now + tCAS ==> b'.openRow == None)
  }

  /** A working bank is freed of its request; an idle one stays as it is. */
  ghost predicate BankWithdrawn(m: Mapping, tCAS: nat, now: nat, q: seq<Packet>, b: Bank, b': Bank) {
    if b.working then
      b.request.Some? && b.request.value < |q| && FreedAt(b, b', m.row(q[b.request.value].address), tCAS, now)
    else b' == b
  }

  /** All requests in service go back to waiting, and their banks are free. */
  ghost predicate WithdrawEffect(m: Mapping, tCAS: nat, now: nat, q: seq<Packet>, bank: seq<Bank>, q': seq<Packet>, bank': seq<Bank>)
    requires IsMapping(m)
  {
    && |q'| == |q| && (forall j :: 0 <= j < |q| ==> q'[j] == Withdrawn(q[j], now))
    && |bank'| == |bank| && forall b :: 0 <= b < |bank| ==> BankWithdrawn(m, tCAS, now, q, bank[b], bank'[b])
  }

  /** The other queue takes over, with the bus turned around. */
  ghost predicate SwitchEffect(m: Mapping, time: Timing, now: nat, c: Snap, other: seq<Packet>, c': Snap, other': seq<Packet>)
    requires Fits(m, c)
  {
    && WithdrawEffect(m, time.tCAS, now, c.q, c.bank, other', c'.bank) && c'.q == other
    && c'.dbus == c.dbus + time.turnAround && c'.transfers == c.transfers && c'.served == c.served
  }

  // ---- the same, case by case ----

  /** A request that starts: its bank was free, its data is due after the latency of its row. */
  lemma StartCases(m: Mapping, time: Timing, isWq: bool, now: nat, c: Snap, c': Snap, i: nat)
    requires Fits(m, c) && ScheduleEffect(m, time, isWq, now, c, c') && i < |c.q| == |c'.q| && c'.q[i] != c.q[i]
    ensures var p := c.q[i]; var b := m.bank(p.address);
            && p.address != 0 && !p.scheduled && !c.bank[b].working
            && c'.q == c.q[i := Packet(p.address, c'.q[i].event, true, p.id)] && |c'.bank| == |c.bank|
            && c'.q[i].event == c'.bank[b].available
                 == now + (if c.bank[b].openRow == Some(m.row(p.address)) then time.tCAS else time.tRP + time.tRCD + time.tCAS)
            && c'.bank[b].working && c'.bank[b].request == Some(i) && c'.bank[b].isWrite == isWq && c'.bank[b].isRead == !isWq
            && c'.bank[b].openRow == Some(m.row(p.address))
            && (c'.bank[b].rowHit <==> c.bank[b].openRow == Some(m.row(p.address)))
            && c'.bank == c.bank[b := c'.bank[b]]
            && c'.dbus == c.dbus && c'.transfers == c.transfers && c'.served == c.served
  {
    var x: nat, hit: bool :| Starts(m, time, isWq, now, c, x, hit, c');
  }

  /** Which one starts: an open-row hit if any waiting request with a free bank is one, and the oldest of
      those that are; of equally old ones the first. */
  lemma StartOrder(m: Mapping, time: Timing, isWq: bool, now: nat, c: Snap, c': Snap, i: nat, j: nat)
    requires Fits(m, c) && ScheduleEffect(m, time, isWq, now, c, c') && i < |c.q| == |c'.q| && c'.q[i] != c.q[i]
    requires j < |c.q| && c.q[j].address != 0 && !c.q[j].scheduled && !c.bank[m.bank(c.q[j].address)].working
    ensures var hitI := c.bank[m.bank(c.q[i].address)].openRow == Some(m.row(c.q[i].address));
            var hitJ := c.bank[m.bank(c.q[j].address)].openRow == Some(m.row(c.q[j].address));
            && (hitJ ==> hitI)
            && (hitI == hitJ ==> c.q[i].event < c.q[j].event || (c.q[i].event == c.q[j].event && i <= j))
  {
    var x: nat, hit: bool :| Starts(m, time, isWq, now, c, x, hit, c');
    assert x == i;
    assert Ready(m, c.bank, c.q[j]);
    assert Before(c.q, i, j) || RowReady(m, c.bank, c.q[i]) != RowReady(m, c.bank, c.q[j]);
  }

  /** Nothing starts only if no waiting request has a free bank. */
  lemma NoStart(m: Mapping, time: Timing, isWq: bool, now: nat, c: Snap, c': Snap, j: nat)
    requires Fits(m, c) && ScheduleEffect(m, time, isWq, now, c, c') && c'.q == c.q && j < |c.q|
    ensures c.q[j].address == 0 || c.q[j].scheduled || c.bank[m.bank(c.q[j].address)].working
    ensures c' == c
  {
    var x: nat, hit: bool :| Starts(m, time, isWq, now, c, x, hit, c');
    assert x == |c.q|;
    assert !Ready(m, c.bank, c.q[j]);
  }

  /** The three cases of serving request r. */
  lemma ProcessCases(m: Mapping, gap: nat, now: nat, c: Snap, r: nat)
    requires Fits(m, c) && r < |c.q|
    ensures var b := m.bank(c.q[r].address); var c' := ProcessEffect(m, gap, now, c, r);
            && (c.bank[b].available > now ==> c' == c)
            && (c.bank[b].available <= now < c.dbus ==>
                  c' == c.(bank := c.bank[b := c.bank[b].(available := c.dbus)]))
            && (c.bank[b].available <= now && c.dbus <= now ==>
                  && c'.q == c.q[r := Packet(0, 0, false, 0)] && c'.dbus == now + gap && c'.transfers == c.transfers + [now]
                  && c'.served == c.served + multiset{(c.q[r].address, c.q[r].id)}
                  && c'.bank == c.bank[b := c.bank[b].(request := None, rowHit := false, working := false,
                                                       isRead := false, isWrite := false)])
  {
  }

  /** A request that is taken back waits again from now on; its bank is free, and its row stays open if
      the bank was due within the column access time. */
  lemma WithdrawCases(m: Mapping, tCAS: nat, now: nat, q: seq<Packet>, bank: seq<Bank>, q': seq<Packet>, bank': seq<Bank>, i: nat, b: nat)
    requires IsMapping(m) && WithdrawEffect(m, tCAS, now, q, bank, q', bank') && i < |q| && b < |bank|
    ensures |q'| == |q| && |bank'| == |bank|
    ensures q'[i] == if q[i].scheduled then Packet(q[i].address, now, false, q[i].id) else q[i]
    ensures !bank[b].working ==> bank'[b] == bank[b]
    ensures bank[b].working ==>
              && bank[b].request.Some? && bank[b].request.value < |q| && !bank'[b].working && bank'[b].request == None
              && !bank'[b].isRead && !bank'[b].isWrite && !bank'[b].rowHit && bank'[b].available == now
              && bank'[b].openRow == if bank[b].available <= now + tCAS then Some(m.row(q[bank[b].request.value].address)) else None
  {
    assert BankWithdrawn(m, tCAS, now, q, bank[b], bank'[b]);
  }

  lemma SwitchCases(m: Mapping, time: Timing, now: nat, c: Snap, other: seq<Packet>, c': Snap, other': seq<Packet>)
    requires Fits(m, c) && SwitchEffect(m, time, now, c, other, c', other')
    ensures c'.q == other && c'.dbus == c.dbus + time.turnAround && c'.transfers == c.transfers && c'.served == c.served
  {
  }

  /** The oldest entry a search finds; of equally old ones the first. */
  lemma OldestCases(q: seq<Packet>, serving: bool, i: nat, j: nat)
    requires OldestOf(q, serving, i) && j < |q| && (if serving then q[j].scheduled else q[j].address != 0 && !q[j].scheduled)
    ensures i < |q| && (if serving then q[i].scheduled else q[i].address != 0 && !q[i].scheduled)
    ensures q[i].event < q[j].event || (q[i].event == q[j].event && i <= j)
  {
    assert Wanted(q[j], serving);
  }

  /** A working bank's request is in service and maps to the bank. */
  lemma RequestOf(c: Channel, b: nat)
    requires ChannelOk(c) && b < |c.bank| && c.bank[b].working
    ensures c.bank[b].request.Some? && c.bank[b].request.value < |c.Current()|
    ensures var p := c.Current()[c.bank[b].request.value]; p.scheduled && c.mapping.bank(p.address) == b
  {
    assert Employed(c.mapping, c.Current(), c.bank, b, c.writeMode);
  }

  lemma EntryBank(c: Channel, i: nat)
    requires ChannelOk(c) && i < |c.Current()| && c.Current()[i].scheduled
    ensures var b := c.mapping.bank(c.Current()[i].address);
            b < |c.bank| && c.bank[b].working && c.bank[b].request == Some(i)
  {
    assert Served(c.mapping, c.Current(), c.bank, i);
  }

  ghost predicate BanksAfter(c: Channel, tCAS: nat, now: nat, banks: seq<Bank>, n: nat) {
    && IsMapping(c.mapping) && |banks| == |c.bank|
    && forall b :: 0 <= b < |banks| ==> banks[b] == BankAfter(c.mapping, tCAS, now, c.Current(), c.bank[b], n)
  }

  lemma NoneWithdrawn(c: Channel, tCAS: nat, now: nat)
    requires ChannelOk(c)
    ensures BanksAfter(c, tCAS, now, c.bank, 0)
  {
  }

  /** The requests below n have been taken back, the others are as before. */
  ghost predicate PartlyBack(q: seq<Packet>, q': seq<Packet>, now: nat, n: nat) {
    && |q'| == |q| && (forall j :: 0 <= j < n && j < |q| ==> q'[j] == Withdrawn(q[j], now))
    && forall j :: n <= j < |q| ==> q'[j] == q[j]
  }

  lemma NobodyBack(q: seq<Packet>, now: nat)
    ensures PartlyBack(q, q, now, 0)
  {
  }

  lemma AllBack(c: Channel, q: seq<Packet>, tCAS: nat, now: nat, banks: seq<Bank>)
    requires ChannelOk(c) && PartlyBack(c.Current(), q, now, |q|) && BanksAfter(c, tCAS, now, banks, |q|)
    ensures WithdrawEffect(c.mapping, tCAS, now, c.Current(), c.bank, q, banks)
    ensures forall j :: 0 <= j < |q| ==> !q[j].scheduled
  {
    forall b: nat | b < |c.bank|
      ensures BankWithdrawn(c.mapping, tCAS, now, c.Current(), c.bank[b], banks[b])
    {
      if c.bank[b].working {
        RequestOf(c, b);
      }
    }
    hide ChannelOk;
  }

  /** Taking back one more request frees its bank and no other. */
  lemma WithdrawNext(c: Channel, tCAS: nat, now: nat, banks: seq<Bank>, i: nat)
    requires ChannelOk(c) && i < |c.Current()| && BanksAfter(c, tCAS, now, banks, i)
    ensures var p := c.Current()[i]; var b := c.mapping.bank(p.address);
            if p.scheduled
            then b < |banks| && BanksAfter(c, tCAS, now, banks[b := Recovered(banks[b], c.mapping.row(p.address), tCAS, now)], i + 1)
            else BanksAfter(c, tCAS, now, banks, i + 1)
  {
    forall b: nat | b < |c.bank| && c.bank[b].working
      ensures c.bank[b].request.Some? && c.bank[b].request.value < |c.Current()|
      ensures var p := c.Current()[c.bank[b].request.value]; p.scheduled && c.mapping.bank(p.address) == b
    {
      RequestOf(c, b);
    }
    if c.Current()[i].scheduled {
      EntryBank(c, i);
    }
    hide ChannelOk;
  }

  class DramChannel {
    const mapping: Mapping
    const time: Timing
    const highMark: nat
    const lowMark: nat
    const rq: DramQueue
    const wq: DramQueue
    var bank: seq<Bank>
    var writeMode: bool
    var scheduledReads: nat
    var scheduledWrites: nat
    var dbus: nat

    /**
     * The channel as a value, with its history: requests taken into a queue, requests answered, and
     * the cycles at which transfers started.
     */
    ghost var model: Channel

    /** The fields are those of the model. */
    ghost predicate Matches(c: Channel)
      reads this, rq`entries, wq`entries
    {
      && c.mapping == mapping && c.gap == time.returnTime && c.rq == rq.entries && c.wq == wq.entries && c.bank == bank
      && c.writeMode == writeMode && c.nReads == scheduledReads && c.nWrites == scheduledWrites && c.dbus == dbus
    }

    ghost predicate Valid()
      reads this, rq, wq
    {
      Apart() && rq.Valid() && wq.Valid() && Matches(model) && ChannelOk(model)
    }

    function Current(): DramQueue
      reads this`writeMode
    {
      if writeMode then wq else rq
    }

    /** The queue that is not in use. */
    ghost function OtherEntries(): seq<Packet>
      reads this, rq, wq
    {
      if writeMode then rq.entries else wq.entries
    }

    ghost function Snapshot(): Snap
      reads this, rq, wq
    {
      Snap(Current().entries, bank, dbus, model.transfers, model.served)
    }

    constructor (mapping: Mapping, time: Timing, size: nat, highMark: nat, lowMark: nat)
      requires IsMapping(mapping)
      ensures Valid() && model.accepted == multiset{} && model.transfers == [] && !writeMode
    {
      this.mapping, this.time, this.highMark, this.lowMark := mapping, time, highMark, lowMark;
      rq := new DramQueue(false, size);
      wq := new DramQueue(true, size);
      var banks := seq(mapping.banks, _ => Bank(false, None, false, false, false, None, 0));
      bank := banks;
      writeMode, scheduledReads, scheduledWrites, dbus := false, 0, 0, 0;
      new;
      ghost var c := Channel(mapping, time.returnTime, rq.entries, wq.entries, banks, false, 0, 0, 0, multiset{}, multiset{}, []);
      StartsOk(c);
      hide ChannelOk;
      model := c;
    }

    ghost predicate Apart()
      reads this
    {
      rq != wq && !rq.isWq && wq.isWq && |bank| == mapping.banks && IsMapping(mapping)
    }

    /** The fields of a request that starts. */
    method StartFields(queue: DramQueue, i: nat, p: Packet, nb: Bank)
      requires Apart() && queue == Current() && queue.Valid() && i < |queue.entries|
      requires queue.entries[i].address == p.address != 0
      modifies this`bank, this`scheduledReads, this`scheduledWrites, queue
      ensures bank == old(bank)[mapping.bank(p.address) := nb] && queue.entries == old(queue.entries)[i := p] && queue.Valid()
      ensures scheduledReads == old(scheduledReads) + (if writeMode then 0 else 1)
      ensures scheduledWrites == old(scheduledWrites) + (if writeMode then 1 else 0)
    {
      bank := bank[mapping.bank(p.address) := nb];
      if queue.isWq {
        scheduledWrites := scheduledWrites + 1;
      } else {
        scheduledReads := scheduledReads + 1;
      }
      queue.Mark(i, p);
    }

    /** The bookkeeping of a request that starts. */
    method Start(queue: DramQueue, i: nat, hit: bool, now: nat)
      requires Valid() && queue == Current() && i < |queue.entries| && Ready(mapping, bank, queue.entries[i])
      modifies this`bank, this`scheduledReads, this`scheduledWrites, this`model, queue
      ensures Valid() && SameHistory(old(model), model)
      ensures queue.entries == AfterSchedule(old(queue.entries), i, time.Due(hit, now))
      ensures var p := old(queue.entries)[i];
              bank == old(bank)[mapping.bank(p.address) := Busy(i, writeMode, hit, mapping.row(p.address), time.Due(hit, now))]
    {
      hide ChannelOk, OldestOf;
      var p := queue.entries[i];
      var p' := p.(scheduled := true, event := time.Due(hit, now));
      var nb := Busy(i, queue.isWq, hit, mapping.row(p.address), time.Due(hit, now));
      ghost var c' := StartModel(model, i, p', nb);
      StartFields(queue, i, p', nb);
      model := c';
    }

    /** A request is chosen and its bank starts to work; nothing happens if no request can start. */
    method Schedule(queue: DramQueue, now: nat)
      requires Valid() && queue == Current()
      modifies this`bank, this`scheduledReads, this`scheduledWrites, this`model, queue
      ensures Valid() && SameHistory(old(model), model)
      ensures ScheduleEffect(mapping, time, writeMode, now, old(Snapshot()), Snapshot())
    {
      var i, hit := Choose(mapping, queue.entries, bank);
      ghost var c := Snapshot();
      assert i < |c.q| ==> Ready(mapping, bank, c.q[i]);
      hide ChannelOk, Chosen, AfterSchedule, StartsAt;
      if i < |queue.entries| {
        Start(queue, i, hit, now);
        LatencyFits(mapping, time, writeMode, now, c, i, hit, Snapshot());
      } else {
        NothingStarts(mapping, time, writeMode, now, c, i);
      }
      assert Starts(mapping, time, writeMode, now, c, i, hit, Snapshot());
    }

    // ---- serving ----

    /** The bank of a served or withdrawn request is idle again, and the count is one less. */
    method FreeBank(isWq: bool, b: nat, nb: Bank)
      requires b < |bank| && isWq == writeMode && (if writeMode then scheduledWrites else scheduledReads) > 0
      modifies this`bank, this`scheduledReads, this`scheduledWrites
      ensures bank == old(bank)[b := nb]
      ensures scheduledReads == old(scheduledReads) - (if writeMode then 0 else 1)
      ensures scheduledWrites == old(scheduledWrites) - (if writeMode then 1 else 0)
    {
      bank := bank[b := nb];
      if isWq {
        scheduledWrites := scheduledWrites - 1;
      } else {
        scheduledReads := scheduledReads - 1;
      }
    }

    method TransferFields(queue: DramQueue, r: nat, b: nat, nb: Bank, now: nat)
      requires Apart() && queue == Current() && queue.Valid() && r < |queue.entries| && queue.entries[r].scheduled
      requires b < |bank| && (if writeMode then scheduledWrites else scheduledReads) > 0
      modifies this`bank, this`scheduledReads, this`scheduledWrites, this`dbus, queue
      ensures dbus == now + time.returnTime && bank == old(bank)[b := nb]
      ensures queue.Valid() && queue.entries == old(queue.entries)[r := EMPTY]
      ensures scheduledReads == old(scheduledReads) - (if writeMode then 0 else 1)
      ensures scheduledWrites == old(scheduledWrites) - (if writeMode then 1 else 0)
    {
      dbus := now + time.returnTime;
      FreeBank(queue.isWq, b, nb);
      queue.Remove(r);
    }

    /** The transfer of a request whose bank and bus are ready. */
    method Transfer(queue: DramQueue, r: nat, now: nat)
      requires Valid() && queue == Current() && r < |queue.entries| && queue.entries[r].scheduled && dbus <= now
      modifies this`bank, this`scheduledReads, this`scheduledWrites, this`dbus, this`model, queue
      ensures Valid() && queue.entries == old(queue.entries)[r := EMPTY] && dbus == now + time.returnTime
      ensures var b := mapping.bank(old(queue.entries)[r].address); bank == old(bank)[b := Idle(old(bank)[b])]
      ensures model.transfers == old(model).transfers + [now] && model.served == old(model).served + Held(old(queue.entries)[r])
      ensures model.accepted == old(model).accepted
    {
      hide ChannelOk, OldestOf;
      var b := mapping.bank(queue.entries[r].address);
      var nb := Idle(bank[b]);
      ghost var c' := FinishModel(model, r, nb, now);
      TransferFields(queue, r, b, nb, now);
      model := c';
    }

    /** The bus is busy: the bank waits for it. */
    method Delay(b: nat)
      requires Valid() && b < |bank|
      modifies this`bank, this`model
      ensures Valid() && SameHistory(old(model), model) && bank == old(bank)[b := old(bank)[b].(available := dbus)]
    {
      hide ChannelOk, OldestOf;
      ghost var c' := DelayModel(model, b, dbus);
      bank := bank[b := bank[b].(available := dbus)];
      model := c';
    }

    /** The oldest scheduled request is served if bank and bus allow; the sanity checks always hold. */
    method Process(queue: DramQueue, now: nat) returns (sane: bool)
      requires Valid() && queue == Current() && queue.processIndex < |queue.entries|
      modifies this`bank, this`scheduledReads, this`scheduledWrites, this`dbus, this`model, queue
      ensures Valid() && sane && model.accepted == old(model).accepted
      ensures Snapshot() == ProcessEffect(mapping, time.returnTime, now, old(Snapshot()), old(queue.processIndex))
    {
      var r := queue.processIndex;
      var b := mapping.bank(queue.entries[r].address);
      assert queue.entries[r].scheduled && queue.entries[r].address != 0;
      BankWorksFor(model, r);
      hide ChannelOk, OldestOf, Held, Idle, ProcessEffect;
      ghost var c := Snapshot();
      sane := bank[b].request == Some(r);
      if !sane {
        return;
      }
      if bank[b].available <= now {
        if dbus <= now {
          Transfer(queue, r, now);
          Transferred(mapping, time.returnTime, now, c, r, Snapshot());
        } else {
          Delay(b);
          NotYet(mapping, time.returnTime, now, c, r);
        }
      } else {
        NotYet(mapping, time.returnTime, now, c, r);
      }
    }

    // ---- switching between reads and writes ----

    /** One scheduled request goes back to waiting. */
    method TakeBack(queue: DramQueue, i: nat, now: nat)
      requires Apart() && Matches(model) && ChannelOk(model) && queue == Current() && queue.Sound()
      requires i < |queue.entries| && queue.entries[i].scheduled
      modifies this`bank, this`scheduledReads, this`scheduledWrites, this`model, queue`entries
      ensures Apart() && Matches(model) && ChannelOk(model) && queue.Sound() && SameHistory(old(model), model)
      ensures queue.entries == old(queue.entries)[i := old(queue.entries)[i].(scheduled := false, event := now)]
      ensures var p := old(queue.entries)[i]; var b := mapping.bank(p.address);
              bank == old(bank)[b := Recovered(old(bank)[b], mapping.row(p.address), time.tCAS, now)]
    {
      var p := queue.entries[i];
      var b := mapping.bank(p.address);
      var nb := Recovered(bank[b], mapping.row(p.address), time.tCAS, now);
      var p' := p.(scheduled := false, event := now);
      ghost var c' := TakeBackModel(model, i, p', nb);
      hide ChannelOk;
      UsedSame(queue.entries, i, p');
      FreeBank(queue.isWq, b, nb);
      queue.entries := queue.entries[i := p'];
      model := c';
    }

    /** One turn of the loop below. */
    method TakeBackNext(queue: DramQueue, i: nat, now: nat, ghost c: Channel)
      requires Apart() && Matches(model) && ChannelOk(model) && queue == Current() && queue.Sound()
      requires i < |queue.entries| == |c.Current()| && ChannelOk(c) && c.mapping == mapping
      requires PartlyBack(c.Current(), queue.entries, now, i) && BanksAfter(c, time.tCAS, now, bank, i)
      modifies this`bank, this`scheduledReads, this`scheduledWrites, this`model, queue`entries
      ensures Apart() && Matches(model) && ChannelOk(model) && queue.Sound() && SameHistory(old(model), model)
      ensures |queue.entries| == |c.Current()|
      ensures PartlyBack(c.Current(), queue.entries, now, i + 1) && BanksAfter(c, time.tCAS, now, bank, i + 1)
    {
      hide ChannelOk, OldestOf, BankAfter, BanksAfter;
      ghost var banks := bank;
      if queue.entries[i].scheduled {
        TakeBack(queue, i, now);
      }
      WithdrawNext(c, time.tCAS, now, banks, i);
    }

    /** All scheduled requests of a queue go back; its counter is then zero, as the sanity check wants. */
    method ResetRemainRequests(queue: DramQueue, now: nat) returns (sane: bool)
      requires Valid() && queue == Current()
      modifies this`bank, this`scheduledReads, this`scheduledWrites, this`model, rq, wq
      ensures Valid() && sane && SameHistory(old(model), model) && Count(queue.entries) == 0
      ensures WithdrawEffect(mapping, time.tCAS, now, old(queue.entries), old(bank), queue.entries, bank)
      ensures OtherEntries() == old(OtherEntries())
    {
      hide ChannelOk, OldestOf, WithdrawEffect, Count;
      TakeAllBack(queue, now);
      sane := CheckReset(queue);
    }

    /** The loop over the queue. */
    method TakeAllBack(queue: DramQueue, now: nat)
      requires Apart() && Matches(model) && ChannelOk(model) && queue == Current() && queue.Sound()
      modifies this`bank, this`scheduledReads, this`scheduledWrites, this`model, queue`entries
      ensures Apart() && Matches(model) && ChannelOk(model) && queue.Sound() && SameHistory(old(model), model)
      ensures WithdrawEffect(mapping, time.tCAS, now, old(queue.entries), old(bank), queue.entries, bank)
      ensures forall j :: 0 <= j < |queue.entries| ==> !queue.entries[j].scheduled
    {
      hide ChannelOk, OldestOf, BankAfter, BanksAfter, PartlyBack, WithdrawEffect, Withdrawn;
      ghost var c := model;
      NoneWithdrawn(c, time.tCAS, now);
      NobodyBack(queue.entries, now);
      var i := 0;
      while i < |queue.entries|
        invariant i <= |queue.entries| == |c.Current()|
        invariant Apart() && Matches(model) && ChannelOk(model) && queue.Sound() && SameHistory(c, model)
        invariant PartlyBack(c.Current(), queue.entries, now, i) && BanksAfter(c, time.tCAS, now, bank, i)
      {
        TakeBackNext(queue, i, now, c);
        i := i + 1;
      }
      AllBack(c, queue.entries, time.tCAS, now, bank);
    }

    /** With nothing scheduled the counter is zero. */
    method CheckReset(queue: DramQueue) returns (sane: bool)
      requires Apart() && Matches(model) && ChannelOk(model) && rq.Sound() && wq.Sound() && queue == Current()
      requires forall j :: 0 <= j < |queue.entries| ==> !queue.entries[j].scheduled
      modifies rq`scheduleIndex, rq`processIndex, wq`scheduleIndex, wq`processIndex
      ensures Valid() && sane && Count(queue.entries) == 0
    {
      CountZero(queue.entries);
      CountsAre(model);
      hide ChannelOk, OldestOf;
      Refresh();
      sane := if queue.isWq then scheduledWrites == 0 else scheduledReads == 0;
    }

    /** All four searches are redone. */
    method Refresh()
      requires rq != wq && rq.Sound() && wq.Sound()
      modifies rq`scheduleIndex, rq`processIndex, wq`scheduleIndex, wq`processIndex
      ensures rq.Valid() && wq.Valid()
    {
      rq.UpdateScheduleCycle();
      wq.UpdateScheduleCycle();
      rq.UpdateProcessCycle();
      wq.UpdateProcessCycle();
    }

    /** The other queue takes over: the scheduled requests go back and the bus turns around. */
    method SwitchMode(now: nat) returns (sane: bool)
      requires Valid()
      modifies this`bank, this`scheduledReads, this`scheduledWrites, this`writeMode, this`dbus, this`model, rq, wq
      ensures Valid() && sane && writeMode == !old(writeMode) && model.accepted == old(model).accepted
      ensures SwitchEffect(mapping, time, now, old(Snapshot()), old(OtherEntries()), Snapshot(), OtherEntries())
    {
      hide ChannelOk, OldestOf, WithdrawEffect;
      sane := ResetRemainRequests(Current(), now);
      ghost var c' := SwitchModel(model, time.turnAround);
      writeMode := !writeMode;
      dbus := dbus + time.turnAround;
      model := c';
    }

    /** Work starts on one request and another is served, if their cycles have come. */
    method Advance(now: nat) returns (sane: bool)
      requires Valid()
      modifies this`bank, this`scheduledReads, this`scheduledWrites, this`dbus, this`model, rq, wq
      ensures Valid() && sane && model.accepted == old(model).accepted && OtherEntries() == old(OtherEntries())
      ensures AdvanceEffect(mapping, time, writeMode, now, old(Snapshot()), Snapshot())
    {
      hide ChannelOk, OldestOf, ScheduleEffect;
      var queue := Current();
      sane := true;
      ghost var c, s := Snapshot(), queue.scheduleIndex;
      if queue.scheduleIndex < |queue.entries| && queue.entries[queue.scheduleIndex].event <= now {
        Schedule(queue, now);
      }
      ghost var mid, r := Snapshot(), queue.processIndex;
      if queue.processIndex < |queue.entries| && queue.entries[queue.processIndex].event <= now {
        sane := Process(queue, now);
      }
      assert AdvanceVia(mapping, time, writeMode, now, c, s, mid, r, Snapshot());
    }

    /** One cycle of the channel.  Writes begin at the high mark or when there is nothing to read, and end
        when there are none or, with reads waiting, below the low mark. */
    method Operate(now: nat) returns (sane: bool)
      requires Valid()
      modifies this`bank, this`scheduledReads, this`scheduledWrites, this`writeMode, this`dbus, this`model, rq, wq
      ensures Valid() && sane && model.accepted == old(model).accepted
      ensures !old(writeMode) ==>
                (writeMode <==> old(wq.occupancy) >= highMark || (old(rq.occupancy) == 0 && old(wq.occupancy) > 0))
      ensures old(writeMode) ==>
                (writeMode <==> old(wq.occupancy) > 0 && (old(rq.occupancy) == 0 || old(wq.occupancy) >= lowMark))
      ensures writeMode == old(writeMode) ==> OtherEntries() == old(OtherEntries())
      ensures writeMode == old(writeMode) ==> AdvanceEffect(mapping, time, writeMode, now, old(Snapshot()), Snapshot())
      ensures writeMode != old(writeMode) ==>
                exists mid: Snap ::
                  && SwitchEffect(mapping, time, now, old(Snapshot()), old(OtherEntries()), mid, OtherEntries())
                  && Fits(mapping, mid) && AdvanceEffect(mapping, time, writeMode, now, mid, Snapshot())
    {
      hide ChannelOk, OldestOf, AdvanceEffect, SwitchEffect;
      sane := true;
      if !writeMode && (wq.occupancy >= highMark || (rq.occupancy == 0 && wq.occupancy > 0)) {
        sane := SwitchMode(now);
      } else if writeMode {
        if wq.occupancy == 0 || (rq.occupancy > 0 && wq.occupancy < lowMark) {
          sane := SwitchMode(now);
        }
      }
      var ok := Advance(now);
      sane := sane && ok;
    }

    // ---- new requests ----

    /** A read: answered at once during the warm-up or from the first pending write to its address,
        merged with a waiting read, queued in a free slot, or turned away by a full queue. */
    method AddRq(address: nat, id: nat, event: nat, warm: bool) returns (result: AddResult)
      requires Valid()
      modifies this`model, rq
      ensures Valid() && SameButAccepted(old(model), model)
      ensures result.WarmingUp? <==> !warm
      ensures result.Queued? <==> warm && address != 0 && Absent(wq.entries, address) && Absent(old(rq.entries), address)
                                  && old(rq.occupancy) < |rq.entries|
      ensures result.Queued? ==> model.accepted == old(model).accepted + multiset{(address, id)}
                                 && result.index < |old(rq.entries)| && old(rq.entries)[result.index].address == 0
                                 && rq.entries == old(rq.entries)[result.index := Packet(address, event, false, id)]
      ensures !result.Queued? ==> model == old(model) && rq.entries == old(rq.entries)
      ensures result.Forwarded? <==> warm && !Absent(wq.entries, address)
      ensures result.Forwarded? ==> FoundAt(wq.entries, address, result.index)
      ensures result.Merged? <==> warm && Absent(wq.entries, address) && !Absent(old(rq.entries), address)
      ensures result.Merged? ==> FoundAt(old(rq.entries), address, result.index)
    {
      hide ChannelOk, OldestOf;
      if !warm {
        return WarmingUp;
      }
      var index := wq.CheckQueue(address);
      if index < |wq.entries| {
        return Forwarded(index);
      }
      index := rq.CheckQueue(address);
      if index < |rq.entries| {
        return Merged(index);
      }
      index := rq.CheckQueue(0);
      UsedZero(rq.entries);
      if index < |rq.entries| {
        result := Queued(index);
        var p := Packet(address, event, false, id);
        ghost var c' := PutModel(model, false, index, p);
        rq.Put(index, p);
        model := c';
      } else {
        result := Full;
      }
    }

    /** A write: dropped during the warm-up, merged, queued in a free slot, or turned away by a full queue. */
    method AddWq(address: nat, id: nat, event: nat, warm: bool) returns (result: AddResult)
      requires Valid()
      modifies this`model, wq
      ensures Valid() && SameButAccepted(old(model), model)
      ensures result.WarmingUp? <==> !warm
      ensures result.Queued? <==> warm && address != 0 && Absent(old(wq.entries), address) && old(wq.occupancy) < |wq.entries|
      ensures result.Queued? ==> model.accepted == old(model).accepted + multiset{(address, id)}
                                 && result.index < |old(wq.entries)| && old(wq.entries)[result.index].address == 0
                                 && wq.entries == old(wq.entries)[result.index := Packet(address, event, false, id)]
      ensures !result.Queued? ==> model == old(model) && wq.entries == old(wq.entries)
      ensures result.Merged? <==> warm && !Absent(old(wq.entries), address)
      ensures result.Merged? ==> FoundAt(old(wq.entries), address, result.index)
      ensures !result.Forwarded?
    {
      hide ChannelOk, OldestOf;
      if !warm {
        return WarmingUp;
      }
      var index := wq.CheckQueue(address);
      if index < |wq.entries| {
        return Merged(index);
      }
      index := wq.CheckQueue(0);
      UsedZero(wq.entries);
      if index < |wq.entries| {
        result := Queued(index);
        var p := Packet(address, event, false, id);
        ghost var c' := PutModel(model, true, index, p);
        wq.Put(index, p);
        model := c';
      } else {
        result := Full;
      }
    }
  }

  /** No slot has the address; for address zero, no slot is empty. */
  ghost predicate Absent(q: seq<Packet>, address: nat) {
    forall i :: 0 <= i < |q| ==> q[i].address != address
  }

  /** The queue in which entry i, if it exists, has been scheduled and is due at the given cycle. */
  ghost function AfterSchedule(q: seq<Packet>, i: nat, due: nat): seq<Packet> {
    if i < |q| then q[i := q[i].(scheduled := true, event := due)] else q
  }

  ghost function Withdrawn(p: Packet, now: nat): Packet {
    if p.scheduled then p.(scheduled := false, event := now) else p
  }

  lemma UsedSame(q: seq<Packet>, i: nat, p: Packet)
    requires i < |q| && (p.address != 0 <==> q[i].address != 0)
    ensures Used(q[i := p]) == Used(q)
  {
    CountUpdate(q, i, p);
  }
}
