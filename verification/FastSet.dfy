/**
 * A set of short unsigned values below MAX_SIZE that is a sorted array while it is small and an
 * array of 64-bit words afterwards.
 */
module FastSet {
  import opened Sorting

  const MAX_SIZE: nat := 512
  const SMALL_SIZE: nat := 13
  const SMALLER_SIZE: nat := 6
  const WORDS: nat := 8

  // ---- bits of a word ----

  function WithBit(w: bv64, b: nat): bv64
    requires b < 64
  {
    w | (1 << (b as bv16))
  }

  predicate Probe(w: bv64, b: bv16)
    requires b <= 64
  {
    (w >> b) & 1 == 1
  }

  predicate HasBit(w: bv64, b: nat)
    requires b < 64
  {
    Probe(w, b as bv16)
  }

  /** A bit number as a bit-vector, found by counting. */
  lemma {:induction false} BitNumber(b: nat) returns (r: bv16)
    requires b < 64
    ensures r < 64 && r as nat == b
  {
    r := 0;
    if b > 0 {
      r := BitNumber(b - 1);
      r := r + 1;
    }
  }

  lemma BitNumberIs(b: nat, r: bv16)
    requires b < 64 && r < 64 && r as nat == b
    ensures (b as bv16) == r
  {
  }

  lemma HasBitIs(w: bv64, b: nat, r: bv16)
    requires b < 64 && r < 64 && r as nat == b
    ensures HasBit(w, b) <==> Probe(w, r)
  {
    BitNumberIs(b, r);
  }

  lemma WithBitIs(w: bv64, b: nat, r: bv16)
    requires b < 64 && r < 64 && r as nat == b
    ensures WithBit(w, b) == w | (1 << r)
  {
    BitNumberIs(b, r);
  }

  lemma MaskBit(w: bv64, x: bv16, y: bv16)
    requires x < 64 && y < 64
    ensures Probe(w | (1 << x), y) <==> Probe(w, y) || x == y
  {
  }

  /** Setting bit b changes no other bit. */
  lemma WithBitHas(w: bv64, b: nat, c: nat)
    requires b < 64 && c < 64
    ensures HasBit(WithBit(w, b), c) <==> HasBit(w, c) || b == c
  {
    hide HasBit, Probe, WithBit;
    var x := BitNumber(b);
    var y := BitNumber(c);
    WithBitIs(w, b, x);
    HasBitIs(w, c, y);
    HasBitIs(WithBit(w, b), c, y);
    MaskBit(w, x, y);
  }

  lemma MaskOr(w: bv64, u: bv64, y: bv16)
    requires y < 64
    ensures Probe(w | u, y) <==> Probe(w, y) || Probe(u, y)
  {
  }

  lemma OrHas(w: bv64, u: bv64, b: nat)
    requires b < 64
    ensures HasBit(w | u, b) <==> HasBit(w, b) || HasBit(u, b)
  {
    hide HasBit, Probe;
    var y := BitNumber(b);
    HasBitIs(w, b, y);
    HasBitIs(u, b, y);
    HasBitIs(w | u, b, y);
    MaskOr(w, u, y);
  }

  lemma ZeroHas(b: nat)
    requires b < 64
    ensures !HasBit(0, b)
  {
  }

  // ---- lists of words and sorted lists ----

  function Word(x: nat): nat { x / 64 }

  function Bit(x: nat): (b: nat)
    ensures b < 64
  {
    x % 64
  }

  predicate BitsHave(ws: seq<bv64>, x: nat) {
    Word(x) < |ws| && HasBit(ws[Word(x)], Bit(x))
  }

  lemma WordAndBit(x: nat, y: nat)
    ensures x == y <==> Word(x) == Word(y) && Bit(x) == Bit(y)
  {
  }

  /** Setting the bit of x adds x and nothing else. */
  lemma SetBitHas(ws: seq<bv64>, x: nat)
    requires Word(x) < |ws|
    ensures var us := ws[Word(x) := WithBit(ws[Word(x)], Bit(x))];
            forall y: nat :: BitsHave(us, y) <==> BitsHave(ws, y) || y == x
  {
    hide HasBit, WithBit, Bit, Word;
    var us := ws[Word(x) := WithBit(ws[Word(x)], Bit(x))];
    forall y: nat
      ensures BitsHave(us, y) <==> BitsHave(ws, y) || y == x
    {
      WordAndBit(x, y);
      WithBitHas(ws[Word(x)], Bit(x), Bit(y));
    }
  }

  ghost predicate Below(s: seq<nat>, n: nat) {
    forall i :: 0 <= i < |s| ==> s[i] < n
  }

  /** Putting x between the smaller and the larger values keeps the order. */
  lemma PutBetween(s: seq<nat>, i: nat, x: nat)
    requires StrictlySorted(s, NatLess) && i <= |s|
    requires forall k :: 0 <= k < i ==> s[k] < x
    requires i < |s| ==> x < s[i]
    ensures StrictlySorted(s[..i] + [x] + s[i..], NatLess)
    ensures x !in s
    ensures forall y :: y in s[..i] + [x] + s[i..] <==> y == x || y in s
  {
    assert s == s[..i] + s[i..];
    forall k | i <= k < |s|
      ensures x < s[k]
    {
    }
  }

  /** Values that ascend are at least as large as their positions. */
  lemma {:induction false} ValueAtLeast(s: seq<nat>, k: nat)
    requires StrictlySorted(s, NatLess) && k < |s|
    ensures s[k] >= k
  {
    if k > 0 {
      ValueAtLeast(s, k - 1);
    }
  }

  /** A small set of values below n has at most n values. */
  lemma SmallFits(s: seq<nat>, n: nat)
    requires StrictlySorted(s, NatLess) && Below(s, n)
    ensures |s| <= n
  {
    if |s| > 0 {
      ValueAtLeast(s, |s| - 1);
    }
  }

  /** The number of words that a join with bound n goes through: n | 63 fills the last six bits. */
  function Limit(n: nat): nat { (n / 64 * 64 + 63 + 1) / 64 }

  /** The words stay inside the array exactly for the bounds below MAX_SIZE, and cover every value up to n. */
  lemma LimitFits(n: nat)
    ensures Limit(n) <= WORDS <==> n < MAX_SIZE
    ensures forall y: nat :: y <= n ==> Word(y) < Limit(n)
  {
    assert Limit(n) == n / 64 + 1;
  }

  /** Or-ing the first i words adds the other list's values in those words. */
  ghost predicate Joined(us: seq<bv64>, ws: seq<bv64>, vs: seq<bv64>, i: nat) {
    && |us| == |ws| == |vs|
    && forall k :: 0 <= k < |us| ==> us[k] == if k < i then ws[k] | vs[k] else ws[k]
  }

  lemma JoinedHas(us: seq<bv64>, ws: seq<bv64>, vs: seq<bv64>, i: nat)
    requires Joined(us, ws, vs, i)
    ensures forall y: nat :: BitsHave(us, y) <==> BitsHave(ws, y) || (BitsHave(vs, y) && Word(y) < i)
  {
    hide HasBit, Bit, Word;
    forall y: nat
      ensures BitsHave(us, y) <==> BitsHave(ws, y) || (BitsHave(vs, y) && Word(y) < i)
    {
      if Word(y) < |ws| {
        JoinedWord(us[Word(y)], ws[Word(y)], vs[Word(y)], Bit(y), Word(y) < i);
      }
    }
  }

  lemma NothingJoined(ws: seq<bv64>, vs: seq<bv64>)
    requires |ws| == |vs|
    ensures Joined(ws, ws, vs, 0)
  {
  }

  lemma JoinedStep(us: seq<bv64>, ts: seq<bv64>, ws: seq<bv64>, vs: seq<bv64>, i: nat)
    requires Joined(us, ws, vs, i) && i < |us| && ts == us[i := ws[i] | vs[i]]
    ensures Joined(ts, ws, vs, i + 1)
  {
  }

  lemma JoinedWord(u: bv64, w: bv64, v: bv64, b: nat, joined: bool)
    requires b < 64 && u == if joined then w | v else w
    ensures HasBit(u, b) <==> HasBit(w, b) || (HasBit(v, b) && joined)
  {
    hide HasBit;
    OrHas(w, v, b);
  }

  // ---- listing ----

  /** The list holds the set's values below n, in ascending order. */
  ghost predicate Lists(v: seq<nat>, ws: seq<bv64>, n: nat) {
    StrictlySorted(v, NatLess) && Below(v, n) && forall y: nat :: y in v <==> y < n && BitsHave(ws, y)
  }

  /** One more value looked at. */
  lemma ListStep(v: seq<nat>, ws: seq<bv64>, l: nat)
    requires Lists(v, ws, l)
    ensures BitsHave(ws, l) ==> Lists(v + [l], ws, l + 1)
    ensures !BitsHave(ws, l) ==> Lists(v, ws, l + 1)
    ensures |v| <= l
  {
    hide BitsHave;
    SmallFits(v, l);
  }

  /** An empty word holds none of its 64 values. */
  lemma EmptyWord(v: seq<nat>, ws: seq<bv64>, i: nat, n: nat)
    requires Lists(v, ws, i) && i % 64 == 0 && i <= n <= i + 64
    requires i / 64 < |ws| && ws[i / 64] == 0
    ensures Lists(v, ws, n)
  {
    forall y: nat | i <= y < n
      ensures !BitsHave(ws, y)
    {
      assert Word(y) == i / 64;
      ZeroHas(Bit(y));
    }
    hide BitsHave;
  }

  class FastSet {
    // The two arrays are the two members of a union: which one is meaningful depends on card.
    const values: array<nat>
    const bits: array<bv64>
    var card: nat

    ghost predicate Valid()
      reads this, values, bits
    {
      && values.Length == SMALL_SIZE && bits.Length == WORDS
      && (card < SMALL_SIZE ==> StrictlySorted(values[..card], NatLess) && Below(values[..card], MAX_SIZE))
    }

    ghost predicate Has(x: nat)
      requires Valid()
      reads this, values, bits
    {
      if card < SMALL_SIZE then x in values[..card] else BitsHave(bits[..], x)
    }

    constructor ()
      ensures Valid() && fresh(values) && fresh(bits) && forall x: nat :: !Has(x)
    {
      values := new nat[SMALL_SIZE];
      bits := new bv64[WORDS];
      card := 0;
    }

    method SetBit(x: nat)
      requires bits.Length == WORDS && x < MAX_SIZE
      modifies bits
      ensures forall y: nat :: BitsHave(bits[..], y) <==> BitsHave(old(bits[..]), y) || y == x
    {
      hide HasBit, WithBit;
      SetBitHas(bits[..], x);
      bits[Word(x)] := WithBit(bits[Word(x)], Bit(x));
      assert bits[..] == old(bits[..])[Word(x) := WithBit(old(bits[..])[Word(x)], Bit(x))];
    }

    method GetBit(x: nat) returns (b: bool)
      requires bits.Length == WORDS && x < MAX_SIZE
      ensures b == BitsHave(bits[..], x)
    {
      hide HasBit;
      b := HasBit(bits[Word(x)], Bit(x));
    }

    method InsertSmall(x: nat)
      requires Valid() && card < SMALL_SIZE && x < MAX_SIZE
      modifies this`card, values
      ensures card <= SMALL_SIZE && StrictlySorted(values[..card], NatLess) && Below(values[..card], MAX_SIZE)
      ensures forall y :: y in values[..card] <==> y == x || y in old(values[..card])
      ensures x in old(values[..card]) ==> card == old(card) && values[..] == old(values[..])
      ensures x !in old(values[..card]) ==> card == old(card) + 1
    {
      ghost var s := values[..card];
      var i := FirstNotBelow(x);
      hide StrictlySorted, Below, BitsHave;
      if i < card && values[i] == x {
        assert s[i] == x;
        return;
      }
      PutBetween(s, i, x);
      MakeRoom(i, x);
      card := card + 1;
    }

    /** The searching loop of the insertion. */
    method FirstNotBelow(x: nat) returns (i: nat)
      requires Valid() && card < SMALL_SIZE
      ensures i <= card && (i < card ==> values[i] >= x)
      ensures forall k :: 0 <= k < i ==> values[k] < x
    {
      i := 0;
      while i < card
        invariant i <= card
        invariant forall k :: 0 <= k < i ==> values[k] < x
      {
        var y := values[i];
        if y >= x {
          break;
        }
        i := i + 1;
      }
    }

    /** The shifting loop. */
    method MakeRoom(i: nat, x: nat)
      requires values.Length == SMALL_SIZE && i <= card < SMALL_SIZE
      modifies values
      ensures values[..card + 1] == old(values[..i]) + [x] + old(values[i..card])
    {
      ghost var s := values[..card];
      var j := card;
      while j > i
        invariant i <= j <= card
        invariant forall k :: 0 <= k < j ==> values[k] == s[k]
        invariant forall k :: j <= k < card ==> values[k + 1] == s[k]
      {
        j := j - 1;
        values[j + 1] := values[j];
      }
      values[i] := x;
    }

    method SearchSmallLinear(x: nat) returns (found: bool)
      requires Valid() && card < SMALL_SIZE
      ensures found <==> x in values[..card]
    {
      ghost var s := values[..card];
      for i := 0 to card
        invariant forall k :: 0 <= k < i ==> s[k] < x
      {
        var y := values[i];
        assert s[i] == y;
        if y > x {
          return false;
        }
        if y == x {
          return true;
        }
      }
      return false;
    }

    method SearchSmall(x: nat) returns (found: bool)
      requires Valid() && card < SMALL_SIZE
      ensures found <==> x in values[..card]
    {
      if card == 0 {
        return false;
      }
      if card < SMALLER_SIZE {
        found := SearchSmallLinear(x);
        return;
      }
      ghost var s := values[..card];
      var begin, end := 0, card - 1;
      var middle := end / 2;
      while true
        invariant 0 <= begin <= middle <= end < card
        invariant forall k :: 0 <= k < begin ==> s[k] < x
        invariant forall k :: end < k < card ==> x < s[k]
        decreases end - begin
      {
        var y := values[middle];
        assert y == s[middle];
        if x < y {
          end := middle - 1;
        } else if x > y {
          begin := middle + 1;
        } else {
          return true;
        }
        if end < begin {
          break;
        }
        middle := (begin + end) / 2;
      }
      return false;
    }

    method Search(x: nat) returns (found: bool)
      requires Valid() && x < MAX_SIZE
      ensures found <==> Has(x)
    {
      if card == 0 {
        return false;
      }
      if card == 1 {
        assert values[..card] == [values[0]];
        return values[0] == x;
      }
      if card < SMALL_SIZE {
        found := SearchSmall(x);
        return;
      }
      found := GetBit(x);
    }

    /** The values are copied out before the words, which share their memory, are cleared. */
    method SmallToBit()
      requires values.Length == SMALL_SIZE && bits.Length == WORDS && card <= SMALL_SIZE && Below(values[..card], MAX_SIZE)
      modifies values, bits
      ensures forall y: nat :: BitsHave(bits[..], y) <==> y in old(values[..card])
    {
      hide BitsHave;
      var tmp := values[..card];
      ClearBits();
      for i := 0 to card
        invariant forall y: nat :: BitsHave(bits[..], y) <==> y in tmp[..i]
      {
        SetBit(tmp[i]);
        assert tmp[..i + 1] == tmp[..i] + [tmp[i]];
      }
      assert tmp[..card] == tmp;
    }

    /** Clearing the words overwrites the values, which are unknown afterwards. */
    method ClearBits()
      requires values.Length == SMALL_SIZE && bits.Length == WORDS
      modifies values, bits
      ensures forall y: nat :: !BitsHave(bits[..], y)
    {
      for i := 0 to SMALL_SIZE {
        values[i] := *;
      }
      for i := 0 to WORDS
        invariant forall k :: 0 <= k < i ==> bits[k] == 0
      {
        bits[i] := 0;
      }
      forall y: nat
        ensures !BitsHave(bits[..], y)
      {
        ZeroHas(Bit(y));
      }
    }

    method Insert(x: nat)
      requires Valid() && x < MAX_SIZE
      modifies this`card, values, bits
      ensures Valid()
      ensures forall y: nat :: Has(y) <==> y == x || old(Has(y))
      ensures old(card < SMALL_SIZE && Has(x)) ==> card == old(card) && values[..] == old(values[..])
    {
      hide BitsHave;
      if card == 0 {
        values[card] := x;
        card := card + 1;
        assert values[..card] == [x];
        return;
      }
      if card < SMALL_SIZE {
        InsertSmall(x);
        if card == SMALL_SIZE {
          SmallToBit();
        }
      } else {
        SetBit(x);
      }
    }

    /** This set becomes the union of itself and the other, which may be the same object. */
    method Join(other: FastSet, n: nat)
      requires Valid() && other.Valid()
      requires other == this || (other.values != values && other.bits != bits)
      requires forall y: nat :: other.Has(y) ==> y < MAX_SIZE
      requires other.card >= SMALL_SIZE ==> n < MAX_SIZE
      modifies this`card, values, bits
      ensures Valid()
      ensures forall y: nat :: Has(y) <==>
                old(Has(y)) || (old(other.Has(y)) && (old(other.card) < SMALL_SIZE || Word(y) < Limit(n)))
    {
      hide BitsHave, Word;
      if other.card == 0 {
        return;
      }
      if other.card < SMALL_SIZE {
        JoinSmall(other);
        return;
      } else if card < SMALL_SIZE {
        SmallToBit();
        card := SMALL_SIZE;
      }
      LimitFits(n);
      JoinWords(other, Limit(n));
    }

    /** Inserting the other's few values one by one. */
    method JoinSmall(other: FastSet)
      requires Valid() && other.Valid() && other.card < SMALL_SIZE
      requires other == this || (other.values != values && other.bits != bits)
      modifies this`card, values, bits
      ensures Valid()
      ensures forall y: nat :: Has(y) <==> old(Has(y)) || old(other.Has(y))
    {
      ghost var s := other.values[..other.card];
      var i := 0;
      while i < other.card
        invariant i <= |s| && Valid() && other.Valid()
        invariant other.card == |s| && other.values[..|s|] == s
        invariant forall y: nat :: Has(y) <==> old(Has(y)) || y in s[..i]
      {
        assert s[i] == other.values[i];
        assert s[..i + 1] == s[..i] + [s[i]];
        Insert(other.values[i]);
        i := i + 1;
      }
      assert s[..i] == s;
    }

    method JoinWords(other: FastSet, lim: nat)
      requires bits.Length == WORDS && other.bits.Length == WORDS && lim <= WORDS
      modifies bits
      ensures forall y: nat :: BitsHave(bits[..], y) <==>
                BitsHave(old(bits[..]), y) || (BitsHave(old(other.bits[..]), y) && Word(y) < lim)
    {
      hide Joined, BitsHave;
      ghost var ws, vs := bits[..], other.bits[..];
      NothingJoined(ws, vs);
      for i := 0 to lim
        invariant |ws| == |vs| == WORDS && Joined(bits[..], ws, vs, i)
        invariant forall k :: i <= k < WORDS ==> bits[k] == ws[k]
        invariant forall k :: i <= k < WORDS ==> other.bits[k] == vs[k]
      {
        ghost var us := bits[..];
        bits[i] := bits[i] | other.bits[i];
        assert bits[..] == us[i := ws[i] | vs[i]];
        JoinedStep(us, bits[..], ws, vs, i);
      }
      JoinedHas(bits[..], ws, vs, lim);
    }

    /** Lists the set in ascending order into v and returns the number of values. */
    method Expand(v: array<nat>, n: nat) returns (k: nat)
      requires Valid() && v != values && v as object != bits
      requires n <= v.Length && n <= MAX_SIZE && (card < SMALL_SIZE ==> card <= v.Length)
      modifies v
      ensures k <= v.Length && StrictlySorted(v[..k], NatLess)
      ensures forall y: nat :: y in v[..k] <==> Has(y) && (card < SMALL_SIZE || y < n)
    {
      if card == 0 {
        return 0;
      }
      if card < SMALL_SIZE {
        for i := 0 to card
          invariant v[..i] == values[..i]
        {
          v[i] := values[i];
        }
        return card;
      }
      k := ExpandWords(v, n);
    }

    method ExpandWords(v: array<nat>, n: nat) returns (k: nat)
      requires bits.Length == WORDS && n <= v.Length && n <= MAX_SIZE && v as object != bits
      modifies v
      ensures k <= v.Length && Lists(v[..k], bits[..], n)
    {
      hide Lists, BitsHave;
      k := 0;
      var i := 0;
      NothingListed(bits[..]);
      while i < n
        invariant i % 64 == 0 && k <= v.Length
        invariant Lists(v[..k], bits[..], if i < n then i else n)
      {
        var stop := if i + 64 < n then i + 64 else n;
        if bits[i / 64] != 0 {
          k := ExpandWord(v, k, i, stop);
        } else {
          EmptyWord(v[..k], bits[..], i, stop);
        }
        i := i + 64;
      }
    }

    lemma NothingListed(ws: seq<bv64>)
      ensures Lists([], ws, 0)
    {
    }

    method ExpandWord(v: array<nat>, k0: nat, i: nat, stop: nat) returns (k: nat)
      requires bits.Length == WORDS && v as object != bits && k0 <= v.Length && i <= stop <= v.Length && stop <= MAX_SIZE
      requires Lists(v[..k0], bits[..], i)
      modifies v
      ensures k <= v.Length && Lists(v[..k], bits[..], stop)
    {
      hide Lists, BitsHave;
      k := k0;
      ghost var ws := bits[..];
      for l := i to stop
        invariant bits[..] == ws && k <= v.Length && Lists(v[..k], ws, l)
      {
        ListStep(v[..k], ws, l);
        var b := GetBit(l);
        if b {
          ghost var was := v[..k];
          v[k] := l;
          assert bits[..] == ws;
          k := k + 1;
          assert v[..k] == was + [l];
        }
      }
    }
  }

  // ---- whole runs ----

  /** How a set came about. */
  datatype History = Empty | Inserted(h: History, x: nat) | JoinedWith(h: History, g: History)

  function Members(h: History): set<nat> {
    match h
    case Empty => {}
    case Inserted(h', x) => Members(h') + {x}
    case JoinedWith(h', g) => Members(h') + Members(g)
  }

  predicate AllBelow(h: History, n: nat) {
    match h
    case Empty => true
    case Inserted(h', x) => x < n && AllBelow(h', n)
    case JoinedWith(h', g) => AllBelow(h', n) && AllBelow(g, n)
  }

  lemma {:induction false} MembersBelow(h: History, n: nat)
    requires AllBelow(h, n)
    ensures forall y :: y in Members(h) ==> y < n
  {
    match h
    case Empty =>
    case Inserted(h', x) => MembersBelow(h', n);
    case JoinedWith(h', g) => MembersBelow(h', n); MembersBelow(g, n);
  }

  /** Any sequence of insertions and joins on values below n < MAX_SIZE yields the mathematical set. */
  method Replay(h: History, n: nat) returns (s: FastSet)
    requires AllBelow(h, n) && n < MAX_SIZE
    ensures fresh(s) && fresh(s.values) && fresh(s.bits) && s.Valid()
    ensures forall y: nat :: s.Has(y) <==> y in Members(h)
    decreases h
  {
    hide Word, Limit, BitsHave;
    MembersBelow(h, n);
    match h
    case Empty =>
      s := new FastSet();
    case Inserted(h', x) =>
      s := Replay(h', n);
      s.Insert(x);
    case JoinedWith(h', g) =>
      s := Replay(h', n);
      var other := Replay(g, n);
      MembersBelow(g, n);
      LimitFits(n);
      s.Join(other, n);
  }

  /** The listing of the result is the ascending list of that set, whatever the order of operations. */
  method ReplayAndList(h: History, n: nat) returns (list: seq<nat>)
    requires AllBelow(h, n) && n < MAX_SIZE
    ensures StrictlySorted(list, NatLess) && forall y: nat :: y in list <==> y in Members(h)
  {
    hide Word, Limit, BitsHave;
    var s := Replay(h, n);
    MembersBelow(h, n);
    if s.card < SMALL_SIZE {
      SmallBelow(s, n);
    }
    var v := new nat[n];
    var k := s.Expand(v, n);
    list := v[..k];
  }

  lemma SmallBelow(s: FastSet, n: nat)
    requires s.Valid() && s.card < SMALL_SIZE && forall y: nat :: s.Has(y) ==> y < n
    ensures s.card <= n
  {
    forall i | 0 <= i < s.card
      ensures s.values[..s.card][i] < n
    {
      assert s.Has(s.values[..s.card][i]);
    }
    SmallFits(s.values[..s.card], n);
  }
}
