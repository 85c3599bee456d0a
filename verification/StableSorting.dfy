/** Stable sorting by a natural-number key, and what sorting by two keys in turn gives. */
module StableSorting {
  import opened Arith

  /** The elements of s whose key is v, in the order of s. */
  ghost function Class<E>(s: seq<E>, g: E -> nat, v: nat): (r: seq<E>)
    ensures |r| <= |s|
  {
    if s == [] then []
    else
      var k := |s| - 1;
      if g(s[k]) == v then Class(s[..k], g, v) + [s[k]] else Class(s[..k], g, v)
  }

  ghost predicate Sorted<E>(t: seq<E>, g: E -> nat) {
    forall i, j :: 0 <= i <= j < |t| ==> g(t[i]) <= g(t[j])
  }

  /** t is s sorted by g, and elements with equal keys keep their order. */
  ghost predicate StableSortOf<E>(s: seq<E>, t: seq<E>, g: E -> nat) {
    Sorted(t, g) && forall v: nat :: Class(t, g, v) == Class(s, g, v)
  }

  /** The number of elements with a key below v. */
  ghost function Below<E>(s: seq<E>, g: E -> nat, v: nat): nat {
    if s == [] then 0
    else
      var k := |s| - 1;
      Below(s[..k], g, v) + if g(s[k]) < v then 1 else 0
  }

  /** The classes of the keys below v, one after the other. */
  ghost function Gather<E>(s: seq<E>, g: E -> nat, v: nat): seq<E> {
    if v == 0 then [] else Gather(s, g, v - 1) + Class(s, g, v - 1)
  }

  // ---- classes ----

  lemma ClassNext<E>(s: seq<E>, g: E -> nat, v: nat, j: nat)
    requires j < |s|
    ensures Class(s[..j + 1], g, v) == if g(s[j]) == v then Class(s[..j], g, v) + [s[j]] else Class(s[..j], g, v)
  {
    assert s[..j + 1][..j] == s[..j];
  }

  lemma {:induction false} ClassPrefix<E>(s: seq<E>, g: E -> nat, v: nat, j: nat)
    requires j <= |s|
    ensures |Class(s[..j], g, v)| <= |Class(s, g, v)|
    ensures Class(s[..j], g, v) == Class(s, g, v)[..|Class(s[..j], g, v)|]
    decreases |s| - j
  {
    if j < |s| {
      ClassPrefix(s, g, v, j + 1);
      ClassNext(s, g, v, j);
    } else {
      assert s[..j] == s;
    }
  }

  lemma ClassSnoc<E>(s: seq<E>, e: E, g: E -> nat, v: nat)
    ensures Class(s + [e], g, v) == if g(e) == v then Class(s, g, v) + [e] else Class(s, g, v)
  {
    assert (s + [e])[..|s|] == s;
  }

  /** Where an element stands in its class. */
  lemma ClassAt<E>(s: seq<E>, g: E -> nat, j: nat)
    requires j < |s|
    ensures var v := g(s[j]); |Class(s[..j], g, v)| < |Class(s, g, v)| && Class(s, g, v)[|Class(s[..j], g, v)|] == s[j]
  {
    ClassPrefix(s, g, g(s[j]), j + 1);
    ClassNext(s, g, g(s[j]), j);
  }

  lemma {:induction false} ClassMembers<E>(s: seq<E>, g: E -> nat, v: nat)
    ensures forall i :: 0 <= i < |Class(s, g, v)| ==> g(Class(s, g, v)[i]) == v
  {
    if s != [] {
      ClassMembers(s[..|s| - 1], g, v);
    }
  }

  lemma {:induction false} ClassConcat<E>(s: seq<E>, t: seq<E>, g: E -> nat, v: nat)
    ensures Class(s + t, g, v) == Class(s, g, v) + Class(t, g, v)
  {
    if t == [] {
      assert s + t == s;
    } else {
      assert (s + t)[..|s + t| - 1] == s + t[..|t| - 1];
      ClassConcat(s, t[..|t| - 1], g, v);
    }
  }

  lemma {:induction false} ClassOfClass<E>(s: seq<E>, g: E -> nat, u: nat, v: nat)
    ensures Class(Class(s, g, u), g, v) == if u == v then Class(s, g, v) else []
  {
    if s != [] {
      var k := |s| - 1;
      ClassOfClass(s[..k], g, u, v);
      if g(s[k]) == u {
        ClassSnoc(Class(s[..k], g, u), s[k], g, v);
      } else {
        assert Class(s, g, u) == Class(s[..k], g, u);
      }
    }
  }

  /** The value c of one key stands for the values u and v of two others. */
  ghost predicate Stands<E(!new)>(key: E -> nat, c: nat, g: E -> nat, u: nat, h: E -> nat, v: nat) {
    forall e: E :: key(e) == c <==> g(e) == u && h(e) == v
  }

  /** A class under a pair of keys is a class of a class, whichever key comes first. */
  lemma {:induction false} ClassPair<E(!new)>(s: seq<E>, g: E -> nat, u: nat, h: E -> nat, v: nat, key: E -> nat, c: nat)
    requires Stands(key, c, g, u, h, v)
    ensures Class(s, key, c) == Class(Class(s, g, u), h, v)
  {
    if s != [] {
      var k := |s| - 1;
      ClassPair(s[..k], g, u, h, v, key, c);
      if g(s[k]) == u {
        ClassSnoc(Class(s[..k], g, u), s[k], h, v);
      } else {
        assert Class(s, g, u) == Class(s[..k], g, u);
      }
    }
  }

  lemma {:induction false} ClassSorted<E>(t: seq<E>, low: E -> nat, g: E -> nat, v: nat)
    requires Sorted(t, low)
    ensures Sorted(Class(t, g, v), low)
    ensures forall i :: 0 <= i < |Class(t, g, v)| ==> low(Class(t, g, v)[i]) <= low(t[|t| - 1])
  {
    if t != [] {
      var k := |t| - 1;
      ClassSorted(t[..k], low, g, v);
    }
  }

  // ---- gathering the classes is the stable sort ----

  lemma {:induction false} GatherNext<E>(s: seq<E>, g: E -> nat, v: nat)
    requires s != []
    ensures var k := |s| - 1;
            |Gather(s, g, v)| == |Gather(s[..k], g, v)| + if g(s[k]) < v then 1 else 0
  {
    if v > 0 {
      GatherNext(s, g, v - 1);
    }
  }

  lemma {:induction false} GatherLength<E>(s: seq<E>, g: E -> nat, v: nat)
    ensures |Gather(s, g, v)| == Below(s, g, v)
  {
    if s == [] {
      GatherNothing(s, g, v);
    } else {
      GatherNext(s, g, v);
      GatherLength(s[..|s| - 1], g, v);
    }
  }

  lemma {:induction false} GatherNothing<E>(s: seq<E>, g: E -> nat, v: nat)
    requires s == []
    ensures Gather(s, g, v) == []
  {
    if v > 0 {
      GatherNothing(s, g, v - 1);
    }
  }

  lemma {:induction false} BelowAll<E>(s: seq<E>, g: E -> nat, v: nat)
    requires forall i :: 0 <= i < |s| ==> g(s[i]) < v
    ensures Below(s, g, v) == |s|
  {
    if s != [] {
      BelowAll(s[..|s| - 1], g, v);
    }
  }

  lemma {:induction false} GatherMonotone<E>(s: seq<E>, g: E -> nat, u: nat, v: nat)
    requires u <= v
    ensures |Gather(s, g, u)| <= |Gather(s, g, v)|
  {
    if u < v {
      GatherMonotone(s, g, u, v - 1);
    }
  }

  lemma NoClass<E>(g: E -> nat, v: nat)
    ensures Class([], g, v) == []
  {
  }

  lemma {:induction false} GatherClassAbove<E>(s: seq<E>, g: E -> nat, m: nat, v: nat)
    requires m <= v
    ensures Class(Gather(s, g, m), g, v) == []
  {
    hide Class;
    if m > 0 {
      hide Gather;
      GatherClassAbove(s, g, m - 1, v);
      GatherClassStep(s, g, m, v);
    } else {
      NoClass(g, v);
    }
  }

  lemma {:induction false} GatherClass<E>(s: seq<E>, g: E -> nat, m: nat, v: nat)
    requires v < m
    ensures Class(Gather(s, g, m), g, v) == Class(s, g, v)
  {
    hide Gather, Class;
    GatherClassStep(s, g, m, v);
    if v < m - 1 {
      GatherClass(s, g, m - 1, v);
    } else {
      GatherClassAbove(s, g, m - 1, v);
    }
  }

  lemma {:induction false} GatherClassStep<E>(s: seq<E>, g: E -> nat, m: nat, v: nat)
    requires m > 0
    ensures Class(Gather(s, g, m), g, v) == Class(Gather(s, g, m - 1), g, v) + if v == m - 1 then Class(s, g, v) else []
  {
    hide Gather, Class;
    GatherSplit(s, g, m);
    ClassOfClass(s, g, m - 1, v);
    ClassConcat(Gather(s, g, m - 1), Class(s, g, m - 1), g, v);
  }

  lemma {:induction false} GatherSplit<E>(s: seq<E>, g: E -> nat, m: nat)
    requires m > 0
    ensures Gather(s, g, m) == Gather(s, g, m - 1) + Class(s, g, m - 1)
  {
  }

  lemma {:induction false} GatherSorted<E>(s: seq<E>, g: E -> nat, m: nat)
    ensures Sorted(Gather(s, g, m), g)
    ensures forall i :: 0 <= i < |Gather(s, g, m)| ==> g(Gather(s, g, m)[i]) < m
  {
    if m > 0 {
      GatherSorted(s, g, m - 1);
      ClassMembers(s, g, m - 1);
    }
  }

  lemma {:induction false} ClassEmpty<E>(s: seq<E>, g: E -> nat, v: nat)
    requires forall i :: 0 <= i < |s| ==> g(s[i]) != v
    ensures Class(s, g, v) == []
  {
    if s != [] {
      ClassEmpty(s[..|s| - 1], g, v);
    }
  }

  lemma GatherIsStableSort<E>(s: seq<E>, g: E -> nat, m: nat)
    requires forall i :: 0 <= i < |s| ==> g(s[i]) < m
    ensures StableSortOf(s, Gather(s, g, m), g) && |Gather(s, g, m)| == |s|
  {
    GatherSorted(s, g, m);
    GatherLength(s, g, m);
    BelowAll(s, g, m);
    forall v: nat
      ensures Class(Gather(s, g, m), g, v) == Class(s, g, v)
    {
      if v < m {
        GatherClass(s, g, m, v);
      } else {
        GatherClassAbove(s, g, m, v);
        ClassEmpty(s, g, v);
      }
    }
  }

  // ---- there is only one stable sort ----

  lemma {:induction false} GatherFront<E>(s: seq<E>, g: E -> nat, m: nat)
    requires s != [] && m <= g(s[|s| - 1])
    ensures Gather(s, g, m) == Gather(s[..|s| - 1], g, m)
  {
    if m > 0 {
      GatherFront(s, g, m - 1);
    }
  }

  lemma JoinLast<E>(a: seq<E>, b: seq<E>, a': seq<E>, b': seq<E>, x: E)
    requires (a == a' && b == b' + [x]) || (a == a' + [x] && b == b' == [])
    ensures a + b == (a' + b') + [x]
  {
  }

  lemma {:induction false} GatherLast<E>(s: seq<E>, g: E -> nat, m: nat)
    requires s != [] && Sorted(s, g) && g(s[|s| - 1]) < m
    ensures Gather(s, g, m) == Gather(s[..|s| - 1], g, m) + [s[|s| - 1]]
  {
    var front, x := s[..|s| - 1], s[|s| - 1];
    if g(x) == m - 1 {
      GatherFront(s, g, m - 1);
    } else {
      GatherLast(s, g, m - 1);
      ClassEmpty(s, g, m - 1);
      ClassEmpty(front, g, m - 1);
    }
    JoinLast(Gather(s, g, m - 1), Class(s, g, m - 1), Gather(front, g, m - 1), Class(front, g, m - 1), x);
  }

  lemma {:induction false} SortedIsGather<E>(t: seq<E>, g: E -> nat, m: nat)
    requires Sorted(t, g) && forall i :: 0 <= i < |t| ==> g(t[i]) < m
    ensures t == Gather(t, g, m)
  {
    if t == [] {
      GatherNothing(t, g, m);
    } else {
      var k := |t| - 1;
      SortedIsGather(t[..k], g, m);
      GatherLast(t, g, m);
    }
  }

  lemma {:induction false} GatherSame<E>(s: seq<E>, t: seq<E>, g: E -> nat, m: nat)
    requires forall v: nat :: Class(t, g, v) == Class(s, g, v)
    ensures Gather(s, g, m) == Gather(t, g, m)
  {
    if m > 0 {
      GatherSame(s, t, g, m - 1);
    }
  }

  lemma {:induction false} SomeBound<E>(s: seq<E>, g: E -> nat) returns (m: nat)
    ensures forall i :: 0 <= i < |s| ==> g(s[i]) < m
  {
    if s == [] {
      return 0;
    }
    m := SomeBound(s[..|s| - 1], g);
    if g(s[|s| - 1]) >= m {
      m := g(s[|s| - 1]) + 1;
    }
  }

  /** Two stable sorts of the same sequence are the same sequence. */
  lemma StableSortUnique<E>(s: seq<E>, t: seq<E>, u: seq<E>, g: E -> nat)
    requires StableSortOf(s, t, g) && StableSortOf(s, u, g)
    ensures t == u
  {
    var m := SomeBound(t + u, g);
    assert forall i :: 0 <= i < |t| ==> t[i] == (t + u)[i];
    assert forall i :: 0 <= i < |u| ==> u[i] == (t + u)[|t| + i];
    SortedIsGather(t, g, m);
    SortedIsGather(u, g, m);
    GatherSame(t, u, g, m);
  }

  /** Any stable sort is the classes in order, so it is a permutation with one element each. */
  lemma StableSortIsGather<E(!new)>(s: seq<E>, t: seq<E>, g: E -> nat)
    requires StableSortOf(s, t, g)
    ensures multiset(t) == multiset(s)
    ensures forall v: nat :: Below(t, g, v) == Below(s, g, v)
  {
    var m := SomeBound(s, g);
    GatherIsStableSort(s, g, m);
    StableSortUnique(s, t, Gather(s, g, m), g);
    forall e: E
      ensures multiset(t)[e] == multiset(s)[e]
    {
      ClassCounts(s, g, e);
      ClassCounts(t, g, e);
    }
    forall v: nat
      ensures Below(t, g, v) == Below(s, g, v)
    {
      GatherLength(s, g, v);
      GatherLength(t, g, v);
      GatherSame(s, t, g, v);
    }
  }

  lemma {:induction false} ClassCounts<E>(s: seq<E>, g: E -> nat, e: E)
    ensures multiset(s)[e] == multiset(Class(s, g, g(e)))[e]
  {
    if s != [] {
      var k := |s| - 1;
      ClassCounts(s[..k], g, e);
      assert s == s[..k] + [s[k]];
    }
  }

  // ---- low digits first ----

  /** Sorting stably by the low part of a key and then by the high part sorts by the key. */
  lemma LowThenHigh<E(!new)>(s: seq<E>, t: seq<E>, u: seq<E>, low: E -> nat, high: E -> nat, key: E -> nat, w: nat)
    requires StableSortOf(s, t, low) && StableSortOf(t, u, high)
    requires w > 0 && forall e: E :: low(e) < w && key(e) == w * high(e) + low(e)
    ensures StableSortOf(s, u, key)
  {
    forall i, j | 0 <= i <= j < |u|
      ensures key(u[i]) <= key(u[j])
    {
      if high(u[i]) == high(u[j]) {
        SameHigh(t, u, low, high, i, j);
      } else {
        MulNext(w, high(u[i]), high(u[j]));
      }
    }
    forall c: nat
      ensures Class(u, key, c) == Class(s, key, c)
    {
      SameClasses(s, t, u, low, high, key, w, c);
    }
  }

  lemma SameHigh<E>(t: seq<E>, u: seq<E>, low: E -> nat, high: E -> nat, i: nat, j: nat)
    requires Sorted(t, low) && StableSortOf(t, u, high)
    requires i <= j < |u| && high(u[i]) == high(u[j])
    ensures low(u[i]) <= low(u[j])
  {
    var v := high(u[i]);
    ClassAt(u, high, i);
    ClassAt(u, high, j);
    ClassSorted(t, low, high, v);
    assert u[..j][..i] == u[..i];
    ClassPrefix(u[..j], high, v, i);
  }

  lemma SameClasses<E(!new)>(s: seq<E>, t: seq<E>, u: seq<E>, low: E -> nat, high: E -> nat, key: E -> nat,
                             w: nat, c: nat)
    requires StableSortOf(s, t, low) && StableSortOf(t, u, high)
    requires w > 0 && forall e: E :: low(e) < w && key(e) == w * high(e) + low(e)
    ensures Class(u, key, c) == Class(s, key, c)
  {
    var h, l := c / w, c % w;
    assert c == w * h + l;
    PartsStand(low, high, key, w, h, l);
    ClassPair(u, high, h, low, l, key, c);
    ClassPair(t, high, h, low, l, key, c);
    ClassPair(t, low, l, high, h, key, c);
    ClassPair(s, low, l, high, h, key, c);
  }

  lemma PartsStand<E(!new)>(low: E -> nat, high: E -> nat, key: E -> nat, w: nat, h: nat, l: nat)
    requires l < w && forall e: E :: low(e) < w && key(e) == w * high(e) + low(e)
    ensures Stands(key, w * h + l, high, h, low, l) && Stands(key, w * h + l, low, l, high, h)
  {
    forall e: E
      ensures key(e) == w * h + l <==> high(e) == h && low(e) == l
    {
      if key(e) == w * h + l {
        QuotientUnique(w, high(e), low(e), h, l);
      }
    }
  }
}
