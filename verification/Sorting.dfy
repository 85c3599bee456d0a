/**
 * The library algorithms the builder calls on sorted ranges: sort, unique, remove_if.
 */
module Sorting {

  ghost predicate StrictOrder<T(!new)>(lt: (T, T) -> bool) {
    && (forall a :: !lt(a, a))
    && (forall a, b, c :: lt(a, b) && lt(b, c) ==> lt(a, c))
    && (forall a, b :: lt(a, b) || a == b || lt(b, a))
  }

  ghost predicate Sorted<T>(s: seq<T>, lt: (T, T) -> bool) {
    forall i, j :: 0 <= i < j < |s| ==> !lt(s[j], s[i])
  }

  ghost predicate StrictlySorted<T>(s: seq<T>, lt: (T, T) -> bool) {
    forall i, j :: 0 <= i < j < |s| ==> lt(s[i], s[j])
  }

  function Insert<T>(x: T, s: seq<T>, lt: (T, T) -> bool): seq<T> {
    if s == [] || !lt(s[0], x) then [x] + s else [s[0]] + Insert(x, s[1..], lt)
  }

  function Sort<T>(s: seq<T>, lt: (T, T) -> bool): seq<T> {
    if s == [] then [] else Insert(s[0], Sort(s[1..], lt), lt)
  }

  lemma {:induction false} InsertElements<T>(x: T, s: seq<T>, lt: (T, T) -> bool)
    ensures multiset(Insert(x, s, lt)) == multiset(s) + multiset{x}
    ensures |Insert(x, s, lt)| == |s| + 1
  {
    if s == [] || !lt(s[0], x) {
    } else {
      InsertElements(x, s[1..], lt);
      assert s == [s[0]] + s[1..];
    }
  }

  lemma {:induction false} InsertSorted<T(!new)>(x: T, s: seq<T>, lt: (T, T) -> bool)
    requires StrictOrder(lt) && Sorted(s, lt)
    ensures Sorted(Insert(x, s, lt), lt)
  {
    if s == [] || !lt(s[0], x) {
      forall j | 0 <= j < |s|
        ensures !lt(s[j], x)
      {
        if j > 0 { assert !lt(s[j], s[0]); }
      }
    } else {
      InsertSorted(x, s[1..], lt);
      InsertElements(x, s[1..], lt);
      var r := Insert(x, s[1..], lt);
      forall j | 0 <= j < |r|
        ensures !lt(r[j], s[0])
      {
        assert r[j] in multiset(r);
        if r[j] != x {
          assert r[j] in s[1..];
        }
      }
    }
  }

  /** sort: an ordered rearrangement. */
  lemma {:induction false} SortSorts<T(!new)>(s: seq<T>, lt: (T, T) -> bool)
    requires StrictOrder(lt)
    ensures Sorted(Sort(s, lt), lt) && multiset(Sort(s, lt)) == multiset(s) && |Sort(s, lt)| == |s|
  {
    if s != [] {
      SortSorts(s[1..], lt);
      InsertSorted(s[0], Sort(s[1..], lt), lt);
      InsertElements(s[0], Sort(s[1..], lt), lt);
      assert s == [s[0]] + s[1..];
    }
  }

  lemma SortMembers<T(!new)>(s: seq<T>, lt: (T, T) -> bool)
    requires StrictOrder(lt)
    ensures forall x :: x in Sort(s, lt) <==> x in s
  {
    SortSorts(s, lt);
    forall x
      ensures x in Sort(s, lt) <==> x in s
    {
      assert x in Sort(s, lt) <==> x in multiset(Sort(s, lt));
      assert x in s <==> x in multiset(s);
    }
  }

  /** unique: drops every element equal to the one kept before it. */
  function Unique<T(==)>(s: seq<T>): (r: seq<T>)
    ensures |r| <= |s|
  {
    if |s| <= 1 then s
    else
      var r := Unique(s[..|s| - 1]);
      if s[|s| - 2] == s[|s| - 1] then r else r + [s[|s| - 1]]
  }

  lemma {:induction false} UniqueStrict<T(!new)>(s: seq<T>, lt: (T, T) -> bool)
    requires StrictOrder(lt) && Sorted(s, lt)
    ensures StrictlySorted(Unique(s), lt)
    ensures forall x :: x in Unique(s) <==> x in s
    ensures s != [] ==> Unique(s) != [] && Unique(s)[|Unique(s)| - 1] == s[|s| - 1]
  {
    if |s| > 1 {
      var p := s[..|s| - 1];
      UniqueStrict(p, lt);
      assert s == p + [s[|s| - 1]];
      assert p[|p| - 1] == s[|s| - 2];
      var r := Unique(p);
      if s[|s| - 2] != s[|s| - 1] {
        assert lt(s[|s| - 2], s[|s| - 1]);
        forall i | 0 <= i < |r|
          ensures lt(r[i], s[|s| - 1])
        {
          assert i < |r| - 1 ==> lt(r[i], r[|r| - 1]);
        }
      }
    }
  }

  /** remove_if: keeps the elements the predicate does not hold of, in order. */
  function RemoveIf<T>(s: seq<T>, p: T -> bool): (r: seq<T>)
    ensures |r| <= |s|
  {
    if s == [] then [] else RemoveIf(s[..|s| - 1], p) + if p(s[|s| - 1]) then [] else [s[|s| - 1]]
  }

  lemma {:induction false} RemoveIfKeeps<T(!new)>(s: seq<T>, p: T -> bool, lt: (T, T) -> bool)
    requires StrictlySorted(s, lt)
    ensures StrictlySorted(RemoveIf(s, p), lt)
    ensures forall x :: x in RemoveIf(s, p) <==> x in s && !p(x)
  {
    if s != [] {
      var q := s[..|s| - 1];
      RemoveIfKeeps(q, p, lt);
      assert s == q + [s[|s| - 1]];
      forall i | 0 <= i < |RemoveIf(q, p)|
        ensures lt(RemoveIf(q, p)[i], s[|s| - 1])
      {
        var r := RemoveIf(q, p);
        assert r[i] in r;
        assert r[i] in q;
      }
    }
  }

  predicate NatLess(a: nat, b: nat) { a < b }

  lemma NatLessIsOrder()
    ensures StrictOrder(NatLess)
  {
  }

  /** A strictly ascending list is determined by its elements. */
  lemma {:induction false} AscendingUnique(a: seq<nat>, b: seq<nat>)
    requires StrictlySorted(a, NatLess) && StrictlySorted(b, NatLess)
    requires forall x :: x in a <==> x in b
    ensures a == b
  {
    if a != [] {
      assert a[|a| - 1] in a;
    }
    if b != [] {
      assert b[|b| - 1] in b;
    }
    if a != [] && b != [] {
      var a', b' := a[..|a| - 1], b[..|b| - 1];
      assert a == a' + [a[|a| - 1]] && b == b' + [b[|b| - 1]];
      forall x
        ensures x in a' <==> x in b'
      {
        assert x in a <==> x in b;
      }
      AscendingUnique(a', b');
    }
  }
}
