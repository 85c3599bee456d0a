/** Handing the entries of a list out to threads, in any order and any proportion. */
module Shares {
  import opened Pigeonhole

  ghost function Flat<T>(shares: seq<seq<T>>): seq<T> {
    if shares == [] then [] else shares[0] + Flat(shares[1..])
  }

  /** Every entry of the list is in exactly one of the shares. */
  ghost predicate IsSplit<T>(list: seq<T>, shares: seq<seq<T>>, workers: nat) {
    |shares| == workers && multiset(Flat(shares)) == multiset(list)
  }

  lemma {:induction false} InFlat<T>(shares: seq<seq<T>>, x: T)
    ensures x in Flat(shares) <==> exists i :: 0 <= i < |shares| && x in shares[i]
  {
    if shares != [] {
      InFlat(shares[1..], x);
      if x in Flat(shares[1..]) {
        var i :| 0 <= i < |shares[1..]| && x in shares[1..][i];
        assert x in shares[i + 1];
      }
      forall i | 0 < i < |shares| && x in shares[i]
        ensures x in Flat(shares[1..])
      {
        assert x in shares[1..][i - 1];
      }
    }
  }

  lemma SplitHas<T>(list: seq<T>, shares: seq<seq<T>>, workers: nat, x: T)
    requires IsSplit(list, shares, workers)
    ensures x in list <==> exists i :: 0 <= i < |shares| && x in shares[i]
  {
    InFlat(shares, x);
    assert x in Flat(shares) <==> x in multiset(Flat(shares));
    assert x in list <==> x in multiset(list);
  }

  lemma {:induction false} InOneShare<T>(shares: seq<seq<T>>, i: nat, x: T)
    requires i < |shares| && x in shares[i]
    ensures multiset(Flat(shares))[x] >= 1
  {
    InFlat(shares, x);
    assert x in multiset(Flat(shares));
  }

  lemma {:induction false} InTwoShares<T>(shares: seq<seq<T>>, i: nat, j: nat, x: T)
    requires i < j < |shares| && x in shares[i] && x in shares[j]
    ensures multiset(Flat(shares))[x] >= 2
  {
    var rest := shares[1..];
    assert multiset(Flat(shares)) == multiset(shares[0]) + multiset(Flat(rest));
    if i == 0 {
      assert x in multiset(shares[0]);
      InOneShare(rest, j - 1, x);
    } else {
      InTwoShares(rest, i - 1, j - 1, x);
    }
  }

  /** An entry that is in the list once is in one share only. */
  lemma SplitOnce(list: seq<nat>, shares: seq<seq<nat>>, workers: nat, i: nat, j: nat, x: nat)
    requires IsSplit(list, shares, workers) && NoRepeat(list)
    requires i < |shares| && j < |shares| && i != j && x in shares[i]
    ensures x !in shares[j]
  {
    OnceInList(list, x);
    if x in shares[j] {
      if i < j { InTwoShares(shares, i, j, x); } else { InTwoShares(shares, j, i, x); }
    }
  }

  lemma {:induction false} OnceInList(list: seq<nat>, x: nat)
    requires NoRepeat(list)
    ensures multiset(list)[x] <= 1
  {
    if list != [] {
      assert list == [list[0]] + list[1..];
      OnceInList(list[1..], x);
      assert list[0] !in list[1..];
      assert multiset(list) == multiset{list[0]} + multiset(list[1..]);
      assert x in multiset(list[1..]) <==> x in list[1..];
    }
  }

  /** Everything to the first thread. */
  lemma OneShare<T>(list: seq<T>, workers: nat) returns (shares: seq<seq<T>>)
    requires workers > 0
    ensures IsSplit(list, shares, workers)
  {
    var none := seq(workers - 1, _ => []);
    shares := [list] + none;
    assert shares[1..] == none;
    NoShares(none);
    assert Flat(shares) == list + Flat(none);
  }

  lemma {:induction false} NoShares<T>(shares: seq<seq<T>>)
    requires forall i :: 0 <= i < |shares| ==> shares[i] == []
    ensures Flat(shares) == []
  {
    if shares != [] {
      NoShares(shares[1..]);
    }
  }
}
