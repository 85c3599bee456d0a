/** Distinct numbers below a bound: there are at most that many, and that many take every value. */
module Pigeonhole {

  ghost predicate NoRepeat(s: seq<nat>) {
    forall i, j :: 0 <= i < j < |s| ==> s[i] != s[j]
  }

  ghost function UpTo(n: nat): (r: set<nat>)
    ensures |r| == n && forall x: nat :: x in r <==> x < n
  {
    if n == 0 then {} else UpTo(n - 1) + {n - 1}
  }

  lemma {:induction false} DistinctCount(s: seq<nat>, members: set<nat>)
    requires NoRepeat(s) && members == set x | x in s
    ensures |members| == |s|
  {
    if s == [] {
      assert members == {};
    } else {
      var k := |s| - 1;
      assert s == s[..k] + [s[k]];
      assert members - {s[k]} == set x | x in s[..k];
      DistinctCount(s[..k], members - {s[k]});
    }
  }

  /** There are at most n distinct numbers below n. */
  lemma Pigeons(s: seq<nat>, n: nat)
    requires NoRepeat(s) && forall i :: 0 <= i < |s| ==> s[i] < n
    ensures |s| <= n
  {
    var members := set x | x in s;
    DistinctCount(s, members);
    assert members <= UpTo(n);
    assert UpTo(n) == members + (UpTo(n) - members);
  }

  /** As many distinct numbers as the bound allows include each of them. */
  lemma Onto(s: seq<nat>, n: nat, k: nat) returns (i: nat)
    requires |s| == n && k < n && NoRepeat(s) && forall j :: 0 <= j < n ==> s[j] < n
    ensures i < n && s[i] == k
  {
    if k !in s {
      Pigeons(s + [k], n);
    }
    i :| 0 <= i < n && s[i] == k;
  }
}
