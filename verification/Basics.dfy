/** Definitions that several of the models share. */
module Basics {

  datatype Option<T> = None | Some(value: T)

  function Min(a: nat, b: nat): nat { if a < b then a else b }

  ghost function Sum(s: seq<nat>): nat { if s == [] then 0 else s[0] + Sum(s[1..]) }

  lemma {:induction false} SumLower(s: seq<nat>, i: nat, x: nat)
    requires i < |s| && x < s[i]
    ensures Sum(s[i := x]) < Sum(s)
  {
    if i == 0 {
      assert s[i := x][1..] == s[1..];
    } else {
      assert s[i := x][1..] == s[1..][i - 1 := x];
      SumLower(s[1..], i - 1, x);
    }
  }

  /** What is left of equal multisets when the same element is taken out of both. */
  lemma CancelOne<T(!new)>(x: T, a: multiset<T>, b: multiset<T>)
    requires multiset{x} + a == multiset{x} + b
    ensures a == b
  {
    forall y: T
      ensures a[y] == b[y]
    {
      assert (multiset{x} + a)[y] == (multiset{x} + b)[y];
    }
  }

  /** The array after a list has been copied to it. */
  ghost function Overwritten<T>(a: seq<T>, from: nat, list: seq<T>): (r: seq<T>)
    ensures |r| == |a|
    ensures forall i :: 0 <= i < |r| ==> r[i] == if from <= i < from + |list| then list[i - from] else a[i]
  {
    seq(|a|, i requires 0 <= i < |a| => if from <= i < from + |list| then list[i - from] else a[i])
  }
}
