/** Recency order, and how a set's least-recently-used fields follow it. */
module LruSpec {
  import opened Pigeonhole

  /** s without its entries equal to t. */
  ghost function Without(s: seq<nat>, t: nat): (r: seq<nat>)
    ensures |r| <= |s|
  {
    if s == [] then [] else (if s[0] == t then [] else [s[0]]) + Without(s[1..], t)
  }

  /** The tags of a run of accesses without repeats, most recent first. */
  ghost function Recent(history: seq<nat>): seq<nat> {
    if history == [] then []
    else
      var t := history[|history| - 1];
      [t] + Without(Recent(history[..|history| - 1]), t)
  }

  lemma {:induction false} WithoutMembers(s: seq<nat>, t: nat)
    ensures forall x :: x in Without(s, t) <==> x in s && x != t
  {
    if s != [] {
      WithoutMembers(s[1..], t);
      assert s == [s[0]] + s[1..];
    }
  }

  lemma {:induction false} WithoutDistinct(s: seq<nat>, t: nat)
    requires NoRepeat(s)
    ensures NoRepeat(Without(s, t))
    ensures t !in s ==> Without(s, t) == s
  {
    if s != [] {
      WithoutDistinct(s[1..], t);
      WithoutMembers(s[1..], t);
      assert s == [s[0]] + s[1..];
      var rest := Without(s[1..], t);
      assert forall i :: 0 <= i < |rest| ==> rest[i] in rest;
    }
  }

  /** Taking out the k-th entry closes the gap. */
  lemma {:induction false} WithoutAt(s: seq<nat>, k: nat)
    requires NoRepeat(s) && k < |s|
    ensures Without(s, s[k]) == s[..k] + s[k + 1..]
  {
    if k > 0 {
      WithoutAt(s[1..], k - 1);
      assert s[1..][k - 1] == s[k] && s[1..][k..] == s[k + 1..];
      assert s[..k] == [s[0]] + s[1..][..k - 1];
    } else {
      WithoutDistinct(s[1..], s[0]);
      assert s[0] !in s[1..];
    }
  }

  lemma {:induction false} RecentDistinct(history: seq<nat>)
    ensures NoRepeat(Recent(history))
    ensures forall x :: x in Recent(history) <==> x in history
  {
    if history != [] {
      var front, t := history[..|history| - 1], history[|history| - 1];
      RecentDistinct(front);
      WithoutDistinct(Recent(front), t);
      WithoutMembers(Recent(front), t);
      assert history == front + [t];
      var rest := Without(Recent(front), t);
      assert forall i :: 0 <= i < |rest| ==> rest[i] in rest;
    }
  }

  lemma RecentNext(history: seq<nat>, t: nat)
    ensures Recent(history + [t]) == [t] + Without(Recent(history), t)
  {
    assert (history + [t])[..|history|] == history;
  }

  // ---- one set ----

  datatype Ways = Ways(valid: seq<bool>, tag: seq<nat>, lru: seq<nat>)

  ghost predicate Sized(s: Ways, n: nat) { |s.valid| == |s.tag| == |s.lru| == n }

  /** How many of the n ways are in use after accesses with the recency order r. */
  function InUse(r: seq<nat>, n: nat): nat { if |r| < n then |r| else n }

  /**
   * The ways in use come first; the lru field of each is its tag's place in the recency order, and
   * the fields of the unused ways are their own numbers.
   */
  ghost predicate Follows(s: Ways, n: nat, r: seq<nat>) {
    && Sized(s, n) && NoRepeat(r)
    && (forall w :: 0 <= w < n ==> (s.valid[w] <==> w < InUse(r, n)))
    && (forall w :: 0 <= w < n && s.valid[w] ==> s.lru[w] < InUse(r, n) && s.tag[w] == r[s.lru[w]])
    && (forall w :: 0 <= w < n && !s.valid[w] ==> s.lru[w] == w)
    && (forall v, w :: 0 <= v < w < n ==> s.lru[v] != s.lru[w])
  }

  ghost predicate Holds(s: Ways, w: nat, t: nat) {
    w < |s.valid| && w < |s.tag| && s.valid[w] && s.tag[w] == t
  }

  ghost predicate Resident(s: Ways, t: nat) { exists w: nat :: Holds(s, w, t) }

  // ---- the fields are a permutation, so a victim exists ----

  /** The fields take every value below the number of ways. */
  lemma FieldsOnto(s: Ways, n: nat, r: seq<nat>, k: nat) returns (w: nat)
    requires Follows(s, n, r) && k < n
    ensures w < n && s.lru[w] == k
  {
    w := Onto(s.lru, n, k);
  }

  /** A tag is in the set exactly if it is among the n most recently accessed ones. */
  lemma ResidentIffRecent(s: Ways, n: nat, r: seq<nat>, t: nat)
    requires Follows(s, n, r)
    ensures Resident(s, t) <==> t in r[..InUse(r, n)]
  {
    if Resident(s, t) {
      var w: nat :| Holds(s, w, t);
      assert r[..InUse(r, n)][s.lru[w]] == t;
    }
    if t in r[..InUse(r, n)] {
      var k :| 0 <= k < InUse(r, n) && r[k] == t;
      var w := FieldsOnto(s, n, r, k);
      assert s.valid[w];
      assert Holds(s, w, t);
    }
  }

  // ---- an access ----

  /** The lru fields after a way has become the most recent. */
  ghost function Promoted(lru: seq<nat>, way: nat): (r: seq<nat>)
    requires way < |lru|
    ensures |r| == |lru|
    ensures forall i :: 0 <= i < |r| ==>
              r[i] == if i == way then 0 else if lru[i] < lru[way] then lru[i] + 1 else lru[i]
  {
    seq(|lru|, i requires 0 <= i < |lru| => if i == way then 0 else if lru[i] < lru[way] then lru[i] + 1 else lru[i])
  }

  lemma PromotedDistinct(lru: seq<nat>, way: nat)
    requires way < |lru| && forall v, w :: 0 <= v < w < |lru| ==> lru[v] != lru[w]
    ensures forall v, w :: 0 <= v < w < |lru| ==> Promoted(lru, way)[v] != Promoted(lru, way)[w]
  {
  }

  /** The set after an access to tag t that ends in the given way. */
  ghost function Accessed(s: Ways, way: nat, t: nat): Ways
    requires way < |s.valid| == |s.tag| == |s.lru|
  {
    Ways(s.valid[way := true], s.tag[way := t], Promoted(s.lru, way))
  }

  /** Behind a tag that was at place k and moved to the front, the first k tags move back by one. */
  ghost predicate Shifted(r: seq<nat>, r': seq<nat>, i: nat, k: nat) {
    0 < i < |r'| && (if i <= k then i - 1 < |r| && r'[i] == r[i - 1] else i < |r| && r'[i] == r[i])
  }

  /** In the recency order t moves to the front, over the tags that were more recent than the way's. */
  lemma AccessKeeps(s: Ways, n: nat, r: seq<nat>, way: nat, t: nat, r': seq<nat>)
    requires Follows(s, n, r) && way < n && NoRepeat(r')
    requires s.valid[way] || way == |r| < n
    requires InUse(r', n) == if s.valid[way] then InUse(r, n) else InUse(r, n) + 1
    requires r' != [] && r'[0] == t
    requires forall i: nat :: 0 < i < InUse(r', n) ==> Shifted(r, r', i, s.lru[way])
    ensures Follows(Accessed(s, way, t), n, r')
  {
    var s' := Accessed(s, way, t);
    PromotedDistinct(s.lru, way);
    forall w | 0 <= w < n && s'.valid[w]
      ensures s'.lru[w] < InUse(r', n) && s'.tag[w] == r'[s'.lru[w]]
    {
      if w != way {
        assert s.valid[w] && s.lru[w] != s.lru[way];
        var k := s.lru[w];
        if k < s.lru[way] {
          assert Shifted(r, r', k + 1, s.lru[way]);
        } else {
          assert Shifted(r, r', k, s.lru[way]);
        }
      }
    }
  }

  /** A hit. */
  lemma HitKeeps(s: Ways, n: nat, r: seq<nat>, way: nat)
    requires Follows(s, n, r) && way < n && s.valid[way]
    ensures Follows(Accessed(s, way, s.tag[way]), n, [s.tag[way]] + Without(r, s.tag[way]))
  {
    var k, t := s.lru[way], s.tag[way];
    WithoutAt(r, k);
    WithoutDistinct(r, t);
    WithoutMembers(r, t);
    AccessKeeps(s, n, r, way, t, [t] + Without(r, t));
  }

  /** A miss that fills an unused way. */
  lemma FillKeeps(s: Ways, n: nat, r: seq<nat>, t: nat)
    requires Follows(s, n, r) && |r| < n && !Resident(s, t)
    ensures Follows(Accessed(s, |r|, t), n, [t] + Without(r, t))
  {
    ResidentIffRecent(s, n, r, t);
    assert r[..|r|] == r;
    WithoutDistinct(r, t);
    AccessKeeps(s, n, r, |r|, t, [t] + r);
  }

  lemma WithoutPrefix(r: seq<nat>, n: nat, t: nat)
    requires NoRepeat(r) && n <= |r| && t !in r[..n]
    ensures |Without(r, t)| >= n - 1 && forall i :: 0 <= i < n - 1 ==> Without(r, t)[i] == r[i]
    ensures |r| > n || t !in r ==> |Without(r, t)| >= n || |r| == n
  {
    WithoutDistinct(r, t);
    if t in r {
      var k :| 0 <= k < |r| && r[k] == t;
      if k >= n {
        WithoutAt(r, k);
      }
    }
  }

  /** A miss that replaces the least recently used way. */
  lemma ReplaceKeeps(s: Ways, n: nat, r: seq<nat>, way: nat, t: nat)
    requires Follows(s, n, r) && |r| >= n > 0 && way < n && s.lru[way] == n - 1 && !Resident(s, t)
    ensures Follows(Accessed(s, way, t), n, [t] + Without(r, t))
  {
    ResidentIffRecent(s, n, r, t);
    WithoutDistinct(r, t);
    WithoutMembers(r, t);
    WithoutPrefix(r, n, t);
    AccessKeeps(s, n, r, way, t, [t] + Without(r, t));
  }
}
