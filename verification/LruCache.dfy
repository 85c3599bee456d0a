/** One set of a cache under least-recently-used replacement, over the fields of its blocks. */
module LruCache {
  import opened Pigeonhole
  import opened LruSpec

  class LruSet {
    const valid: array<bool>
    const tag: array<nat>
    const lru: array<nat>

    /** The accesses that count for replacement: all but writeback hits. */
    ghost var history: seq<nat>

    ghost function State(): Ways
      reads valid, tag, lru
    {
      Ways(valid[..], tag[..], lru[..])
    }

    ghost predicate Valid()
      reads this, valid, tag, lru
    {
      && valid.Length == tag.Length == lru.Length > 0 && tag != lru
      && Follows(State(), lru.Length, Recent(history))
    }

    constructor (numWay: nat)
      requires numWay > 0
      ensures Valid() && history == [] && lru.Length == numWay && fresh(valid) && fresh(tag) && fresh(lru)
    {
      valid := new bool[numWay](_ => false);
      tag := new nat[numWay](_ => 0);
      lru := new nat[numWay](j => j);
      history := [];
    }

    /** The way that holds the tag, or the number of ways. */
    method CheckHit(t: nat) returns (way: nat)
      requires Valid()
      ensures way <= lru.Length && (way < lru.Length <==> Resident(State(), t))
      ensures way < lru.Length ==> valid[way] && tag[way] == t
    {
      for w := 0 to lru.Length
        invariant forall v :: 0 <= v < w ==> !(valid[v] && tag[v] == t)
      {
        if valid[w] && tag[w] == t {
          assert Holds(State(), w, t);
          return w;
        }
      }
      assert forall w: nat :: !Holds(State(), w, t);
      return lru.Length;
    }

    /** An unused way if there is one, otherwise the least recently used; there always is a victim. */
    method LruVictim() returns (way: nat)
      requires Valid()
      ensures way < lru.Length
      ensures if |Recent(history)| < lru.Length then way == |Recent(history)| && !valid[way] else lru[way] == lru.Length - 1
    {
      way := 0;
      while way < lru.Length && valid[way]
        invariant way <= lru.Length && forall v :: 0 <= v < way ==> valid[v]
      {
        way := way + 1;
      }
      if way == lru.Length {
        ghost var last := FieldsOnto(State(), lru.Length, Recent(history), lru.Length - 1);
        way := 0;
        while way < lru.Length && lru[way] != lru.Length - 1
          invariant way <= last
        {
          way := way + 1;
        }
      } else {
        assert !State().valid[way];
        assert way > 0 ==> State().valid[way - 1];
      }
    }

    /** The way becomes the most recent; those more recent than it age by one. */
    method LruUpdate(way: nat)
      requires way < lru.Length && tag != lru
      modifies lru
      ensures lru[..] == Promoted(old(lru[..]), way)
    {
      ghost var before := lru[..];
      for i := 0 to lru.Length
        invariant lru[way] == before[way]
        invariant forall j :: 0 <= j < i ==> lru[j] == if before[j] < before[way] then before[j] + 1 else before[j]
        invariant forall j :: i <= j < lru.Length ==> lru[j] == before[j]
      {
        if lru[i] < lru[way] {
          lru[i] := lru[i] + 1;
        }
      }
      lru[way] := 0;
    }

    /** A hit updates the order, unless it is a writeback; a miss fills a victim and updates the order. */
    method Access(t: nat, writeback: bool) returns (hit: bool)
      requires Valid()
      modifies this, valid, tag, lru
      ensures Valid() && hit == old(Resident(State(), t))
      ensures history == if hit && writeback then old(history) else old(history) + [t]
      ensures hit == (t in Recent(old(history))[..InUse(Recent(old(history)), lru.Length)])
    {
      hide Follows, Recent, Resident;
      ghost var r, s := Recent(history), State();
      ResidentIffRecent(s, lru.Length, r, t);
      var way := CheckHit(t);
      hit := way < lru.Length;
      if hit {
        if writeback {
          return;
        }
        HitKeeps(s, lru.Length, r, way);
        assert s.valid[way := true] == s.valid && s.tag[way := t] == s.tag;
      } else {
        way := LruVictim();
        if |r| < lru.Length {
          FillKeeps(s, lru.Length, r, t);
        } else {
          ReplaceKeeps(s, lru.Length, r, way, t);
        }
        valid[way] := true;
        tag[way] := t;
      }
      LruUpdate(way);
      RecentNext(history, t);
      history := history + [t];
      assert State() == Accessed(s, way, t);
    }
  }

  /** Over any run: a tag is in the set exactly if it is among the most recent distinct tags, one per way. */
  lemma ResidentAfterRun(c: LruSet, t: nat)
    requires c.Valid()
    ensures Resident(c.State(), t) <==> t in Recent(c.history)[..InUse(Recent(c.history), c.lru.Length)]
    ensures forall k: nat :: k < c.lru.Length ==> k in c.lru[..]
  {
    ResidentIffRecent(c.State(), c.lru.Length, Recent(c.history), t);
    forall k: nat | k < c.lru.Length
      ensures k in c.lru[..]
    {
      var w := FieldsOnto(c.State(), c.lru.Length, Recent(c.history), k);
      assert c.lru[..][w] == k;
    }
  }
}
