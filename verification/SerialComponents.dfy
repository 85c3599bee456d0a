/**
 * The component kernels in their own imperative form, as one thread runs them: `comp` is an
 * array updated in place.  The interleaved forms are in LinkProtocol, CompressProtocol,
 * Afforest and HookProtocol; both forms meet the same description of the result.
 */
module SerialComponents {
  import opened Basics
  import opened Graphs
  import opened Forest

  /** One of u, v is in the tree of a and the other in the tree of b. */
  ghost predicate Tied(comp: seq<nat>, u: nat, v: nat, a: nat, b: nat) {
    (Joined(comp, u, a) && Joined(comp, v, b)) || (Joined(comp, u, b) && Joined(comp, v, a))
  }

  method Link(u: nat, v: nat, comp: array<nat>, ghost g: Graph)
    requires u < comp.Length && v < comp.Length
    requires WithinComponents(g, comp[..]) && g.Connected(u, v)
    modifies comp
    ensures WithinComponents(g, comp[..])
    ensures Coarsens(old(comp[..]), comp[..]) && Joined(comp[..], u, v)
  {
    ghost var s0 := comp[..];
    var p1: nat := comp[u];
    var p2: nat := comp[v];
    while p1 != p2
      invariant comp[..] == s0 && p1 < |s0| && p2 < |s0|
      invariant Tied(s0, u, v, p1, p2)
      decreases High(p1, p2)
    {
      var high, low := High(p1, p2), Low(p1, p2);
      var pHigh := comp[high];
      if pHigh == low || pHigh == high {
        LinkEnds(g, s0, u, v, high, low);
        if pHigh == high {
          comp[high] := low;
          assert comp[..] == s0[high := low];
        }
        return;
      }
      p1 := comp[comp[high]];
      p2 := comp[low];
      LinkRetries(s0, u, v, high, low);
    }
  }

  lemma LinkEnds(g: Graph, comp: seq<nat>, u: nat, v: nat, high: nat, low: nat)
    requires WithinComponents(g, comp) && g.Connected(u, v) && low < high < |comp| && Tied(comp, u, v, high, low)
    ensures comp[high] == low ==> Joined(comp, u, v)
    ensures comp[high] == high ==> WithinComponents(g, comp[high := low]) && Coarsens(comp, comp[high := low])
    ensures comp[high] == high ==> Joined(comp[high := low], u, v)
  {
    if comp[high] == high {
      HookWithin(g, comp, u, v, high, low);
      HookJoins(comp, high, low);
    }
  }

  lemma LinkRetries(comp: seq<nat>, u: nat, v: nat, high: nat, low: nat)
    requires IsForest(comp) && low < high < |comp| && comp[high] < high && Tied(comp, u, v, high, low)
    ensures Tied(comp, u, v, comp[comp[high]], comp[low]) && High(comp[comp[high]], comp[low]) < high
  {
    assert Joined(comp, high, comp[high]) && Joined(comp, comp[high], comp[comp[high]]);
    assert Joined(comp, low, comp[low]);
  }

  lemma HookWithin(g: Graph, comp: seq<nat>, u: nat, v: nat, high: nat, low: nat)
    requires WithinComponents(g, comp) && g.Connected(u, v)
    requires low < high < |comp| && comp[high] == high
    requires Tied(comp, u, v, high, low)
    ensures WithinComponents(g, comp[high := low])
  {
    JoinedConnected(g, comp, u, if Joined(comp, u, high) && Joined(comp, v, low) then high else low);
    JoinedConnected(g, comp, v, if Joined(comp, u, high) && Joined(comp, v, low) then low else high);
    var a, b := if Joined(comp, u, high) && Joined(comp, v, low) then high else low,
                if Joined(comp, u, high) && Joined(comp, v, low) then low else high;
    g.ConnectedSym(u, a);
    g.ConnectedTrans(a, u, v);
    g.ConnectedTrans(a, v, b);
    g.ConnectedSym(a, b);
  }

  /** Flattens every tree: each entry becomes the root it led to. */
  method Compress(comp: array<nat>)
    requires IsForest(comp[..])
    modifies comp
    ensures IsForest(comp[..])
    ensures forall x :: 0 <= x < comp.Length ==> comp[x] == Root(old(comp[..]), x)
  {
    ghost var s0 := comp[..];
    for n := 0 to comp.Length
      invariant IsForest(comp[..])
      invariant forall x :: 0 <= x < comp.Length ==> Root(comp[..], x) == Root(s0, x)
      invariant forall x :: 0 <= x < n ==> comp[x] == Root(s0, x)
    {
      while comp[n] != comp[comp[n]]
        invariant IsForest(comp[..])
        invariant forall x :: 0 <= x < comp.Length ==> Root(comp[..], x) == Root(s0, x)
        invariant forall x :: 0 <= x < n ==> comp[x] == Root(s0, x)
        decreases comp[n]
      {
        ghost var before := comp[..];
        comp[n] := comp[comp[n]];
        assert comp[..] == before[n := before[before[n]]];
        forall x | 0 <= x < comp.Length
          ensures Root(comp[..], x) == Root(before, x)
        {
          ShortcutRoot(before, n, before[before[n]], x);
        }
      }
    }
  }

  lemma Compressed(g: Graph, before: seq<nat>, after: seq<nat>)
    requires WithinComponents(g, before) && |after| == |before| && IsForest(after)
    requires forall x :: 0 <= x < |after| ==> after[x] == Root(before, x)
    ensures WithinComponents(g, after) && Stars(after) && Coarsens(before, after)
    ensures forall x :: 0 <= x < |after| ==> after[x] <= before[x]
  {
    forall x | 0 <= x < |after|
      ensures g.Connected(x, after[x]) && after[after[x]] == after[x] && Root(after, x) == after[x]
    {
      RootConnected(g, before, x);
    }
  }

  method InitLabels(n: nat) returns (comp: array<nat>)
    ensures fresh(comp) && comp.Length == n && forall x :: 0 <= x < n ==> comp[x] == x
  {
    comp := new nat[n](i => i);
  }

  lemma SingletonsWithin(g: Graph, comp: seq<nat>)
    requires |comp| == g.N() && forall x :: 0 <= x < |comp| ==> comp[x] == x
    ensures WithinComponents(g, comp) && Stars(comp)
  {
    forall x: nat | x < g.N()
      ensures g.Connected(x, x)
    {
      g.ConnectedRefl(x);
    }
  }

  /** Hooks the roots of the two ends of every edge; `s0` is the array at the round's start. */
  method HookAllEdges(g: Graph, comp: array<nat>) returns (change: bool)
    requires g.Valid() && WithinComponents(g, comp[..]) && Stars(comp[..])
    modifies comp
    ensures WithinComponents(g, comp[..])
    ensures change ==> Below(old(comp[..]), comp[..]) && Fell(old(comp[..]), comp[..])
    ensures !change ==> comp[..] == old(comp[..]) && AllEdgesJoined(g, comp[..])
  {
    ghost var s0 := comp[..];
    change := false;
    for u := 0 to g.N()
      invariant HookInv(g, s0, comp[..], change)
      invariant !change ==> EdgesSame(g, s0, u, 0)
    {
      for k := 0 to |g.out[u]|
        invariant HookInv(g, s0, comp[..], change)
        invariant !change ==> EdgesSame(g, s0, u, k)
      {
        var v := g.out[u][k];
        var compU := comp[u];
        var compV := comp[v];
        if compU != compV {
          var high, low := High(compU, compV), Low(compU, compV);
          if high == comp[high] {
            change := true;
            HookStep(g, s0, comp[..], u, v);
            ghost var before := comp[..];
            comp[high] := low;
            assert comp[..] == before[high := low];
          }
        }
      }
    }
    if !change {
      EqualLabelsJoin(g, s0);
    }
  }

  ghost predicate HookInv(g: Graph, s0: seq<nat>, comp: seq<nat>, change: bool) {
    && WithinComponents(g, comp) && Below(s0, comp)
    && (if change then Fell(s0, comp) else comp == s0)
  }

  /** Edges of the vertices before u, and the first k of u, have equal labels at both ends. */
  ghost predicate EdgesSame(g: Graph, s0: seq<nat>, u: nat, k: nat)
    requires g.Valid() && |s0| == g.N() && u <= g.N() && (u == g.N() ==> k == 0) && (u < g.N() ==> k <= |g.out[u]|)
  {
    && (forall x, j :: 0 <= x < u && 0 <= j < |g.out[x]| ==> s0[x] == s0[g.out[x][j]])
    && forall j :: 0 <= j < k ==> s0[u] == s0[g.out[u][j]]
  }

  lemma HookStep(g: Graph, s0: seq<nat>, comp: seq<nat>, u: nat, v: nat)
    requires g.Valid() && |s0| == g.N() && WithinComponents(g, comp) && Below(s0, comp) && IsForest(s0)
    requires u < g.N() && v < g.N() && v in g.out[u] && comp[u] != comp[v]
    requires comp[High(comp[u], comp[v])] == High(comp[u], comp[v])
    ensures HookInv(g, s0, comp[High(comp[u], comp[v]) := Low(comp[u], comp[v])], true)
  {
    var high, low := High(comp[u], comp[v]), Low(comp[u], comp[v]);
    assert Joined(comp, u, comp[u]) && Joined(comp, v, comp[v]);
    assert g.Adjacent(u, v);
    g.ConnectedEdge(u, v);
    HookWithin(g, comp, u, v, high, low);
    assert comp[high := low][high] < s0[high];
  }

  method ShiloachVishkin(g: Graph) returns (comp: array<nat>)
    requires g.Valid()
    ensures fresh(comp) && LabelsComponents(g, comp[..])
  {
    comp := InitLabels(g.N());
    SingletonsWithin(g, comp[..]);
    var change := true;
    while change
      invariant fresh(comp) && comp.Length == g.N()
      invariant WithinComponents(g, comp[..]) && Stars(comp[..])
      invariant !change ==> AllEdgesJoined(g, comp[..])
      decreases Sum(comp[..]), change
    {
      ghost var s0 := comp[..];
      change := HookAllEdges(g, comp);
      ghost var hooked := comp[..];
      Compress(comp);
      Compressed(g, hooked, comp[..]);
      SumBelow(s0, hooked);
      SumBelow(hooked, comp[..]);
      if !change {
        StarsFixed(hooked, comp[..]);
      }
    }
    StarsLabel(g, comp[..]);
  }
}
