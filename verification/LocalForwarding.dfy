/** Store-to-load forwarding: a load whose effect input is a store to its slot gives way to the value stored. */
module LocalForwarding {
  import opened SeaOfNodes
  import opened UsePool
  import opened Int64
  import opened Valuation
  import opened Rewrites
  import opened PassCore

  function EffectsOf(s: Sea, n: nat): seq<nat>
    requires s.HasSlice(n)
  {
    OfKind(s.Inputs(n), Effect)
  }

  /** A load compares the low 32 bits of its own payload with the whole payload of the store. */
  predicate SameSlot(load: Node, store: Node) {
    store.payload == load.payload % 0x1_0000_0000
  }

  /** Node n is a load, and the store that its first effect edge names put the value of node x into its slot. */
  predicate Sees(s: Sea, n: nat, x: nat)
    requires s.HasSlice(n)
  {
    && s.nodes[n].kind == LoadLocal && |EffectsOf(s, n)| > 0
    && var src := EffectsOf(s, n)[0];
    && s.HasSlice(src) && s.nodes[src].kind == StoreLocal && SameSlot(s.nodes[n], s.nodes[src])
    && |DataOf(s, src)| > 0 && x == DataOf(s, src)[0]
  }

  function ForwardPlan(s: Sea, n: nat): Plan
    requires s.HasSlice(n)
  {
    if s.Dead(n) || s.nodes[n].kind != LoadLocal || |EffectsOf(s, n)| == 0 then Keep
    else
      var src := EffectsOf(s, n)[0];
      if !s.HasSlice(src) || s.nodes[src].kind != StoreLocal || !SameSlot(s.nodes[n], s.nodes[src]) then Keep
      else if |DataOf(s, src)| == 0 then Keep
      else Rewrite([], DataOf(s, src)[0], 0)
  }

  lemma PlanSees(s: Sea, n: nat)
    requires s.HasSlice(n)
    ensures ForwardPlan(s, n).Keep? <==> s.Dead(n) || forall x: nat :: !Sees(s, n, x)
    ensures ForwardPlan(s, n).Rewrite? ==>
        ForwardPlan(s, n) == Rewrite([], ForwardPlan(s, n).to, 0)
        && Sees(s, n, ForwardPlan(s, n).to)
  {
    if ForwardPlan(s, n).Rewrite? { assert Sees(s, n, DataOf(s, EffectsOf(s, n)[0])[0]); }
  }

  // ----- what the pass needs and keeps -----

  /** Every edge leads to a node; loads come after their effects and stores after their data, and no store is
      itself stored. */
  ghost predicate Chained(s: Sea, rank: seq<nat>) {
    && s.WellFormed() && |rank| == |s.nodes|
    && (forall e {:trigger s.edges[e].target} :: 0 <= e < |s.edges| ==> s.edges[e].target < |s.nodes|)
    && (forall n {:trigger ChainedAt(s, rank, n)} :: 0 <= n < |s.nodes| ==> ChainedAt(s, rank, n))
  }

  ghost predicate ChainedAt(s: Sea, rank: seq<nat>, n: nat)
    requires n < |s.nodes| == |rank| && s.HasSlice(n)
  {
    && (s.nodes[n].kind == LoadLocal ==> Below(s, rank, EffectsOf(s, n), rank[n]))
    && (s.nodes[n].kind == StoreLocal ==>
          Below(s, rank, DataOf(s, n), rank[n])
          && forall i :: 0 <= i < |DataOf(s, n)| ==> s.nodes[DataOf(s, n)[i]].kind != StoreLocal)
  }

  ghost predicate Below(s: Sea, rank: seq<nat>, xs: seq<nat>, bound: nat) {
    forall i :: 0 <= i < |xs| ==> xs[i] < |s.nodes| && xs[i] < |rank| && rank[xs[i]] < bound
  }

  /** The valuations in which memory works: a load that sees a store has the value stored. */
  ghost predicate Remembers(s: Sea, v: seq<i64>)
    requires s.WellFormed()
  {
    |v| == |s.nodes| && forall n: nat, x: nat {:trigger Sees(s, n, x)} ::
        n < |s.nodes| && x < |v| && Sees(s, n, x) ==> v[n] == v[x]
  }

  lemma SeenFacts(s: Sea, rank: seq<nat>, n: nat, x: nat)
    requires Chained(s, rank) && n < |s.nodes| && Sees(s, n, x)
    ensures x < |s.nodes| && rank[x] < rank[n] && x != n && s.nodes[x].kind != StoreLocal
    ensures DeadUnused(s) ==> s.Live(x)
  {
    var src := EffectsOf(s, n)[0];
    assert ChainedAt(s, rank, n) && ChainedAt(s, rank, src);
    OfKindMembers(s.Inputs(src), Data, x);
    assert x in DataOf(s, src);
    var i :| 0 <= i < |s.Inputs(src)| && s.Inputs(src)[i] == Edge(x, Data);
    var e := s.nodes[src].firstInput + i;
    assert s.edges[e] == Edge(x, Data);
    assert DeadUnused(s) ==> !s.Dead(s.edges[e].target);
  }

  // ----- one forwarding -----

  lemma {:induction false} RedirectedTargets(es: seq<Edge>, a: nat, b: nat, kind: EdgeKind)
    ensures var xs, ys := OfKind(es, kind), OfKind(RedirectEdges(es, a, b), kind);
            |ys| == |xs| && forall i :: 0 <= i < |xs| ==> ys[i] == if xs[i] == a then b else xs[i]
  {
    if |es| > 0 {
      assert RedirectEdges(es, a, b)[1..] == RedirectEdges(es[1..], a, b);
      RedirectedTargets(es[1..], a, b, kind);
      var xs, ys := OfKind(es[1..], kind), OfKind(RedirectEdges(es[1..], a, b), kind);
      var first, moved := es[0].target, RedirectEdges(es, a, b)[0].target;
      if es[0].kind == kind {
        assert OfKind(es, kind) == [first] + xs && OfKind(RedirectEdges(es, a, b), kind) == [moved] + ys;
      } else {
        assert OfKind(es, kind) == xs && OfKind(RedirectEdges(es, a, b), kind) == ys;
      }
    }
  }

  lemma ForwardedLists(s: Sea, a: nat, b: nat, n: nat)
    requires s.WellFormed() && a < |s.nodes| && n < |s.nodes|
    ensures var t := Replaced(s, a, b);
      && t.HasSlice(n) && t.nodes[n].kind == s.nodes[n].kind && t.nodes[n].payload == s.nodes[n].payload
      && |EffectsOf(t, n)| == |EffectsOf(s, n)| && |DataOf(t, n)| == |DataOf(s, n)|
      && (forall i :: 0 <= i < |EffectsOf(s, n)| ==> EffectsOf(t, n)[i] == if EffectsOf(s, n)[i] == a then b
          else EffectsOf(s, n)[i])
      && (forall i :: 0 <= i < |DataOf(s, n)| ==> DataOf(t, n)[i] == if DataOf(s, n)[i] == a then b
          else DataOf(s, n)[i])
  {
    ReplacedInputs(s, a, b, n);
    RedirectedTargets(s.Inputs(n), a, b, Data);
    RedirectedTargets(s.Inputs(n), a, b, Effect);
  }

  /** After a load a gave way to b, what a load sees it saw before, up to that replacement. */
  lemma SeesBefore(s: Sea, rank: seq<nat>, a: nat, b: nat, n: nat, y: nat)
    requires Chained(s, rank) && a < |s.nodes| && b < |s.nodes| && n < |s.nodes|
    requires s.nodes[a].kind == LoadLocal && s.nodes[b].kind != StoreLocal
    requires Replaced(s, a, b).HasSlice(n) && Sees(Replaced(s, a, b), n, y)
    ensures exists x: nat :: Sees(s, n, x) && x < |s.nodes| && y == if x == a then b else x
  {
    var t := Replaced(s, a, b);
    ForwardedLists(s, a, b, n);
    var src := EffectsOf(s, n)[0];
    assert ChainedAt(s, rank, n);
    assert EffectsOf(t, n)[0] == if src == a then b else src;
    assert src != a;
    ForwardedLists(s, a, b, src);
    var x := DataOf(s, src)[0];
    assert Sees(s, n, x);
    SeenFacts(s, rank, n, x);
  }

  lemma ForwardedChained(s: Sea, rank: seq<nat>, a: nat, b: nat)
    requires Chained(s, rank) && a < |s.nodes| && b < |s.nodes| && rank[b] < rank[a]
    requires s.nodes[a].kind == LoadLocal && s.nodes[b].kind != StoreLocal
    ensures Chained(Replaced(s, a, b), rank)
  {
    var t := Replaced(s, a, b);
    forall e | 0 <= e < |t.edges| ensures t.edges[e].target < |t.nodes| { assert s.edges[e].target < |s.nodes|; }
    forall n | 0 <= n < |t.nodes| ensures t.HasSlice(n) && ChainedAt(t, rank, n) {
      assert ChainedAt(s, rank, n);
      ForwardedLists(s, a, b, n);
    }
  }

  /** Every valuation in which memory works is one of the new graph too, with the same values, and memory works in
      it still. */
  lemma ForwardKeepsValues(ext: Ext, s: Sea, rank: seq<nat>, a: nat, v: seq<i64>)
    requires Chained(s, rank) && DataWired(s) && a < |s.nodes| && Models(ext, s, v) && Remembers(s, v)
        && ForwardPlan(s, a).Rewrite?
    ensures var t := Replaced(s, a, ForwardPlan(s, a).to); DataWired(t) && Models(ext, t, v) && Remembers(t, v)
  {
    PlanSees(s, a);
    var b := ForwardPlan(s, a).to;
    var t := Replaced(s, a, b);
    SeenFacts(s, rank, a, b);
    ReplaceWired(s, a, b);
    ReplaceModel(ext, s, a, b, v);
    forall n: nat, y: nat | n < |t.nodes| && y < |v| && Sees(t, n, y) ensures v[n] == v[y] {
      SeesBefore(s, rank, a, b, n, y);
      var x: nat :| Sees(s, n, x) && x < |s.nodes| && y == if x == a then b else x;
    }
  }

  // ----- memory along the effect chain -----

  /** What a slot holds: the value it had at Start, or that of a node. */
  datatype Contents = Initial | Value(node: nat)

  /** Effect edges lead back, so that the chain can be walked. */
  ghost predicate Walkable(s: Sea, rank: seq<nat>) {
    && s.WellFormed() && |rank| == |s.nodes|
    && forall n {:trigger EffectsOf(s, n)} :: 0 <= n < |s.nodes| ==> Below(s, rank, EffectsOf(s, n), rank[n])
  }

  predicate PutsInto(s: Sea, n: nat, slot: int)
    requires s.HasSlice(n)
  {
    s.nodes[n].kind == StoreLocal && s.nodes[n].payload == slot && |DataOf(s, n)| > 0
  }

  /** What the slot holds before node n: the value of the nearest store to it on the chain. */
  ghost function Held(s: Sea, rank: seq<nat>, n: nat, slot: int): Contents
    requires Walkable(s, rank) && n < |s.nodes|
    decreases rank[n]
  {
    if |EffectsOf(s, n)| == 0 then Initial
    else
      var src := EffectsOf(s, n)[0];
      if PutsInto(s, src, slot) then Value(DataOf(s, src)[0]) else Held(s, rank, src, slot)
  }

  /** Every load has the value its slot holds. */
  ghost predicate MemoryWorks(s: Sea, rank: seq<nat>, v: seq<i64>)
    requires Walkable(s, rank)
  {
    |v| == |s.nodes| && forall n {:trigger LoadWorks(s, rank, v, n)} :: 0 <= n < |s.nodes| ==> LoadWorks(s, rank, v, n)
  }

  ghost predicate LoadWorks(s: Sea, rank: seq<nat>, v: seq<i64>, n: nat)
    requires Walkable(s, rank) && n < |s.nodes| == |v|
  {
    s.nodes[n].kind == LoadLocal ==>
      match Held(s, rank, n, s.nodes[n].payload % 0x1_0000_0000)
      case Initial => true
      case Value(x) => x < |v| ==> v[n] == v[x]
  }

  lemma WorksRemembers(s: Sea, rank: seq<nat>, v: seq<i64>)
    requires Walkable(s, rank) && MemoryWorks(s, rank, v)
    ensures Remembers(s, v)
  {
    forall n: nat, x: nat | n < |s.nodes| && x < |v| && Sees(s, n, x) ensures v[n] == v[x] {
      assert LoadWorks(s, rank, v, n);
    }
  }

  /** So wherever memory works along the effect chain, forwarding keeps the value of every node. */
  lemma ForwardKeepsMemory(ext: Ext, s: Sea, rank: seq<nat>, a: nat, v: seq<i64>)
    requires Chained(s, rank) && Walkable(s, rank) && DataWired(s) && a < |s.nodes| && ForwardPlan(s, a).Rewrite?
    requires Models(ext, s, v) && MemoryWorks(s, rank, v)
    ensures var t := Replaced(s, a, ForwardPlan(s, a).to); DataWired(t) && Models(ext, t, v) && Remembers(t, v)
  {
    WorksRemembers(s, rank, v);
    ForwardKeepsValues(ext, s, rank, a, v);
  }

  /** On the way back from n the chain comes to a before any store to the slot. */
  ghost predicate ComesTo(s: Sea, rank: seq<nat>, n: nat, a: nat, slot: int)
    requires Walkable(s, rank) && n < |s.nodes|
    decreases rank[n]
  {
    |EffectsOf(s, n)| > 0 &&
      var src := EffectsOf(s, n)[0];
      src == a || (!PutsInto(s, src, slot) && ComesTo(s, rank, src, a, slot))
  }

  function Renamed(c: Contents, a: nat, b: nat): Contents {
    if c == Value(a) then Value(b) else c
  }

  lemma ForwardedWalkable(s: Sea, rank: seq<nat>, a: nat, b: nat)
    requires Walkable(s, rank) && a < |s.nodes| && b < |s.nodes| && rank[b] < rank[a]
    ensures Walkable(Replaced(s, a, b), rank)
  {
    var t := Replaced(s, a, b);
    forall e | 0 <= e < |t.edges|
      ensures InGraph(t.edges[e].target, |t.nodes|)
    {
      assert InGraph(s.edges[e].target, |s.nodes|);
    }
    forall n | 0 <= n < |t.nodes| ensures t.HasSlice(n) && Below(t, rank, EffectsOf(t, n), rank[n]) {
      assert Below(s, rank, EffectsOf(s, n), rank[n]);
      ForwardedLists(s, a, b, n);
    }
  }

  /** The replaced load a was itself on the chain, and its user's effect edge now leads to the stored value b: what
      comes after a without a store to the slot in between sees the slot as it was before b. Everything else sees what
      it saw. */
  lemma {:induction false} ForwardedHeld(s: Sea, rank: seq<nat>, a: nat, b: nat, n: nat, slot: int)
    requires Walkable(s, rank) && a < |s.nodes| && b < |s.nodes| && rank[b] < rank[a] && n < |s.nodes|
    requires s.nodes[a].kind == LoadLocal && s.nodes[b].kind != StoreLocal
    ensures Walkable(Replaced(s, a, b), rank)
    ensures Held(Replaced(s, a, b), rank, n, slot) ==
      if ComesTo(s, rank, n, a, slot) then Held(Replaced(s, a, b), rank, b, slot)
          else Renamed(Held(s, rank, n, slot), a, b)
    decreases rank[n]
  {
    var t := Replaced(s, a, b);
    ForwardedWalkable(s, rank, a, b);
    ForwardedLists(s, a, b, n);
    if |EffectsOf(s, n)| > 0 {
      var src := EffectsOf(s, n)[0];
      assert Below(s, rank, EffectsOf(s, n), rank[n]);
      ForwardedLists(s, a, b, src);
      ForwardedHeld(s, rank, a, b, src, slot);
      if src == a { assert EffectsOf(t, n)[0] == b && !PutsInto(t, b, slot); }
    }
  }

  /** Before b the chain never comes to a, which ranks higher. */
  lemma {:induction false} NeverBack(s: Sea, rank: seq<nat>, n: nat, a: nat, slot: int)
    requires Walkable(s, rank) && n < |s.nodes| && a < |s.nodes| && rank[n] <= rank[a]
    ensures !ComesTo(s, rank, n, a, slot)
    decreases rank[n]
  {
    if |EffectsOf(s, n)| > 0 {
      assert Below(s, rank, EffectsOf(s, n), rank[n]);
      NeverBack(s, rank, EffectsOf(s, n)[0], a, slot);
    }
  }

  predicate Agrees(v: seq<i64>, n: nat, c: Contents)
    requires n < |v|
  {
    match c
    case Initial => true
    case Value(x) => x < |v| ==> v[n] == v[x]
  }

  function SlotRead(s: Sea, n: nat): int
    requires n < |s.nodes|
  {
    s.nodes[n].payload % 0x1_0000_0000
  }

  /** A load that reads across a agrees with what its slot held before b. */
  ghost predicate ReadsAcross(s: Sea, rank: seq<nat>, v: seq<i64>, a: nat, b: nat, n: nat)
    requires Walkable(s, rank) && n < |s.nodes| == |v| && b < |s.nodes|
  {
    s.nodes[n].kind == LoadLocal && ComesTo(s, rank, n, a, SlotRead(s, n)) ==>
      Agrees(v, n, Held(s, rank, b, SlotRead(s, n)))
  }

  lemma LoadAfter(s: Sea, rank: seq<nat>, v: seq<i64>, a: nat, b: nat, n: nat)
    requires Walkable(s, rank) && MemoryWorks(s, rank, v) && a < |s.nodes| && b < |s.nodes| && n < |s.nodes|
    requires rank[b] < rank[a] && s.nodes[a].kind == LoadLocal && s.nodes[b].kind != StoreLocal && v[a] == v[b]
    ensures Walkable(Replaced(s, a, b), rank)
    ensures LoadWorks(Replaced(s, a, b), rank, v, n) <==> ReadsAcross(s, rank, v, a, b, n)
  {
    var slot := SlotRead(s, n);
    assert LoadWorks(s, rank, v, n);
    ForwardedHeld(s, rank, a, b, n, slot);
    ForwardedHeld(s, rank, a, b, b, slot);
    NeverBack(s, rank, b, a, slot);
  }

  /** Memory still works after the replacement if and only if every load that reads across a has what its slot held
      before b: the stores in between are lost to it. */
  lemma ForwardedMemoryIff(s: Sea, rank: seq<nat>, v: seq<i64>, a: nat, b: nat)
    requires Walkable(s, rank) && MemoryWorks(s, rank, v) && a < |s.nodes| && b < |s.nodes|
    requires rank[b] < rank[a] && s.nodes[a].kind == LoadLocal && s.nodes[b].kind != StoreLocal && v[a] == v[b]
    ensures Walkable(Replaced(s, a, b), rank)
    ensures MemoryWorks(Replaced(s, a, b), rank, v) <==>
      forall n {:trigger ReadsAcross(s, rank, v, a, b, n)} :: 0 <= n < |s.nodes| ==> ReadsAcross(s, rank, v, a, b, n)
  {
    ForwardedWalkable(s, rank, a, b);
    forall n | 0 <= n < |s.nodes|
      ensures LoadWorks(Replaced(s, a, b), rank, v, n) <==> ReadsAcross(s, rank, v, a, b, n)
    {
      LoadAfter(s, rank, v, a, b, n);
    }
  }

  // ----- the scan -----

  /** Nothing is left to forward among the nodes before i. */
  ghost predicate SettledBefore(s: Sea, i: nat)
    requires s.WellFormed()
  {
    forall n: nat {:trigger ForwardPlan(s, n)} :: 0 < n < i && n < |s.nodes| ==> ForwardPlan(s, n).Keep?
  }

  lemma ForwardSettles(s: Sea, rank: seq<nat>, i: nat)
    requires Chained(s, rank) && 0 < i < |s.nodes| && SettledBefore(s, i)
    requires ForwardPlan(s, i).Rewrite? ==> Replaced(s, i, ForwardPlan(s, i).to).WellFormed()
    ensures var plan := ForwardPlan(s, i);
      if plan.Rewrite? then SettledBefore(Replaced(s, i, plan.to), i + 1) else SettledBefore(s, i + 1)
  {
    PlanSees(s, i);
    if ForwardPlan(s, i).Rewrite? {
      var b := ForwardPlan(s, i).to;
      var t := Replaced(s, i, b);
      SeenFacts(s, rank, i, b);
      forall n: nat | 0 < n < i ensures ForwardPlan(t, n).Keep? {
        PlanSees(s, n);
        PlanSees(t, n);
        if ForwardPlan(t, n).Rewrite? { SeesBefore(s, rank, i, b, n, ForwardPlan(t, n).to); }
      }
    }
  }

  /** What forwarding guarantees between the graph s0 it started from and s. */
  ghost predicate Forwards(ext: Ext, s0: Sea, s: Sea, rank: seq<nat>) {
    && Chained(s0, rank) && Chained(s, rank) && DataWired(s0) && DataWired(s) && |s.nodes| == |s0.nodes|
        && |s.edges| == |s0.edges|
    && (DeadUnused(s0) ==> DeadUnused(s))
    && forall v {:trigger Models(ext, s0, v)} :: Models(ext, s0, v) && Remembers(s0, v) ==>
        Models(ext, s, v) && Remembers(s, v)
  }

  lemma ForwardStep(ext: Ext, s0: Sea, s: Sea, rank: seq<nat>, i: nat)
    requires Forwards(ext, s0, s, rank) && 0 < i < |s.nodes| && SettledBefore(s, i)
    ensures var plan := ForwardPlan(s, i);
      && Forwards(ext, s0, Applied(s, i, plan), rank) && SettledBefore(Applied(s, i, plan), i + 1)
      && (plan.Rewrite? ==> plan.extra == [] && plan.to < |s.nodes| && plan.to != i)
  {
    PlanSees(s, i);
    var plan := ForwardPlan(s, i);
    if plan.Rewrite? {
      var t := Replaced(s, i, plan.to);
      SeenFacts(s, rank, i, plan.to);
      ForwardedChained(s, rank, i, plan.to);
      ReplaceWired(s, i, plan.to);
      if DeadUnused(s) { ReplaceDeadUnused(s, i, plan.to); }
      forall v | Models(ext, s0, v) && Remembers(s0, v) ensures Models(ext, t, v) && Remembers(t, v) {
        ForwardKeepsValues(ext, s, rank, i, v);
      }
      assert Applied(s, i, plan) == t;
    }
    ForwardSettles(s, rank, i);
  }
}
