/** A load that forwarding moves: after the load before it has given way, it reads what its slot held earlier. */
module ForwardCounterexample {
  import opened SeaOfNodes
  import opened Int64
  import opened Valuation
  import opened Rewrites
  import opened PassCore
  import opened LocalForwarding

  /** local0 := 5; x := local1; local0 := x; read local0 twice. */
  predicate TwiceRead(s: Sea) {
    && |s.nodes| == 7 && s.start == 0
    && s.edges == [Edge(0, Effect), Edge(1, Data), Edge(2, Effect), Edge(3, Effect), Edge(3, Data), Edge(4, Effect),
                   Edge(5, Effect)]
    && s.nodes[0] == Node(Start, {}, Top, 0, 0, 0) && s.nodes[1] == Node(ConstInt, {Pure}, TInt, 5, 0, 0)
    && s.nodes[2] == Node(StoreLocal, {IsEffect}, Bottom, 0, 0, 2)
    && s.nodes[3] == Node(LoadLocal, {IsEffect}, TInt, 1, 2, 1)
    && s.nodes[4] == Node(StoreLocal, {IsEffect}, Bottom, 0, 3, 2)
    && s.nodes[5] == Node(LoadLocal, {IsEffect}, TInt, 0, 5, 1)
    && s.nodes[6] == Node(LoadLocal, {IsEffect}, TInt, 0, 6, 1)
  }

  lemma TwiceInputs(s: Sea)
    requires TwiceRead(s)
    ensures DataWired(s) && EffectsOf(s, 0) == EffectsOf(s, 1) == [] && EffectsOf(s, 2) == [0]
    ensures EffectsOf(s, 3) == [2] && EffectsOf(s, 4) == [3] && EffectsOf(s, 5) == [4] && EffectsOf(s, 6) == [5]
    ensures DataOf(s, 2) == [1] && DataOf(s, 4) == [3]
  {
    assert s.Inputs(0) == s.Inputs(1) == [] && s.Inputs(2) == [Edge(0, Effect), Edge(1, Data)];
    assert s.Inputs(3) == [Edge(2, Effect)] && s.Inputs(4) == [Edge(3, Effect), Edge(3, Data)];
    assert s.Inputs(5) == [Edge(4, Effect)] && s.Inputs(6) == [Edge(5, Effect)];
    OneEffect(2);
    OneEffect(4);
    OneEffect(5);
    EffectThenData(0, 1);
    EffectThenData(3, 3);
  }

  lemma OneEffect(x: nat)
    ensures OfKind([Edge(x, Effect)], Effect) == [x] && OfKind([Edge(x, Effect)], Data) == []
  {
    assert [Edge(x, Effect)][1..] == [];
  }

  lemma OneData(x: nat)
    ensures OfKind([Edge(x, Data)], Effect) == [] && OfKind([Edge(x, Data)], Data) == [x]
  {
    assert [Edge(x, Data)][1..] == [];
  }

  lemma EffectThenData(x: nat, y: nat)
    ensures OfKind([Edge(x, Effect), Edge(y, Data)], Effect) == [x]
    ensures OfKind([Edge(x, Effect), Edge(y, Data)], Data) == [y]
  {
    assert [Edge(x, Effect), Edge(y, Data)][1..] == [Edge(y, Data)];
    OneData(y);
  }

  lemma TwiceWalkable(s: Sea, rank: seq<nat>)
    requires TwiceRead(s) && rank == [0, 1, 2, 3, 4, 5, 6]
    ensures Walkable(s, rank)
  {
    TwiceInputs(s);
    forall n | 0 <= n < |s.nodes| ensures Below(s, rank, EffectsOf(s, n), rank[n]) {}
  }

  /** One step back on the chain. */
  lemma StepBack(s: Sea, rank: seq<nat>, n: nat, src: nat, slot: int, a: nat)
    requires Walkable(s, rank) && n < |s.nodes| && EffectsOf(s, n) == [src]
    ensures src < |s.nodes| && s.HasSlice(src)
    ensures PutsInto(s, src, slot) ==> Held(s, rank, n, slot) == Value(DataOf(s, src)[0])
    ensures !PutsInto(s, src, slot) ==> Held(s, rank, n, slot) == Held(s, rank, src, slot)
    ensures src == a ==> ComesTo(s, rank, n, a, slot)
  {
    assert Below(s, rank, EffectsOf(s, n), rank[n]) && EffectsOf(s, n)[0] == src;
  }

  lemma TwiceHeld(s: Sea, rank: seq<nat>)
    requires TwiceRead(s) && rank == [0, 1, 2, 3, 4, 5, 6] && Walkable(s, rank)
    ensures Held(s, rank, 3, 1) == Initial && Held(s, rank, 3, 0) == Value(1)
    ensures Held(s, rank, 5, 0) == Value(3) && Held(s, rank, 6, 0) == Value(3) && ComesTo(s, rank, 6, 5, 0)
  {
    TwiceInputs(s);
    StepBack(s, rank, 2, 0, 1, 5);
    StepBack(s, rank, 3, 2, 1, 5);
    StepBack(s, rank, 3, 2, 0, 5);
    StepBack(s, rank, 5, 4, 0, 5);
    StepBack(s, rank, 6, 5, 0, 5);
  }

  lemma TwicePlan(s: Sea)
    requires TwiceRead(s)
    ensures s.HasSlice(5) && ForwardPlan(s, 5) == Rewrite([], 3, 0)
  {
    TwiceInputs(s);
  }

  lemma TwiceModels(ext: Ext, s: Sea, v: seq<i64>)
    requires TwiceRead(s) && |v| == 7 && v[1] == 5
    ensures DataWired(s) && Models(ext, s, v)
  {
    TwiceInputs(s);
    assert Wrap(5) == 5;
    forall n | 0 <= n < 7 ensures ValueOk(ext, s, v, n) {
      if n == 1 { assert s.Inputs(1) == []; }
    }
  }

  lemma TwiceWorks(s: Sea, rank: seq<nat>, v: seq<i64>)
    requires TwiceRead(s) && rank == [0, 1, 2, 3, 4, 5, 6] && Walkable(s, rank)
    requires |v| == 7 && v[1] == 5 && v[3] == v[5] == v[6]
    ensures MemoryWorks(s, rank, v)
  {
    TwiceHeld(s, rank);
    forall n | 0 <= n < |s.nodes| ensures LoadWorks(s, rank, v, n) {
      assert s.nodes[n].kind == LoadLocal ==> n in {3, 5, 6};
    }
  }

  lemma TwiceCrosses(s: Sea, rank: seq<nat>, v: seq<i64>)
    requires TwiceRead(s) && rank == [0, 1, 2, 3, 4, 5, 6] && Walkable(s, rank)
    requires |v| == 7 && v[1] == 5 && v[6] != 5
    ensures !ReadsAcross(s, rank, v, 5, 3, 6)
  {
    TwiceHeld(s, rank);
    assert SlotRead(s, 6) == 0;
  }

  /** Both reads give x. Once the first has given way to x, the second hangs on the load of local1, before which the
      slot held 5: whenever x is something else, memory does not work any more. */
  lemma SecondReadMoved(ext: Ext, s: Sea, rank: seq<nat>, v: seq<i64>)
    requires TwiceRead(s) && rank == [0, 1, 2, 3, 4, 5, 6]
    requires |v| == 7 && v[1] == 5 && v[3] == v[5] == v[6] && v[3] != 5
    ensures s.HasSlice(5) && ForwardPlan(s, 5) == Rewrite([], 3, 0)
    ensures DataWired(s) && Models(ext, s, v) && Walkable(s, rank) && MemoryWorks(s, rank, v)
    ensures Walkable(Replaced(s, 5, 3), rank) && !MemoryWorks(Replaced(s, 5, 3), rank, v)
  {
    TwicePlan(s);
    TwiceModels(ext, s, v);
    TwiceWalkable(s, rank);
    TwiceWorks(s, rank, v);
    TwiceCrosses(s, rank, v);
    ForwardedMemoryIff(s, rank, v, 5, 3);
  }
}
