/** The lowerer from register IR to the Sea-of-Nodes graph. */
module SonLowering {
  import opened SeaOfNodes
  import opened UsePool
  import opened UseLists
  import opened Rewrites
  import opened PassCore
  import opened GraphBuilding
  import opened StraightLine
  import opened GraphLowering
  import T = Tier1

  class Tier1ToSoN {
    const g: Graph
    var nodeOf: map<nat, nat>
    var effect: nat

    constructor ()
      ensures fresh(g) && g.Valid() && Now() == Started() && |g.uses| == 0
    {
      g := new Graph();
      nodeOf := map[];
      new;
      assert g.View().nodes == [Node(Start, {}, Top, 0, 0, 0)];
      effect := g.AddNode(Start, {IsControl, NoDeopt}, Bottom, 0, []);
      g.SetStart(effect);
    }

    ghost function Now(): Build
      reads this, g
    {
      Build(g.View(), nodeOf, effect)
    }

    /** Room for a few more nodes and uses. */
    predicate Fits(nodes: nat, uses: nat)
      reads this, g
    {
      |g.nodes| + nodes < NO_NODE && |g.uses| + uses < NIL
    }

    /** The node of a register; an undefined one gets a fresh zero. */
    method LookupVreg(v: nat) returns (n: nat)
      requires g.Valid() && Fits(1, 0)
      modifies this`nodeOf, g
      ensures g.Valid() && Now() == Looked(old(Now()), v) && n == Looked(old(Now()), v).nodeOf[v]
      ensures |g.uses| <= old(|g.uses|)
    {
      if v in nodeOf { return nodeOf[v]; }
      n := g.AddNode(ConstInt, {Pure, GVNable}, TInt, 0, []);
      nodeOf := nodeOf[v := n];
    }

    method SetResult(dst: nat, f: NewNode)
      requires g.Valid() && Fits(1, |f.inputs|)
      requires forall j :: 0 <= j < |f.inputs| ==> InGraph(f.inputs[j].target, |g.nodes| + 1)
      modifies this`nodeOf, g
      ensures g.Valid() && Now() == Put(old(Now()), dst, f) && |g.uses| <= old(|g.uses|) + |f.inputs|
    {
      var n := g.AddNode(f.kind, f.flags, f.ty, f.payload, f.inputs);
      nodeOf := nodeOf[dst := n];
    }

    method LowerLoad(dst: nat, slot: int)
      requires g.Valid() && Fits(1, 2) && g.start < |g.nodes| && effect < |g.nodes|
      modifies this`nodeOf, this`effect, g
      ensures g.Valid() && Now() == Loaded(old(Now()), dst, slot) && |g.uses| <= old(|g.uses|) + 2
    {
      effect := g.AddNode(LoadLocal, {IsEffect, NoDeopt}, TInt, slot, [Edge(g.start, Control), Edge(effect, Effect)]);
      nodeOf := nodeOf[dst := effect];
    }

    method LowerUnary(i: T.Inst)
      requires g.Valid() && Fits(3, 2) && Building(Now()) && i.op in {T.Neg, T.Not}
      modifies this`nodeOf, g
      ensures g.Valid() && Now() == Lowered(old(Now()), i) && |g.uses| <= old(|g.uses|) + 2
    {
      ghost var b := Now();
      LookedBuilds(b, i.src1);
      var a := LookupVreg(i.src1);
      var f := NodeFor(i, [Edge(a, Data)]);
      assert f == UnaryNode(Looked(b, i.src1), i);
      SetResult(i.dst, f);
      LoweredUnary(b, i);
    }

    method LookupBoth(i: T.Inst) returns (x: nat, y: nat)
      requires g.Valid() && Fits(2, 0)
      modifies this`nodeOf, g
      ensures g.Valid() && Now() == LookedBoth(old(Now()), i) && |g.uses| <= old(|g.uses|)
      ensures x == LookedBoth(old(Now()), i).nodeOf[i.src1] && y == LookedBoth(old(Now()), i).nodeOf[i.src2]
    {
      x := LookupVreg(i.src1);
      y := LookupVreg(i.src2);
    }

    method LowerBinary(i: T.Inst)
      requires g.Valid() && Fits(3, 2) && Building(Now()) && i.op in BINARIES
      modifies this`nodeOf, g
      ensures g.Valid() && Now() == Lowered(old(Now()), i) && |g.uses| <= old(|g.uses|) + 2
    {
      ghost var b := Now();
      LookedBothBuilds(b, i);
      var x, y := LookupBoth(i);
      var f := NodeFor(i, [Edge(x, Data), Edge(y, Data)]);
      assert f == BinaryNode(LookedBoth(b, i), i);
      SetResult(i.dst, f);
      LoweredBinary(b, i);
    }

    method LowerInst(i: T.Inst)
      requires g.Valid() && Fits(3, 2) && Building(Now()) && i.op in BODY
      modifies this`nodeOf, this`effect, g
      ensures g.Valid() && Now() == Lowered(old(Now()), i) && |g.uses| <= old(|g.uses|) + 2
    {
      if i.op == T.LoadConst || i.op == T.LoadConstImm {
        SetResult(i.dst, NodeFor(i, []));
      } else if i.op == T.LoadLocal {
        LowerLoad(i.dst, i.payload);
      } else if i.op == T.Mov {
        var a := LookupVreg(i.src1);
        nodeOf := nodeOf[i.dst := a];
      } else if i.op == T.Neg || i.op == T.Not {
        LowerUnary(i);
      } else {
        LowerBinary(i);
      }
    }

    method LowerBody(f: T.Function) returns (ghost trace: seq<Build>)
      requires IsStraightLine(f) && Room(f) && g.Valid() && Now() == Started() && |g.uses| == 0
      modifies this`nodeOf, this`effect, g
      ensures g.Valid() && IsBody(f, trace) && |trace| == |f.insts| && Now() == trace[|trace| - 1]
      ensures |g.uses| <= 2 * (|f.insts| - 1) && Built(Now(), |f.insts| - 1)
    {
      trace := [Now()];
      for k := 0 to |f.insts| - 1
        invariant g.Valid() && IsBody(f, trace) && |trace| == k + 1 && Now() == trace[k] && |g.uses| <= 2 * k
      {
        BodyBuilds(f, trace, k);
        LowerInst(f.insts[k]);
        BodyGrows(f, trace, Now());
        trace := trace + [Now()];
      }
      BodyBuilds(f, trace, |f.insts| - 1);
    }

    /** Returns register v: its node becomes the input of Stop. */
    method LowerReturn(v: nat)
      requires g.Valid() && Fits(2, 3) && Building(Now())
      modifies this`nodeOf, g
      ensures g.Valid() && g.View() == Ended(old(Now()), v) && |g.uses| <= old(|g.uses|) + 3
    {
      LookedBuilds(Now(), v);
      var n := LookupVreg(v);
      var stop := g.AddNode(Stop, {IsControl, NoDeopt}, Bottom, 0,
          [Edge(n, Data), Edge(g.start, Control), Edge(effect, Effect)]);
      g.SetStop(stop);
    }
  }

  /** Lowers a straight-line function to its graph. */
  method LowerToGraph(f: T.Function) returns (g: Graph)
    requires IsStraightLine(f) && Room(f)
    ensures fresh(g) && g.Valid() && IsGraphOf(f, g.View()) && |g.uses| <= 2 * |f.insts| + 1
  {
    var lowerer := new Tier1ToSoN();
    ghost var trace := lowerer.LowerBody(f);
    lowerer.LowerReturn(f.insts[|f.insts| - 1].src1);
    g := lowerer.g;
    assert IsWhole(f, trace, g.View());
  }
}
