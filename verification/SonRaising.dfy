/** From the optimized straight-line graph back to register IR: pure nodes are emitted round by round, each once its
    operands are, until a round emits nothing; then Start's block, with the loads; then what depends on them. */
module SonRaising {
  import opened SeaOfNodes
  import opened UsePool
  import opened UseLists
  import opened Int64
  import opened Valuation
  import opened Rewrites
  import opened PassCore
  import opened GraphBuilding
  import opened StraightLine
  import opened Emission
  import opened LateEmission
  import opened Ascending
  import T = Tier1
  import GraphLowering

  // ----- which nodes the rounds emit -----

  predicate HasControl(inputs: seq<Edge>) {
    exists i :: 0 <= i < |inputs| && inputs[i].kind == Control
  }

  /** Pure nodes that hang on no block. */
  predicate Floating(s: Sea, n: nat)
    requires s.HasSlice(n)
  {
    IsPure(s, n) && !HasControl(s.Inputs(n))
  }

  predicate AllReady(inputs: seq<Edge>, vregOf: map<nat, nat>) {
    forall i :: 0 <= i < |inputs| && inputs[i].kind == Data && inputs[i].target != NO_NODE ==>
        inputs[i].target in vregOf
  }

  lemma TameFloats(s: Sea, n: nat)
    requires DataWired(s) && Tame(s) && 0 < n < |s.nodes|
    ensures Floating(s, n) <==> s.Live(n) && IsValueKind(s.nodes[n].kind)
  {
    assert TameAt(s, n);
  }

  lemma TamePure(s: Sea, n: nat)
    requires DataWired(s) && Tame(s) && n < |s.nodes|
    ensures IsPure(s, n) <==> s.Live(n) && IsValueKind(s.nodes[n].kind)
  {
    assert TameAt(s, n);
  }

  /** No floating node below i is ready and not emitted. */
  ghost predicate NoneReady(s: Sea, vregOf: map<nat, nat>, i: nat) {
    forall m: nat {:trigger Waiting(s, vregOf, m)} :: 0 < m < i && s.HasSlice(m) && Waiting(s, vregOf, m) ==>
      !AllReady(s.Inputs(m), vregOf)
  }

  predicate Waiting(s: Sea, vregOf: map<nat, nat>, m: nat)
    requires s.HasSlice(m)
  {
    Floating(s, m) && m !in vregOf
  }

  lemma NoneReadyNext(s: Sea, vregOf: map<nat, nat>, i: nat)
    requires NoneReady(s, vregOf, i) && s.HasSlice(i)
    requires i in vregOf || !Floating(s, i) || !AllReady(s.Inputs(i), vregOf)
    ensures NoneReady(s, vregOf, i + 1)
  {
  }

  /** What the rounds leave: nothing is ready and not emitted, and only floating nodes were emitted, with their
      operands. */
  ghost predicate Floated(s: Sea, vregOf: map<nat, nat>) {
    NoneReady(s, vregOf, |s.nodes|) && OnlyReady(s, vregOf)
  }

  ghost predicate OnlyReady(s: Sea, vregOf: map<nat, nat>) {
    forall n {:trigger n in vregOf} :: n in vregOf ==> s.HasSlice(n) && Floating(s, n) && AllReady(s.Inputs(n), vregOf)
  }

  lemma OnlyReadyMore(s: Sea, vregOf: map<nat, nat>, n: nat, r: nat)
    requires OnlyReady(s, vregOf) && s.HasSlice(n) && Floating(s, n) && AllReady(s.Inputs(n), vregOf)
    ensures OnlyReady(s, vregOf[n := r])
  {
  }

  /** A ready node can be emitted. */
  lemma ReadyOperands(s: Sea, n: nat, st: Raised)
    requires PureComputes(s) && |s.nodes| < NO_NODE && 0 < n < |s.nodes| && Floating(s, n)
        && AllReady(s.Inputs(n), st.vregOf)
    ensures ComputesAt(s, n) && CanEmit(s, st, n)
  {
    assert IsPure(s, n);
    OperandsInGraph(s, n);
    forall j | 0 <= j < |DataOf(s, n)| ensures DataOf(s, n)[j] in st.vregOf {
      OfKindMembers(s.Inputs(n), Data, DataOf(s, n)[j]);
    }
  }

  // ----- what depends on a load -----

  /** Node n is a load, or computes from one. */
  ghost predicate OnLoad(s: Sea, rank: seq<nat>, n: nat)
    requires DataWired(s) && Ranked(s, rank) && n < |s.nodes|
    decreases rank[n]
  {
    IsLoad(s, n) || (IsValueKind(s.nodes[n].kind) && assert Above(s.Inputs(n), rank, rank[n]);
      exists i :: 0 <= i < |s.Inputs(n)| && s.Inputs(n)[i].kind == Data && OnLoad(s, rank, s.Inputs(n)[i].target))
  }

  lemma OperandOnLoad(s: Sea, rank: seq<nat>, n: nat, d: nat)
    requires DataWired(s) && Ranked(s, rank) && n < |s.nodes| && IsValueKind(s.nodes[n].kind) && d in DataOf(s, n)
    ensures d < |s.nodes| && (OnLoad(s, rank, d) ==> OnLoad(s, rank, n))
  {
    OperandsInGraph(s, n);
    OfKindMembers(s.Inputs(n), Data, d);
    assert Above(s.Inputs(n), rank, rank[n]);
  }

  /** The rounds emit nothing that depends on a load, which is not pure. */
  lemma {:induction false} FloatsOffLoad(s: Sea, rank: seq<nat>, vregOf: map<nat, nat>, n: nat)
    requires Sane(s, rank) && Tame(s) && |s.nodes| < NO_NODE && OnlyReady(s, vregOf) && n in vregOf
    ensures n < |s.nodes| && Usable(s, n) && !OnLoad(s, rank, n)
    decreases if n < |rank| then rank[n] else 0
  {
    assert s.HasSlice(n) && Floating(s, n) && AllReady(s.Inputs(n), vregOf);
    TameFloats(s, n);
    assert Above(s.Inputs(n), rank, rank[n]);
    forall i | 0 <= i < |s.Inputs(n)| && s.Inputs(n)[i].kind == Data ensures !OnLoad(s, rank, s.Inputs(n)[i].target) {
      InputsWired(s, n);
      FloatsOffLoad(s, rank, vregOf, s.Inputs(n)[i].target);
    }
  }

  /** A round without emission leaves nothing else behind: the least-ranked node left would have been ready. */
  lemma {:induction false} NoneLeft(s: Sea, rank: seq<nat>, vregOf: map<nat, nat>, n: nat)
    requires Sane(s, rank) && Tame(s) && n < |s.nodes| && Usable(s, n) && !OnLoad(s, rank, n)
    requires NoneReady(s, vregOf, |s.nodes|)
    ensures n in vregOf
    decreases rank[n]
  {
    assert TameAt(s, 0);
    if n !in vregOf {
      TameFloats(s, n);
      assert Waiting(s, vregOf, n);
      assert TameAt(s, n) && Above(s.Inputs(n), rank, rank[n]) && InputsAlive(s, n);
      forall i | 0 <= i < |s.Inputs(n)| && s.Inputs(n)[i].kind == Data ensures s.Inputs(n)[i].target in vregOf {
        NoneLeft(s, rank, vregOf, s.Inputs(n)[i].target);
      }
    }
  }

  /** So the rounds emit exactly what does not depend on a load. */
  lemma FloatedIff(s: Sea, rank: seq<nat>, vregOf: map<nat, nat>, n: nat)
    requires Sane(s, rank) && Tame(s) && |s.nodes| < NO_NODE && Floated(s, vregOf)
    ensures n in vregOf <==> Usable(s, n) && !OnLoad(s, rank, n)
  {
    if n in vregOf { FloatsOffLoad(s, rank, vregOf, n); }
    if Usable(s, n) && !OnLoad(s, rank, n) { NoneLeft(s, rank, vregOf, n); }
  }

  // ----- the order of the last phase -----

  /** What depends on a load comes after those of its operands that do. */
  ghost predicate InIdOrder(s: Sea, rank: seq<nat>)
    requires DataWired(s) && Ranked(s, rank)
  {
    forall n {:trigger IdOrderAt(s, rank, n)} :: 0 <= n < |s.nodes| && IsPure(s, n) && OnLoad(s, rank, n) ==>
        IdOrderAt(s, rank, n)
  }

  /** Which nodes depend on a load has nothing to do with the ranks. */
  lemma {:induction false} SameOnLoad(s: Sea, r1: seq<nat>, r2: seq<nat>, n: nat)
    requires DataWired(s) && Ranked(s, r1) && Ranked(s, r2) && n < |s.nodes|
    ensures OnLoad(s, r1, n) == OnLoad(s, r2, n)
    decreases r1[n]
  {
    if IsValueKind(s.nodes[n].kind) {
      assert Above(s.Inputs(n), r1, r1[n]) && Above(s.Inputs(n), r2, r2[n]);
      forall i | 0 <= i < |s.Inputs(n)| && s.Inputs(n)[i].kind == Data
        ensures OnLoad(s, r1, s.Inputs(n)[i].target) == OnLoad(s, r2, s.Inputs(n)[i].target)
      {
        SameOnLoad(s, r1, r2, s.Inputs(n)[i].target);
      }
    }
  }

  lemma SameIdOrder(s: Sea, r1: seq<nat>, r2: seq<nat>)
    requires DataWired(s) && Ranked(s, r1) && Ranked(s, r2) && InIdOrder(s, r1)
    ensures InIdOrder(s, r2)
  {
    forall n: nat | n < |s.nodes| ensures OnLoad(s, r1, n) == OnLoad(s, r2, n) { SameOnLoad(s, r1, r2, n); }
    forall n | 0 <= n < |s.nodes| && IsPure(s, n) && OnLoad(s, r2, n) ensures IdOrderAt(s, r2, n) {
      assert IdOrderAt(s, r1, n);
    }
  }

  ghost predicate IdOrderAt(s: Sea, rank: seq<nat>, n: nat)
    requires DataWired(s) && Ranked(s, rank) && n < |s.nodes|
  {
    forall d {:trigger d in DataOf(s, n)} :: d in DataOf(s, n) ==>
        d < n || IsLoad(s, d) || (d < |s.nodes| && !OnLoad(s, rank, d))
  }

  /** The registers before the last phase: of what does not depend on a load, and of the loads. */
  ghost predicate BlockDone(s: Sea, rank: seq<nat>, vregOf: map<nat, nat>)
    requires DataWired(s) && Ranked(s, rank)
  {
    forall n: nat {:trigger n in vregOf} ::
        n in vregOf <==> Usable(s, n) && (IsLoad(s, n) || !OnLoad(s, rank, n))
  }

  lemma TameDatum(s: Sea, rank: seq<nat>, n: nat, d: nat)
    requires Sane(s, rank) && Tame(s) && n < |s.nodes| && IsPure(s, n) && d in DataOf(s, n)
    ensures Usable(s, d) && d != n && IsValueKind(s.nodes[n].kind)
  {
    TamePure(s, n);
    var i :| 0 <= i < |DataOf(s, n)| && DataOf(s, n)[i] == d;
    OperandFacts(s, rank, n, i);
    TameOperand(s, n, i);
  }

  /** The last phase finds every operand if and only if the ids are in that order. */
  lemma InIdOrderIff(s: Sea, rank: seq<nat>, vregOf: map<nat, nat>)
    requires Sane(s, rank) && Tame(s) && BlockDone(s, rank, vregOf)
    ensures InIdOrder(s, rank) <==> LateInOrder(s, vregOf, |s.nodes|)
  {
    forall n | 0 <= n < |s.nodes| && IsPure(s, n) ensures IdOrderAt(s, rank, n) <==> OrderedAt(s, vregOf, n) {
      IdOrderAtIff(s, rank, vregOf, n);
    }
    forall n | 0 <= n < |s.nodes| && IsPure(s, n) ensures n in vregOf <==> !OnLoad(s, rank, n) {
      TamePure(s, n);
    }
  }

  lemma IdOrderAtIff(s: Sea, rank: seq<nat>, vregOf: map<nat, nat>, n: nat)
    requires Sane(s, rank) && Tame(s) && BlockDone(s, rank, vregOf) && n < |s.nodes| && IsPure(s, n)
    ensures IdOrderAt(s, rank, n) <==> OrderedAt(s, vregOf, n)
  {
    forall d | d in DataOf(s, n)
      ensures (d < n || IsLoad(s, d) || (d < |s.nodes| && !OnLoad(s, rank, d))) <==>
        (d in vregOf || (d < n && IsPure(s, d)))
    {
      TameDatum(s, rank, n, d);
      TamePure(s, d);
    }
    assert OrderedAt(s, vregOf, n) <==>
        forall d :: d in DataOf(s, n) ==>
          d in vregOf || (d < n && IsPure(s, d));
  }

  // ----- the raiser -----

  class SoNToTier1 {
    var code: seq<T.Inst>
    var vregs: nat
    var labels: nat
    var vregOf: map<nat, nat>

    constructor ()
      ensures Now() == NOTHING && labels == 0
    {
      code, vregs, labels, vregOf := [], 0, 0, map[];
    }

    ghost function Now(): Raised
      reads this
    {
      Raised(code, vregs, vregOf)
    }

    /** The register of a node, which holds a synthesized zero if the node has none. */
    method GetVreg(n: nat) returns (v: nat)
      modifies this`code, this`vregs, this`vregOf
      ensures Now() == WithVreg(old(Now()), n) && n in vregOf && v == vregOf[n]
    {
      if n !in vregOf {
        vregs := vregs + 1;
        code := code + [T.Inst(T.LoadConstImm, vregs, 0, 0, 0)];
        vregOf := vregOf[n := vregs];
      }
      v := vregOf[n];
    }

    /** The registers of at most two operands, 0 where there is none. */
    method GetOperands(data: seq<nat>) returns (a: nat, b: nat)
      requires |data| <= 2
      modifies this`code, this`vregs, this`vregOf
      ensures Now() == WithVregs(old(Now()), data) && a == SrcOf(data, vregOf, 0) && b == SrcOf(data, vregOf, 1)
    {
      WithVregsSteps(Now(), data);
      a, b := 0, 0;
      if |data| > 0 { a := GetVreg(data[0]); }
      if |data| == 2 { b := GetVreg(data[1]); }
    }

    method EmitInst(n: nat, kind: NodeKind, payload: int, data: seq<nat>, ghost s: Sea)
      requires s.HasSlice(n) && data == DataOf(s, n) && |data| <= 2
      requires kind == s.nodes[n].kind && payload == PayloadOf(s.nodes[n])
      modifies this`code, this`vregs, this`vregOf
      ensures Now() == Emit(s, old(Now()), n)
    {
      vregs := vregs + 1;
      var dst := vregs;
      var a, b := GetOperands(data);
      ghost var t := Now();
      InstParts(s, n, vregOf, dst, a, b);
      var inst := T.Inst(OpFor(kind), dst, a, b, payload);
      assert inst == InstFor(s, n, t.vregOf, dst);
      code := code + [inst];
      vregOf := vregOf[n := dst];
      assert Now() == Placed(t, n, inst);
    }

    /** The instruction for a computing node or a load. */
    method EmitDataNode(g: Graph, n: nat)
      requires g.Valid() && n < |g.nodes| && |DataOf(g.View(), n)| <= 2
      modifies this`code, this`vregs, this`vregOf
      ensures Now() == Emit(old(g.View()), old(Now()), n)
    {
      var data := g.InputsOfKind(n, Data);
      EmitInst(n, g.nodes[n].kind, PayloadOf(g.nodes[n]), data, g.View());
    }

    /** Right so far, in shape, and without anything that was not ready. */
    ghost predicate RoundsOk(ext: Ext, s: Sea)
      reads this
    {
      Right(ext, s, Now()) && Shapely(Now(), |s.nodes|, 0) && OnlyReady(s, vregOf)
    }

    /** Node i's turn in a round: emitted if it waits for nothing. */
    method EmitIfReady(g: Graph, i: nat, ghost ext: Ext) returns (emitted: bool)
      requires g.Valid() && PureComputes(g.View()) && OffItself(g.View()) && |g.nodes| < NO_NODE
      requires RoundsOk(ext, g.View()) && 0 < i < |g.nodes|
      modifies this`code, this`vregs, this`vregOf
      ensures RoundsOk(ext, g.View())
      ensures emitted ==> i !in old(vregOf) && i in vregOf && old(vregOf.Keys) <= vregOf.Keys
      ensures !emitted ==> vregOf == old(vregOf)
      ensures !emitted ==> i in vregOf || !Floating(g.View(), i) || !AllReady(g.View().Inputs(i), vregOf)
    {
      emitted := i !in vregOf && Floating(g.View(), i) && AllReady(g.View().Inputs(i), vregOf);
      if emitted {
        EmitsReady(ext, g.View(), i, Now());
        EmitDataNode(g, i);
      }
    }

    /** One round over the nodes; it reports whether it emitted anything. */
    method EmitRound(g: Graph, ghost ext: Ext) returns (changed: bool)
      requires g.Valid() && PureComputes(g.View()) && OffItself(g.View()) && |g.nodes| < NO_NODE
      requires RoundsOk(ext, g.View())
      modifies this`code, this`vregs, this`vregOf
      ensures RoundsOk(ext, g.View()) && old(vregOf.Keys) <= vregOf.Keys
      ensures changed ==> exists n :: n < |g.nodes| && n in vregOf && n !in old(vregOf)
      ensures !changed ==> vregOf == old(vregOf) && NoneReady(g.View(), vregOf, |g.nodes|)
    {
      changed := false;
      var i := 1;
      while i < |g.nodes|
        invariant RoundsOk(ext, g.View()) && 1 <= i <= |g.nodes| && old(vregOf.Keys) <= vregOf.Keys
        invariant changed ==> exists n :: n < |g.nodes| && n in vregOf && n !in old(vregOf)
        invariant !changed ==> vregOf == old(vregOf) && NoneReady(g.View(), vregOf, i)
      {
        var emitted := EmitIfReady(g, i, ext);
        if emitted { changed := true; }
        if !changed { NoneReadyNext(g.View(), vregOf, i); }
        i := i + 1;
      }
      assert i == |g.nodes|;
    }

    /** Phase 1b: rounds until nothing is left that could be emitted. */
    method EmitFloating(g: Graph, ghost ext: Ext)
      requires g.Valid() && PureComputes(g.View()) && OffItself(g.View()) && |g.nodes| < NO_NODE
      requires RoundsOk(ext, g.View())
      modifies this`code, this`vregs, this`vregOf
      ensures RoundsOk(ext, g.View()) && Floated(g.View(), vregOf)
    {
      var changed := true;
      while changed
        invariant RoundsOk(ext, g.View())
        invariant !changed ==> NoneReady(g.View(), vregOf, |g.nodes|)
        decreases Pending(|g.nodes|, vregOf), changed
      {
        ghost var before := vregOf;
        changed := EmitRound(g, ext);
        if changed {
          ghost var n :| n < |g.nodes| && n in vregOf && n !in before;
          assert n in Pending(|g.nodes|, before) && n !in Pending(|g.nodes|, vregOf);
        }
      }
    }

    /** Phase 2, Start's block: its label, and the loads by ascending id. */
    method EmitBlock(g: Graph, ghost ext: Ext, ghost rank: seq<nat>)
      requires g.Valid() && Sane(g.View(), rank) && Tame(g.View()) && |g.nodes| < NO_NODE
      requires RoundsOk(ext, g.View()) && Floated(g.View(), vregOf) && labels == 0
      modifies this
      ensures Right(ext, g.View(), Now()) && Shapely(Now(), |g.nodes|, 1) && BlockDone(g.View(), rank, vregOf)
    {
      ghost var s := g.View();
      NoLoadsYet(s, rank, vregOf);
      if IsDead in g.nodes[g.start].flags {
        StartDead(s, rank);
        LoadsDone(s, rank, vregOf, 1);
        return;
      }
      LabelRight(ext, s, Now(), labels);
      code := code + [T.Inst(T.Label, 0, 0, 0, labels)];
      labels := labels + 1;
      EmitLoads(g, ext, rank);
    }

    /** What hangs on Start, by ascending id. */
    method EmitLoads(g: Graph, ghost ext: Ext, ghost rank: seq<nat>)
      requires g.Valid() && Sane(g.View(), rank) && Tame(g.View())
      requires Right(ext, g.View(), Now()) && Shapely(Now(), |g.nodes|, 1) && LoadsBelow(g.View(), rank, vregOf, 1)
      modifies this`code, this`vregs, this`vregOf
      ensures Right(ext, g.View(), Now()) && Shapely(Now(), |g.nodes|, 1) && BlockDone(g.View(), rank, vregOf)
    {
      ghost var s := g.View();
      var i := 1;
      while i < |g.nodes|
        invariant 1 <= i <= |g.nodes| && Right(ext, s, Now()) && Shapely(Now(), |s.nodes|, 1)
        invariant LoadsBelow(s, rank, vregOf, i)
      {
        if BelongsTo(g.View(), i, g.start) {
          LoadBelongs(s, i);
          EmitsLoad(ext, s, rank, i, Now());
          EmitDataNode(g, i);
        } else {
          if IsLoad(s, i) { LoadHangs(s, rank, i); }
        }
        i := i + 1;
      }
      LoadsDone(s, rank, vregOf, i);
    }

    /** Phase 2c: pure nodes without a register, by ascending id. */
    method EmitLate(g: Graph)
      requires g.Valid() && PureComputes(g.View())
      modifies this`code, this`vregs, this`vregOf
      ensures Now() == EmitTo(old(g.View()), old(Now()), |g.nodes|)
    {
      var i := 0;
      ghost var s, st := g.View(), Now();
      while i < |g.nodes|
        invariant i <= |g.nodes| && g.View() == s && Now() == EmitTo(s, st, i)
      {
        if IsPure(g.View(), i) && i !in vregOf { EmitDataNode(g, i); }
        i := i + 1;
      }
      assert i == |g.nodes|;
    }

    /** Phase 3: the register of a node, returned. */
    method EmitReturn(n: nat) returns (f: T.Function)
      modifies this`code, this`vregs, this`vregOf
      ensures Now() == WithVreg(old(Now()), n) && f == Returning(Now(), n, labels)
    {
      var v := GetVreg(n);
      f := T.Function(code + [T.Inst(T.Return, 0, v, 0, 0)], vregs, labels);
    }
  }

  function Returning(st: Raised, n: nat, labels: nat): T.Function
    requires n in st.vregOf
  {
    T.Function(st.code + [T.Inst(T.Return, 0, st.vregOf[n], 0, 0)], st.vregs, labels)
  }

  ghost function Pending(size: nat, vregOf: map<nat, nat>): set<nat> {
    set n: nat | n < size && n !in vregOf
  }

  /** No pure node is its own operand. */
  ghost predicate OffItself(s: Sea)
    requires s.WellFormed()
  {
    forall n {:trigger IsPure(s, n)} :: 0 <= n < |s.nodes| && IsPure(s, n) ==> n !in DataOf(s, n)
  }

  lemma SaneOffItself(s: Sea, rank: seq<nat>)
    requires Sane(s, rank) && Tame(s)
    ensures OffItself(s)
  {
    forall n | 0 <= n < |s.nodes| && IsPure(s, n) ensures n !in DataOf(s, n) {
      if n in DataOf(s, n) { TameDatum(s, rank, n, n); }
    }
  }

  lemma EmitsReady(ext: Ext, s: Sea, n: nat, st: Raised)
    requires PureComputes(s) && OffItself(s) && |s.nodes| < NO_NODE && 0 < n < |s.nodes| && n !in st.vregOf
    requires Right(ext, s, st) && Shapely(st, |s.nodes|, 0) && OnlyReady(s, st.vregOf)
    requires Floating(s, n) && AllReady(s.Inputs(n), st.vregOf)
    ensures |DataOf(s, n)| <= 2 && Right(ext, s, Emit(s, st, n)) && Shapely(Emit(s, st, n), |s.nodes|, 0)
    ensures OnlyReady(s, Emit(s, st, n).vregOf) && Emit(s, st, n).vregOf == st.vregOf[n := st.vregs + 1]
  {
    assert IsPure(s, n);
    ReadyOperands(s, n, st);
    EmitRight(ext, s, st, n);
    EmitShapely(s, st, n, |s.nodes|, 0);
    EmitWhole(s, st, n);
    OnlyReadyMore(s, st.vregOf, n, st.vregs + 1);
  }

  // ----- Start's block -----

  /** The nodes whose control input is the block, but for headers and Stop. */
  predicate BelongsTo(s: Sea, n: nat, block: nat)
    requires s.HasSlice(n)
  {
    s.Live(n) && !IsBlockHeader(s.nodes[n].kind) && s.nodes[n].kind != Stop && Edge(block, Control) in s.Inputs(n)
  }

  /** In straight-line code those are the loads. */
  lemma LoadBelongs(s: Sea, n: nat)
    requires DataWired(s) && Tame(s) && n < |s.nodes| && BelongsTo(s, n, s.start)
    ensures IsLoad(s, n)
  {
    assert TameAt(s, n);
  }

  lemma LoadHangs(s: Sea, rank: seq<nat>, n: nat)
    requires Sane(s, rank) && Tame(s) && IsLoad(s, n)
    ensures BelongsTo(s, n, s.start) && !s.Dead(s.start)
  {
    assert TameAt(s, n) && InputsAlive(s, n);
    assert s.Inputs(n)[0] == Edge(s.start, Control);
  }

  /** The block of a dead Start is left out, but then there are no loads. */
  lemma StartDead(s: Sea, rank: seq<nat>)
    requires Sane(s, rank) && Tame(s) && s.Dead(s.start)
    ensures forall n: nat :: !IsLoad(s, n)
  {
    forall n: nat ensures !IsLoad(s, n) {
      if IsLoad(s, n) { LoadHangs(s, rank, n); }
    }
  }

  /** After the loads below i. */
  ghost predicate LoadsBelow(s: Sea, rank: seq<nat>, vregOf: map<nat, nat>, i: nat)
    requires DataWired(s) && Ranked(s, rank)
  {
    forall n: nat {:trigger n in vregOf} ::
        n in vregOf <==> Usable(s, n) && ((n < i && IsLoad(s, n)) || !OnLoad(s, rank, n))
  }

  lemma NoLoadsYet(s: Sea, rank: seq<nat>, vregOf: map<nat, nat>)
    requires Sane(s, rank) && Tame(s) && |s.nodes| < NO_NODE && Floated(s, vregOf)
    ensures LoadsBelow(s, rank, vregOf, 1)
  {
    forall n: nat {:trigger n in vregOf}
      ensures n in vregOf <==> Usable(s, n) && ((n < 1 && IsLoad(s, n)) || !OnLoad(s, rank, n))
    {
      FloatedIff(s, rank, vregOf, n);
    }
  }

  lemma LoadsDone(s: Sea, rank: seq<nat>, vregOf: map<nat, nat>, i: nat)
    requires DataWired(s) && Ranked(s, rank) && LoadsBelow(s, rank, vregOf, i)
    requires i >= |s.nodes| || forall n: nat :: !IsLoad(s, n)
    ensures BlockDone(s, rank, vregOf)
  {
  }

  lemma EmitsLoad(ext: Ext, s: Sea, rank: seq<nat>, n: nat, st: Raised)
    requires Sane(s, rank) && Tame(s) && IsLoad(s, n) && Right(ext, s, st) && Shapely(st, |s.nodes|, 1)
    requires LoadsBelow(s, rank, st.vregOf, n)
    ensures s.HasSlice(n) && |DataOf(s, n)| <= 2 && Right(ext, s, Emit(s, st, n))
    ensures Shapely(Emit(s, st, n), |s.nodes|, 1) && LoadsBelow(s, rank, Emit(s, st, n).vregOf, n + 1)
  {
    LoadData(s, n);
    LoadEntered(s, rank, st.vregOf, n, st.vregs + 1);
    EmitRight(ext, s, st, n);
    EmitShapely(s, st, n, |s.nodes|, 1);
    EmitWhole(s, st, n);
  }

  lemma LoadEntered(s: Sea, rank: seq<nat>, vregOf: map<nat, nat>, n: nat, r: nat)
    requires DataWired(s) && Ranked(s, rank) && IsLoad(s, n) && s.Live(n) && LoadsBelow(s, rank, vregOf, n)
    ensures n !in vregOf && LoadsBelow(s, rank, vregOf[n := r], n + 1)
  {
    assert OnLoad(s, rank, n);
  }

  // ----- the function that is raised -----

  /** The opaque nodes' values, where the loads read these locals. */
  ghost function OpaqueFor(s: Sea, locals: seq<i64>): seq<i64> {
    seq(|s.nodes|, n requires 0 <= n < |s.nodes| =>
      if IsLoad(s, n) && 0 <= s.nodes[n].payload < |locals| then locals[s.nodes[n].payload] else 0)
  }

  /** Every graph has a valuation that reads given locals. */
  lemma ReadingModel(ext: Ext, s: Sea, rank: seq<nat>, locals: seq<i64>) returns (v: seq<i64>)
    requires Sane(s, rank)
    ensures Models(ext, s, v) && Reads(s, locals, v)
  {
    v := ModelExists(ext, s, rank, OpaqueFor(s, locals));
    forall n | 0 <= n < |s.nodes| ensures LoadReads(s, locals, v, n) {
      if IsLoad(s, n) { assert !IsValueKind(s.nodes[n].kind) && v[n] == OpaqueFor(s, locals)[n]; }
    }
  }

  /** Code that is right returns what reaches Stop. */
  lemma ReturnsRight(ext: Ext, s: Sea, rank: seq<nat>, st: Raised, n: nat, labels: nat, locals: seq<i64>, x: i64)
    requires Sane(s, rank) && Right(ext, s, st) && n in st.vregOf && InRange(s, locals) && Worth(ext, s, locals, n, x)
    ensures T.Answers(T.Meaning(ext), Returning(st, n, labels), locals, T.Answer(x, locals))
  {
    var v := ReadingModel(ext, s, rank, locals);
    assert RightFor(ext, st, locals, v);
    var regs :| LeavesRight(ext, st, locals, v, regs);
    assert Holds(v, st.vregOf, regs, n);
    var f := Returning(st, n, labels);
    assert f.insts[..|f.insts| - 1] == st.code;
    LeavesReturn(T.Meaning(ext), f, regs, st.vregOf[n], locals);
  }

  lemma ReturningFormed(st: Raised, n: nat, labels: nat, size: nat, more: nat)
    requires Shapely(st, size, more) && n in st.vregOf
    ensures var f := Returning(st, n, labels); InstsFormed(f.insts, f.vregCount) && |f.insts| <= size + more + 1
  {
    ShapelyLength(st, size, more);
  }

  /** In id order, the last phase has emitted everything that is usable. */
  lemma LateKeys(s: Sea, rank: seq<nat>, st: Raised, n: nat)
    requires Sane(s, rank) && Tame(s) && BlockDone(s, rank, st.vregOf) && Usable(s, n)
    requires LateInOrder(s, st.vregOf, |s.nodes|)
    ensures n in EmitTo(s, st, |s.nodes|).vregOf
  {
    OrderedKeys(s, st, |s.nodes|);
    TamePure(s, n);
  }

  lemma StopOperand(s: Sea, rank: seq<nat>)
    requires Sane(s, rank) && Tame(s) && s.stop < |s.nodes| && s.nodes[s.stop].kind == Stop
    ensures |DataOf(s, s.stop)| == 1 && DataOf(s, s.stop)[0] == s.Inputs(s.stop)[0].target
        && Usable(s, s.Inputs(s.stop)[0].target)
  {
    var es := s.Inputs(s.stop);
    assert TameAt(s, s.stop) && InputsAlive(s, s.stop);
    assert es[1..][1..][1..] == [];
    assert es[1..][0] == es[1] && es[1..][1..][0] == es[2];
    assert OfKind(es[1..][1..], Data) == [];
    assert OfKind(es[1..], Data) == [];
  }

  /** All phases together, on the register table after Start's block. */
  lemma RaisedRight(ext: Ext, s: Sea, rank: seq<nat>, st: Raised, n: nat, labels: nat)
    requires Sane(s, rank) && Tame(s) && Right(ext, s, st) && BlockDone(s, rank, st.vregOf) && Usable(s, n)
    requires InIdOrder(s, rank)
    ensures n in EmitTo(s, st, |s.nodes|).vregOf
    ensures forall locals, x :: InRange(s, locals) && Worth(ext, s, locals, n, x) ==>
      T.Answers(T.Meaning(ext), Returning(EmitTo(s, st, |s.nodes|), n, labels), locals, T.Answer(x, locals))
  {
    var t := EmitTo(s, st, |s.nodes|);
    InIdOrderIff(s, rank, st.vregOf);
    LateKeys(s, rank, st, n);
    TameComputes(s);
    OrderedComputes(ext, s, st, |s.nodes|);
    forall locals, x | InRange(s, locals) && Worth(ext, s, locals, n, x)
      ensures T.Answers(T.Meaning(ext), Returning(t, n, labels), locals, T.Answer(x, locals))
    {
      ReturnsRight(ext, s, rank, t, n, labels, locals, x);
    }
  }

  lemma RaisedFormed(s: Sea, rank: seq<nat>, st: Raised, n: nat, labels: nat)
    requires Sane(s, rank) && Tame(s) && Shapely(st, |s.nodes|, 1) && n < |s.nodes|
    ensures var f := Returning(WithVreg(EmitTo(s, st, |s.nodes|), n), n, labels);
      InstsFormed(f.insts, f.vregCount) && |f.insts| <= |s.nodes| + 2
  {
    TameComputes(s);
    SaneOffItself(s, rank);
    LateShapely(s, st, |s.nodes|, 1);
    var t := EmitTo(s, st, |s.nodes|);
    WithVregShapely(t, n, |s.nodes|, 1);
    ReturningFormed(WithVreg(t, n), n, labels, |s.nodes|, 1);
  }

  /** What raising made of a graph: st is what Start's block left; then came the last phase and the return. */
  ghost predicate RaisedFrom(ext: Ext, s: Sea, rank: seq<nat>, st: Raised, labels: nat, f: T.Function)
    requires Sane(s, rank) && s.HasSlice(s.stop)
  {
    && Right(ext, s, st) && Shapely(st, |s.nodes|, 1) && BlockDone(s, rank, st.vregOf) && |DataOf(s, s.stop)| == 1
    && var n := DataOf(s, s.stop)[0];
      var t := WithVreg(EmitTo(s, st, |s.nodes|), n);
      f == Returning(t, n, labels)
  }

  /** Raises a straight-line graph: if its ids are in order, what reaches Stop is what the function returns. */
  method RaiseGraph(g: Graph, ghost ext: Ext, ghost rank: seq<nat>)
    returns (f: T.Function, ghost st: Raised, ghost labels: nat)
    requires g.Valid() && Sane(g.View(), rank) && Tame(g.View()) && |g.nodes| < NO_NODE && g.stop < |g.nodes|
    requires g.nodes[g.stop].kind == Stop
    ensures InstsFormed(f.insts, f.vregCount) && |f.insts| <= |g.nodes| + 2
    ensures RaisedFrom(ext, g.View(), rank, st, labels, f)
    ensures InIdOrder(g.View(), rank) ==> forall locals, x ::
      GraphLowering.GraphReturns(ext, g.View(), locals, x) && InRange(g.View(), locals) ==>
        T.Answers(T.Meaning(ext), f, locals, T.Answer(x, locals))
  {
    ghost var s := g.View();
    TameComputes(s);
    SaneOffItself(s, rank);
    NothingRight(ext, s);
    var r := new SoNToTier1();
    r.EmitFloating(g, ext);
    r.EmitBlock(g, ext, rank);
    st, labels := r.Now(), r.labels;
    r.EmitLate(g);
    StopOperand(s, rank);
    var data := g.InputsOfKind(g.stop, Data);
    f := r.EmitReturn(data[0]);
    RaisedReturns(ext, s, rank, st, labels, f);
  }

  lemma RaisedReturns(ext: Ext, s: Sea, rank: seq<nat>, st: Raised, labels: nat, f: T.Function)
    requires Sane(s, rank) && Tame(s) && s.stop < |s.nodes| && s.nodes[s.stop].kind == Stop
    requires RaisedFrom(ext, s, rank, st, labels, f)
    ensures InstsFormed(f.insts, f.vregCount) && |f.insts| <= |s.nodes| + 2
    ensures InIdOrder(s, rank) ==> forall locals, x ::
      GraphLowering.GraphReturns(ext, s, locals, x) && InRange(s, locals) ==>
        T.Answers(T.Meaning(ext), f, locals, T.Answer(x, locals))
  {
    StopOperand(s, rank);
    var n := DataOf(s, s.stop)[0];
    RaisedFormed(s, rank, st, n, labels);
    if InIdOrder(s, rank) { RaisedRight(ext, s, rank, st, n, labels); }
  }

  /** And otherwise some operand is missed. */
  lemma OutOfOrderMisses(ext: Ext, s: Sea, rank: seq<nat>, st: Raised)
    requires Sane(s, rank) && Tame(s) && BlockDone(s, rank, st.vregOf)
    ensures InIdOrder(s, rank) <==>
      forall n {:trigger Misses(s, st, n)} :: 0 <= n < |s.nodes| ==> !Misses(s, st, n)
  {
    InIdOrderIff(s, rank, st.vregOf);
    MissesIff(s, st);
  }

  /** If operands come before their users, constants aside, the ids are in order. */
  lemma CalmInOrder(s: Sea, rank: seq<nat>)
    requires Sane(s, rank) && Tame(s) && IsCalm(s)
    ensures InIdOrder(s, rank)
  {
    forall n: nat | n < |s.nodes| && IsPure(s, n) ensures IdOrderAt(s, rank, n) {
      TamePure(s, n);
      forall d | d in DataOf(s, n) ensures d < n || (d < |s.nodes| && !OnLoad(s, rank, d)) {
        OperandBack(s, n, d);
        if d >= n { ConstOffLoad(s, rank, d); }
      }
    }
  }

  lemma ConstOffLoad(s: Sea, rank: seq<nat>, n: nat)
    requires Sane(s, rank) && Tame(s) && IsConstant(s, n)
    ensures !OnLoad(s, rank, n)
  {
    assert TameAt(s, n);
  }

  /** Without loads the ids are always in order. */
  lemma NoLoadsInOrder(s: Sea, rank: seq<nat>)
    requires Sane(s, rank) && forall n: nat :: !IsLoad(s, n)
    ensures InIdOrder(s, rank)
  {
    forall n: nat | n < |s.nodes| ensures !OnLoad(s, rank, n) { NeverOnLoad(s, rank, n); }
  }

  lemma {:induction false} NeverOnLoad(s: Sea, rank: seq<nat>, n: nat)
    requires Sane(s, rank) && n < |s.nodes| && forall n: nat :: !IsLoad(s, n)
    ensures !OnLoad(s, rank, n)
    decreases rank[n]
  {
    if IsValueKind(s.nodes[n].kind) {
      assert Above(s.Inputs(n), rank, rank[n]);
      forall i | 0 <= i < |s.Inputs(n)| && s.Inputs(n)[i].kind == Data
        ensures !OnLoad(s, rank, s.Inputs(n)[i].target)
      {
        NeverOnLoad(s, rank, s.Inputs(n)[i].target);
      }
    }
  }
}
