/** The lowerer itself: a scan for jump targets, then the walk that emits labels and instructions. */
module LoweringWalk {
  import opened Int64
  import B = Bytecode
  import opened Interpreter
  import opened Sorting
  import opened Tier1
  import opened Lowering
  import opened LoweredShape

  // ----- facts about boundaries -----

  /** Short of the end there is an instruction. */
  lemma InstrBeforeEnd(p: Program, k: nat)
    requires WellListed(p) && WellCoded(p) && At(p, k) < p.size
    ensures IsInstr(p, k) && k < p.size
  {
    IndexBound(p, k);
    if !IsInstr(p, k) { Stays(p, k, p.size); }
  }

  lemma {:induction false} IndexBound(p: Program, k: nat)
    requires WellListed(p) && WellCoded(p) && At(p, k) < p.size
    ensures k <= At(p, k)
  {
    if k > 0 {
      AtGrows(p, k - 1, k);
      if IsInstr(p, k - 1) {
        IndexBound(p, k - 1);
      } else if k <= p.size {
        Stays(p, k - 1, p.size);
      } else {
        AtGrows(p, p.size, k);
      }
    }
  }

  lemma {:induction false} Stays(p: Program, j: nat, k: nat)
    requires j <= k && !IsInstr(p, j)
    ensures At(p, k) == At(p, j)
  {
    if j < k { Stays(p, j, k - 1); }
  }

  /** Past the last instruction nothing changes any more. */
  lemma {:induction false} DoneAfter(p: Program, targets: seq<nat>, j: nat, k: nat)
    requires j <= k && !IsInstr(p, j)
    ensures TargetsTo(p, k) == TargetsTo(p, j) && LowerTo(p, targets, k) == LowerTo(p, targets, j)
  {
    if j < k {
      DoneAfter(p, targets, j, k - 1);
      Stays(p, j, k - 1);
    }
  }

  /** Jump targets are instruction boundaries. */
  lemma {:induction false} TargetsAreBoundaries(p: Program, k: nat, t: nat)
    requires Decodable(p) && t in TargetsTo(p, k)
    ensures exists m :: IsInstr(p, m) && At(p, m) == t
  {
    if t !in TargetsTo(p, k - 1) {
      assert Lands(p, k - 1);
      var m :| LeadsTo(p, k - 1, m);
      InstrBound(p, m);
      AtGrows(p, m, p.size);
      assert IsInstr(p, m) && At(p, m) == t;
    } else {
      TargetsAreBoundaries(p, k - 1, t);
    }
  }

  lemma {:induction false} TargetsDistinct(p: Program, k: nat)
    ensures forall i, j :: 0 <= i < j < |TargetsTo(p, k)| ==> TargetsTo(p, k)[i] != TargetsTo(p, k)[j]
  {
    if k > 0 { TargetsDistinct(p, k - 1); }
  }

  /** No boundary lies inside an instruction. */
  lemma NoBoundaryInside(p: Program, k: nat, m: nat)
    requires WellListed(p) && IsInstr(p, k) && At(p, k) < At(p, m)
    ensures At(p, k + 1) <= At(p, m)
  {
    if m <= k { AtGrows(p, m, k); } else { AtGrows(p, k + 1, m); }
  }

  // ----- emitting -----

  class ChunkLowerer {
    const constants: seq<Const>
    var insts: seq<Inst>
    var vregs: nat
    var vstack: seq<nat>

    constructor (constants: seq<Const>)
      ensures this.constants == constants && State() == LState([], 0, [])
    {
      this.constants := constants;
      insts, vregs, vstack := [], 0, [];
    }

    function State(): LState
      reads this
    {
      LState(insts, vregs, vstack)
    }

    method AllocVreg() returns (v: nat)
      modifies this`vregs
      ensures v == old(State()).Fresh() && vregs == v
    {
      vregs := vregs + 1;
      v := vregs;
    }

    method EmitInst(op: Op, dst: nat, src1: nat, src2: nat, payload: int)
      modifies this`insts
      ensures insts == old(insts) + [Inst(op, dst, src1, src2, payload)]
    {
      insts := insts + [Inst(op, dst, src1, src2, payload)];
    }

    method PopVreg() returns (v: nat)
      modifies this
      ensures v == old(State()).Top() && State() == old(State()).Popped()
    {
      if |vstack| == 0 {
        v := AllocVreg();
        EmitInst(LoadConstImm, v, 0, 0, 0);
      } else {
        v := vstack[|vstack| - 1];
        vstack := vstack[..|vstack| - 1];
      }
    }

    method PushVreg(v: nat)
      modifies this`vstack
      ensures vstack == old(vstack) + [v]
    {
      vstack := vstack + [v];
    }

    method EmitBinop(op: Op)
      modifies this
      ensures var s := old(State()); var s1 := s.Popped(); var s2 := s1.Popped();
        State() == LState(s2.insts + [Inst(op, s2.Fresh(), s1.Top(), s.Top(), 0)], s2.vregs + 1,
            s2.vstack + [s2.Fresh()])
    {
      var b := PopVreg();
      var a := PopVreg();
      var dst := AllocVreg();
      EmitInst(op, dst, a, b, 0);
      PushVreg(dst);
    }

    method EmitUnop(op: Op)
      modifies this
      ensures var s := old(State()); var s1 := s.Popped();
        State() == LState(s1.insts + [Inst(op, s1.Fresh(), s.Top(), 0, 0)], s1.vregs + 1, s1.vstack + [s1.Fresh()])
    {
      var a := PopVreg();
      var dst := AllocVreg();
      EmitInst(op, dst, a, 0, 0);
      PushVreg(dst);
    }

    /** One opcode of the main walk. */
    method LowerOp(i: B.Instr, targets: seq<nat>, ghost p: Program)
      requires i.op in LOWERED && p.constants == constants
      modifies this
      ensures State() == LowerInstr(p, targets, i, old(State()))
    {
      if IsBinaryOpCode(i.op) {
        EmitBinop(BinOp(i.op));
        return;
      }
      match i.op
      case LoadConst =>
        var dst := AllocVreg();
        if 0 <= i.operand < |constants| && constants[i.operand].IntConst? {
          EmitInst(LoadConstImm, dst, 0, 0, constants[i.operand].value);
        } else {
          EmitInst(LoadConst, dst, 0, 0, i.operand);
        }
        PushVreg(dst);
      case LoadLocal =>
        var dst := AllocVreg();
        EmitInst(LoadLocal, dst, 0, 0, i.operand);
        PushVreg(dst);
      case StoreLocal =>
        var src := PopVreg();
        EmitInst(StoreLocal, 0, src, 0, i.operand);
        PushVreg(src);
      case Pop =>
        if |vstack| > 0 { vstack := vstack[..|vstack| - 1]; }
      case Neg => EmitUnop(Neg);
      case Not => EmitUnop(Not);
      case Jump => EmitInst(Jump, 0, 0, 0, LabelOf(targets, TargetOf(i)));
      case JumpIfFalse =>
        var cond := PopVreg();
        EmitInst(BranchIfFalse, 0, cond, 0, LabelOf(targets, TargetOf(i)));
      case Return =>
        var v := PopVreg();
        EmitInst(Return, 0, v, 0, 0);
    }

    /** Emits the labels at this offset; n counts the sorted targets already passed. */
    method EmitLabels(targets: seq<nat>, sorted: seq<nat>, n: nat, ip: nat) returns (n': nat)
      requires StrictlySorts(sorted, targets) && PassedTargets(sorted, n, ip)
      modifies this
      ensures State() == WithLabel(targets, ip, old(State()))
      ensures PassedTargets(sorted, n', ip + 1)
    {
      n' := n;
      while n' < |sorted| && sorted[n'] == ip
        invariant n <= n' <= |sorted|
        invariant n' == n ==> State() == old(State())
        invariant n' > n ==> n' == n + 1 && sorted[n] == ip && State() == WithLabel(targets, ip, old(State()))
        decreases |sorted| - n'
      {
        assert sorted[n'] in sorted;
        EmitInst(Label, 0, 0, 0, LabelOf(targets, ip));
        n' := n' + 1;
      }
      LabelsEmitted(targets, sorted, n, n', ip);
    }
  }

  ghost predicate StrictlySorts(sorted: seq<nat>, targets: seq<nat>) {
    && (forall i, j :: 0 <= i < j < |sorted| ==> sorted[i] < sorted[j])
    && (forall t :: t in sorted <==> t in targets)
  }

  ghost predicate PassedTargets(sorted: seq<nat>, n: nat, ip: nat) {
    n <= |sorted| && (forall j :: 0 <= j < n ==> sorted[j] < ip) && (forall j :: n <= j < |sorted| ==> sorted[j] >= ip)
  }

  lemma LabelsEmitted(targets: seq<nat>, sorted: seq<nat>, n: nat, n': nat, ip: nat)
    requires StrictlySorts(sorted, targets) && PassedTargets(sorted, n, ip)
    requires n <= n' <= n + 1 && n' <= |sorted| && (n' < |sorted| ==> sorted[n'] != ip) && (n' > n ==> sorted[n] == ip)
    ensures PassedTargets(sorted, n', ip + 1) && (ip in targets <==> n' > n)
  {
    if ip in targets {
      assert ip in sorted;
      var j :| 0 <= j < |sorted| && sorted[j] == ip;
    }
    if n' > n { assert sorted[n] in sorted; }
  }

  lemma SameMembers(s: seq<nat>, targets: seq<nat>, t: nat)
    requires multiset(s) == multiset(targets)
    ensures t in s <==> t in targets
  {
    assert t in s <==> t in multiset(s);
    assert t in targets <==> t in multiset(targets);
  }

  lemma SortStrict(targets: seq<nat>)
    requires forall i, j :: 0 <= i < j < |targets| ==> targets[i] != targets[j]
    ensures StrictlySorts(Sort(targets), targets)
  {
    var s := Sort(targets);
    SortSorts(targets);
    forall t: nat ensures t in s <==> t in targets { SameMembers(s, targets, t); }
    forall i, j | 0 <= i < j < |s| ensures s[i] < s[j] {
      if s[i] == s[j] {
        Multiplicity(s, i, j);
        DistinctOnce(targets, s[i]);
      }
    }
  }

  lemma Multiplicity(s: seq<nat>, i: nat, j: nat)
    requires i < j < |s| && s[i] == s[j]
    ensures multiset(s)[s[i]] >= 2
  {
    assert s == s[..j] + [s[j]] + s[j + 1..];
    assert s[..j][i] == s[i];
  }

  lemma {:induction false} DistinctOnce(s: seq<nat>, x: nat)
    requires forall i, j :: 0 <= i < j < |s| ==> s[i] != s[j]
    ensures multiset(s)[x] <= 1
  {
    if |s| > 0 {
      DistinctOnce(s[1..], x);
      assert s == [s[0]] + s[1..];
      if s[0] == x { assert x !in s[1..]; }
    }
  }

  // ----- the two walks over the code -----

  /** The pre-scan has its own table of operand sizes; it agrees with the reader's on every opcode. */
  method ScanJumpTargets(code: seq<B.byte>, ghost p: Program) returns (targets: seq<nat>)
    requires p.listing == B.Listing(code) && p.size == |code| && Decodable(p)
    ensures targets == Targets(p)
  {
    targets := [];
    var r := new B.Reader(code);
    ghost var k := 0;
    while r.ip < |code|
      invariant r.bytes == code && r.ip == At(p, k) <= |code| && targets == TargetsTo(p, k)
      decreases |code| - r.ip
    {
      InstrBeforeEnd(p, k);
      targets := ScanOne(r, targets, p, k);
      k := k + 1;
    }
    AtEnd(p, [], k);
  }

  lemma AtEnd(p: Program, targets: seq<nat>, k: nat)
    requires Decodable(p) && At(p, k) >= p.size
    ensures TargetsTo(p, k) == Targets(p) && LowerTo(p, targets, k) == LowerTo(p, targets, p.size)
  {
    if IsInstr(p, k) { InstrBound(p, k); AtGrows(p, k, p.size); }
    if IsInstr(p, p.size) { InstrBound(p, p.size); }
    if k <= p.size { DoneAfter(p, targets, k, p.size); } else { DoneAfter(p, targets, p.size, k); }
  }

  method ScanOne(r: B.Reader, targets: seq<nat>, ghost p: Program, ghost k: nat) returns (found: seq<nat>)
    requires p.listing == B.Listing(r.bytes) && IsInstr(p, k) && r.ip == At(p, k)
    modifies r
    ensures r.ip == At(p, k + 1) && old(r.ip) < r.ip <= |r.bytes| && found == WithTarget(p, k, targets)
  {
    Decoded(p, k, r.bytes);
    found := ScanInstr(r, targets, InstrAt(p, k));
  }

  lemma Decoded(p: Program, k: nat, code: seq<B.byte>)
    requires p.listing == B.Listing(code) && IsInstr(p, k)
    ensures B.Complete(code, At(p, k)) && InstrAt(p, k) == B.Decode(code, At(p, k))
        && At(p, k + 1) == InstrAt(p, k).next
  {
  }

  function TargetAdded(i: B.Instr, found: seq<nat>): seq<nat> {
    if HasTarget(i.op) && TargetOf(i) !in found then found + [TargetOf(i)] else found
  }

  method ScanInstr(r: B.Reader, targets: seq<nat>, ghost i: B.Instr) returns (found: seq<nat>)
    requires B.Complete(r.bytes, r.ip) && i == B.Decode(r.bytes, r.ip)
    modifies r
    ensures r.ip == i.next && found == TargetAdded(i, targets)
  {
    found := targets;
    var op := r.ReadOp();
    if op in {B.Jump, B.JumpIfFalse, B.ForIter, B.TryPush} {
      var off := r.ReadShort();
      var target := (r.ip + off) % 0x1_0000_0000;
      if target !in found { found := found + [target]; }
    } else if op in {B.LoadConst, B.LoadVar, B.StoreVar, B.PropertyAccess, B.PropertySet, B.Import} {
      var _ := r.ReadConstIdx();
    } else if op in {B.LoadLocal, B.StoreLocal, B.Call, B.BuildList} {
      var _ := r.ReadByte();
    }
  }

  /** What the main walk reads for the opcodes it lowers. */
  method ReadInstr(r: B.Reader) returns (i: B.Instr)
    requires B.Complete(r.bytes, r.ip) && B.Decode(r.bytes, r.ip).op in LOWERED
    modifies r
    ensures i == B.Decode(r.bytes, old(r.ip)) && r.ip == i.next
  {
    var op := r.ReadOp();
    var operand: int := 0;
    if op == B.LoadConst {
      operand := r.ReadConstIdx();
    } else if op == B.LoadLocal || op == B.StoreLocal {
      operand := r.ReadByte();
    } else if op == B.Jump || op == B.JumpIfFalse {
      operand := r.ReadShort();
    }
    i := B.Instr(op, operand, r.ip);
  }

  /** Lowers a chunk. */
  method LowerChunk(code: seq<B.byte>, constants: seq<Const>) returns (f: Function)
    requires Decodable(Load(code, constants))
    ensures f == Lowered(Load(code, constants))
  {
    ghost var p := Load(code, constants);
    var targets := ScanJumpTargets(code, p);
    var sorted := Sort(targets);
    TargetsDistinct(p, p.size);
    SortStrict(targets);
    var r := new B.Reader(code);
    var low := new ChunkLowerer(constants);
    var n := 0;
    ghost var k := 0;
    while r.ip < |code|
      invariant r.bytes == code && r.ip == At(p, k) <= |code| && low.constants == constants
      invariant low.State() == LowerTo(p, targets, k) && PassedTargets(sorted, n, r.ip)
      decreases |code| - r.ip
    {
      InstrBeforeEnd(p, k);
      n := WalkOne(r, low, targets, sorted, n, p, k);
      k := k + 1;
    }
    AtEnd(p, targets, k);
    f := Function(low.insts, low.vregs, |targets|);
  }

  method WalkOne(r: B.Reader, low: ChunkLowerer, targets: seq<nat>, sorted: seq<nat>, n: nat, ghost p: Program,
      ghost k: nat) returns (n': nat)
    requires p == Load(r.bytes, low.constants) && Decodable(p) && targets == Targets(p)
        && StrictlySorts(sorted, targets)
    requires IsInstr(p, k) && r.ip == At(p, k) && PassedTargets(sorted, n, r.ip)
    modifies r, low
    ensures low.State() == LowerNext(p, targets, k, old(low.State()))
    ensures old(r.ip) < r.ip == At(p, k + 1) <= |r.bytes| && PassedTargets(sorted, n', r.ip)
  {
    Decoded(p, k, r.bytes);
    n' := low.EmitLabels(targets, sorted, n, r.ip);
    var i := ReadInstr(r);
    low.LowerOp(i, targets, p);
    NextTargets(p, targets, sorted, n', k);
  }

  lemma NextTargets(p: Program, targets: seq<nat>, sorted: seq<nat>, n: nat, k: nat)
    requires Decodable(p) && targets == Targets(p) && StrictlySorts(sorted, targets) && IsInstr(p, k)
    requires PassedTargets(sorted, n, At(p, k) + 1)
    ensures PassedTargets(sorted, n, At(p, k + 1))
  {
    AtGrows(p, k, k + 1);
    forall j | n <= j < |sorted| ensures sorted[j] >= At(p, k + 1) {
      assert sorted[j] in sorted;
      TargetsAreBoundaries(p, p.size, sorted[j]);
      var m :| IsInstr(p, m) && At(p, m) == sorted[j];
      NoBoundaryInside(p, k, m);
    }
  }

  /** Every allocated label is emitted exactly once: just before what is lowered for the instruction at its offset. */
  lemma LabelOnce(p: Program, id: nat) returns (m: nat)
    requires Decodable(p) && id < |Targets(p)|
    ensures IsInstr(p, m) && At(p, m) == Targets(p)[id]
    ensures var j := |LowerTo(p, Targets(p), m).insts|;
      forall j' :: 0 <= j' < |Lowered(p).insts| ==>
        (Lowered(p).insts[j'].op == Label && Lowered(p).insts[j'].payload == id <==> j' == j)
    ensures |LowerTo(p, Targets(p), m).insts| < |Lowered(p).insts|
  {
    var targets, trace := Targets(p), TraceOf(p, Targets(p));
    TargetsAreBoundaries(p, p.size, targets[id]);
    m :| IsInstr(p, m) && At(p, m) == targets[id];
    InstrBound(p, m);
    TraceWalks(p, targets);
    TargetIs(p, targets, trace, m);
    TargetsDistinct(p, p.size);
    LabelOfSelf(targets, id);
    forall j' | 0 <= j' < |trace[p.size].insts| && trace[p.size].insts[j'].op == Label
        && trace[p.size].insts[j'].payload == id
      ensures j' == |trace[m].insts|
    {
      LabelUnique(p, targets, trace, m, id, j');
    }
    assert trace[p.size].insts[|trace[m].insts|].payload == id;
  }

  lemma LabelOfSelf(targets: seq<nat>, id: nat)
    requires id < |targets| && forall i, j :: 0 <= i < j < |targets| ==> targets[i] != targets[j]
    ensures LabelOf(targets, targets[id]) == id
  {
    LabelOfIs(targets, targets[id]);
  }

  lemma LabelUnique(p: Program, targets: seq<nat>, trace: seq<LState>, m: nat, id: nat, j: nat)
    requires WellListed(p) && Walk(p, targets, trace) && m < p.size && IsInstr(p, m) && id < |targets|
        && At(p, m) == targets[id]
    requires j < |trace[p.size].insts| && trace[p.size].insts[j].op == Label && trace[p.size].insts[j].payload == id
    ensures j == |trace[m].insts|
  {
    var o := LabelPlaces(p, targets, trace, p.size, j);
    LabelOfIs(targets, At(p, o));
    if o < m { AtGrows(p, o, m); }
    if m < o { AtGrows(p, m, o); }
  }
}
