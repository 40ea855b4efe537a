/** Register allocation preserves meaning: the function run on ten machine registers and spill slots returns
    what it returns on unboundedly many virtual registers. */
module RegisterMachine {
  import opened Int64
  import opened Machines
  import opened Tier1
  import opened Liveness
  import opened Allocation
  import opened LinearScan
  import opened LiveRanges

  // ----- the allocated machine -----

  datatype Place = Register(number: int) | Slot(index: int)

  type File = Place -> i64

  datatype PState = PState(pc: nat, file: File, locals: seq<i64>)

  function Home(ra: Allocated, v: nat): Place {
    if v < |ra.phys| && ra.phys[v] != NONE then Register(ra.phys[v])
    else Slot(if v < |ra.stack| then ra.stack[v] else NONE)
  }

  function Stored(file: File, at: Place, x: i64): File {
    (p: Place) => if p == at then x else file(p)
  }

  function Loaded(needed: bool, file: File, ra: Allocated, v: nat): i64 {
    if needed then file(Home(ra, v)) else 0
  }

  function PStep(alu: Alu, f: Function, ra: Allocated, s: PState): Outcome<PState, Answer> {
    if s.pc >= |f.insts| then Stuck
    else
      var i := f.insts[s.pc];
      match Execute(alu, f, s.pc, Loaded(Reads1(i.op), s.file, ra, i.src1), Loaded(Reads2(i.op), s.file, ra, i.src2),
          s.locals)
      case Continue(pc, value, locals) => Running(PState(pc,
          if Writes(i) then Stored(s.file, Home(ra, i.dst), value) else s.file, locals))
      case Finish(value, locals) => Returned(Answer(value, locals))
      case Fault => Stuck
  }

  function PSteps(alu: Alu, f: Function, ra: Allocated): PState -> Outcome<PState, Answer> { s => PStep(alu, f, ra, s) }

  // ----- the simulation -----

  /** Control got here, and every register that may still be read has its value in its home. */
  ghost predicate Agree(f: Function, ra: Allocated, s: State, p: PState) {
    && s.pc == p.pc && s.locals == p.locals && Reachable(f, s.pc)
    && forall v {:trigger Held(f, ra, s, p, v)} :: v in s.regs ==> Held(f, ra, s, p, v)
  }

  ghost predicate Held(f: Function, ra: Allocated, s: State, p: PState, v: nat)
    requires v in s.regs
  {
    Assigned(f, v, s.pc) && (Live(f, v, s.pc) ==> p.file(Home(ra, v)) == s.regs[v])
  }

  lemma OperandAgrees(f: Function, ra: Allocated, s: State, p: PState, v: nat)
    requires Agree(f, ra, s, p) && v in s.regs && IsRead(f, s.pc, v)
    ensures p.file(Home(ra, v)) == s.regs[v]
  {
    LiveAtRead(f, v, s.pc);
    assert Held(f, ra, s, p, v);
  }

  /** Overlapping intervals have different homes. */
  lemma HomesDiffer(f: Function, ra: Allocated, v: nat, w: nat, i: nat)
    requires Sound(f, ra) && Defined(f, v) && Defined(f, w) && v != w
    requires First(f, v) <= i <= Last(f, v) && First(f, w) <= i <= Last(f, w)
    ensures Home(ra, v) != Home(ra, w)
  {
    assert Overlap(IntervalOf(f, v), IntervalOf(f, w));
    assert Disjoint(ra, v, w) && PlacedAt(ra, v) && PlacedAt(ra, w);
  }

  lemma LiveDefined(f: Function, v: nat, pc: nat)
    requires WellFormed(f) && |f.insts| < NEVER && Covers(f) && Live(f, v, pc) && Assigned(f, v, pc)
    ensures Defined(f, v) && First(f, v) < pc <= Last(f, v)
  {
    var path :| Needs(f, path, v) && path[0] == pc;
    assert OperandsInRange(f.insts[path[|path| - 1]], f.vregCount);
    assert CoversAt(f, v, pc);
    FirstDefIs(f.insts, |f.insts|, v);
  }

  /** The instruction that writes d leaves alone the home of every other register that is still needed. */
  lemma WriteSpares(f: Function, ra: Allocated, i: nat, d: nat, v: nat)
    requires Sound(f, ra) && WellFormed(f) && |f.insts| < NEVER && Covers(f)
    requires IsWritten(f, i, d) && v != d && Live(f, v, i) && Assigned(f, v, i)
    ensures Home(ra, v) != Home(ra, d)
  {
    LiveDefined(f, v, i);
    assert OperandsInRange(f.insts[i], f.vregCount);
    FirstDefIs(f.insts, |f.insts|, d);
    LastUseIs(f.insts, |f.insts|, d);
    HomesDiffer(f, ra, d, v, i);
  }

  lemma WriteAgrees(f: Function, ra: Allocated, s: State, p: PState, x: i64)
    requires Sound(f, ra) && WellFormed(f) && |f.insts| < NEVER && Covers(f) && Agree(f, ra, s, p)
    requires s.pc < |f.insts| && Writes(f.insts[s.pc]) && Arc(f, s.pc, s.pc + 1)
    ensures var d := f.insts[s.pc].dst;
      Agree(f, ra, State(s.pc + 1, s.regs[d := x], s.locals),
          PState(p.pc + 1, Stored(p.file, Home(ra, d), x), p.locals))
  {
    var i, d := s.pc, f.insts[s.pc].dst;
    var t, q := State(i + 1, s.regs[d := x], s.locals), PState(i + 1, Stored(p.file, Home(ra, d), x), p.locals);
    assert IsWritten(f, i, d);
    ReachableAfter(f, i, i + 1);
    forall v | v in t.regs ensures Held(f, ra, t, q, v) {
      if v != d {
        assert Held(f, ra, s, p, v);
        if Live(f, v, i + 1) {
          LiveBefore(f, v, i, i + 1);
          WriteSpares(f, ra, i, d, v);
        }
      }
    }
  }

  /** Without a write, what may still be read afterwards may still be read before. */
  lemma MoveAgrees(f: Function, ra: Allocated, s: State, p: PState, k: nat, locals: seq<i64>)
    requires Agree(f, ra, s, p) && s.pc < |f.insts| && !Writes(f.insts[s.pc]) && Arc(f, s.pc, k)
    ensures Agree(f, ra, State(k, s.regs, locals), PState(k, p.file, locals))
  {
    var t, q := State(k, s.regs, locals), PState(k, p.file, locals);
    ReachableAfter(f, s.pc, k);
    forall v | v in t.regs ensures Held(f, ra, t, q, v) {
      assert Held(f, ra, s, p, v);
      if Live(f, v, k) { LiveBefore(f, v, s.pc, k); }
    }
  }

  /** Execution follows the arcs, and an instruction that writes leads to the next one. */
  lemma ExecuteArc(alu: Alu, f: Function, pc: nat, x: i64, y: i64, locals: seq<i64>)
    requires pc < |f.insts| && Execute(alu, f, pc, x, y, locals).Continue?
    ensures var e := Execute(alu, f, pc, x, y, locals);
      Arc(f, pc, e.pc) && (Writes(f.insts[pc]) ==> e.pc == pc + 1 && e.locals == locals)
  {
  }

  lemma EffectAgrees(alu: Alu, f: Function, ra: Allocated, s: State, p: PState, x: i64, y: i64)
    requires Sound(f, ra) && WellFormed(f) && |f.insts| < NEVER && Covers(f) && Agree(f, ra, s, p) && s.pc < |f.insts|
    requires Execute(alu, f, s.pc, x, y, s.locals).Continue?
    ensures var e, i := Execute(alu, f, s.pc, x, y, s.locals), f.insts[s.pc];
      Agree(f, ra, State(e.pc, if Writes(i) then s.regs[i.dst := e.value] else s.regs, e.locals),
        PState(e.pc, if Writes(i) then Stored(p.file, Home(ra, i.dst), e.value) else p.file, e.locals))
  {
    var e := Execute(alu, f, s.pc, x, y, s.locals);
    ExecuteArc(alu, f, s.pc, x, y, s.locals);
    if Writes(f.insts[s.pc]) { WriteAgrees(f, ra, s, p, e.value); } else { MoveAgrees(f, ra, s, p, e.pc, e.locals); }
  }

  /** One step of the virtual machine is one step of the allocated one. */
  lemma StepAgrees(alu: Alu, f: Function, ra: Allocated, s: State, p: PState)
    requires Sound(f, ra) && WellFormed(f) && |f.insts| < NEVER && Covers(f) && Agree(f, ra, s, p)
    ensures match Step(alu, f, s)
      case Running(t) => PStep(alu, f, ra, p).Running? && Agree(f, ra, t, PStep(alu, f, ra, p).state)
      case Returned(a) => PStep(alu, f, ra, p) == Returned(a)
      case Stuck => true
  {
    if Step(alu, f, s) != Stuck {
      var i := f.insts[s.pc];
      if Reads1(i.op) { OperandAgrees(f, ra, s, p, i.src1); }
      if Reads2(i.op) { OperandAgrees(f, ra, s, p, i.src2); }
      var x, y := Operand(Reads1(i.op), s.regs, i.src1), Operand(Reads2(i.op), s.regs, i.src2);
      assert x == Loaded(Reads1(i.op), p.file, ra, i.src1) && y == Loaded(Reads2(i.op), p.file, ra, i.src2);
      if Execute(alu, f, s.pc, x, y, s.locals).Continue? { EffectAgrees(alu, f, ra, s, p, x, y); }
    }
  }

  lemma {:induction false} RunAgrees(alu: Alu, f: Function, ra: Allocated, s: State, p: PState, n: nat)
    requires Sound(f, ra) && WellFormed(f) && |f.insts| < NEVER && Covers(f) && Agree(f, ra, s, p)
    requires Run(Steps(alu, f), s, n).Returned?
    ensures Run(PSteps(alu, f, ra), p, n) == Returned(Run(Steps(alu, f), s, n).result)
    decreases n
  {
    if n > 0 {
      StepAgrees(alu, f, ra, s, p);
      if Step(alu, f, s).Running? {
        RunAgrees(alu, f, ra, Step(alu, f, s).state, PStep(alu, f, ra, p).state, n - 1);
      }
    }
  }

  /** Whatever the registers and slots hold at first: where the intervals cover every path, a function that returns
      on virtual registers returns the same on machine registers. */
  lemma AllocationPreserves(alu: Alu, f: Function, ra: Allocated, locals: seq<i64>, file: File, a: Answer)
    requires Sound(f, ra) && WellFormed(f) && |f.insts| < NEVER && Covers(f) && Answers(alu, f, locals, a)
    ensures Ends(PSteps(alu, f, ra), PState(0, file, locals), a)
  {
    var n: nat :| Run(Steps(alu, f), State(0, map[], locals), n) == Returned(a);
    ReachableStart(f);
    RunAgrees(alu, f, ra, State(0, map[], locals), PState(0, file, locals), n);
  }

  /** So it does if its jumps only go forward. */
  lemma AllocationPreservesForward(alu: Alu, f: Function, ra: Allocated, locals: seq<i64>, file: File, a: Answer)
    requires Sound(f, ra) && WellFormed(f) && |f.insts| < NEVER && ForwardOnly(f) && Answers(alu, f, locals, a)
    ensures Ends(PSteps(alu, f, ra), PState(0, file, locals), a)
  {
    ForwardCovered(f);
    CoversIff(f);
    AllocationPreserves(alu, f, ra, locals, file, a);
  }
}
