/** What the register scan does to that chunk: the interpreter returns 5, the compiled code 0. */
module LoopCounterexample {
  import opened Int64
  import opened Machines
  import V = Valuation
  import B = Bytecode
  import opened Interpreter
  import opened Tier1
  import opened Lowering
  import opened Liveness
  import opened LiveRanges
  import opened Allocation
  import opened LinearScan
  import opened RegisterMachine
  import opened LoopChunk

  // ----- its intervals -----

  function LoopInterval(v: nat): Interval
    requires 0 < v <= 4
  {
    match v
    case 1 => Interval(1, 0, 2)
    case 2 => Interval(2, 3, 6)
    case 3 => Interval(3, 4, 5)
    case 4 => Interval(4, 7, 8)
  }

  lemma LoopRange(f: Function, v: nat)
    requires LoopFunction(f) && 0 < v <= 4
    ensures IntervalOf(f, v) == LoopInterval(v) && Defined(f, v)
  {
    var first, last := LoopInterval(v).start, LoopInterval(v).end;
    FirstDefIs(f.insts, 9, v);
    LastUseIs(f.insts, 9, v);
    assert f.insts[first].dst == v && Mentions(f.insts[last], v);
    forall j: nat | j < 9 ensures (f.insts[j].dst == v ==> first <= j) && (Mentions(f.insts[j], v) ==> j <= last) {
      assert f.insts[j] == LoopInst(j);
    }
  }

  function LoopIntervals(n: nat): seq<Interval>
    requires n <= 4
  {
    seq(n, i requires 0 <= i < n => LoopInterval(i + 1))
  }

  lemma {:induction false} LoopFound(f: Function, n: nat)
    requires LoopFunction(f) && n <= 4
    ensures Found(f, n + 1) == LoopIntervals(n)
  {
    if n > 0 {
      LoopFound(f, n - 1);
      LoopRange(f, n);
    }
  }

  lemma {:induction false} SortSorted(s: seq<Interval>)
    requires InOrder(s)
    ensures SortByStart(s) == s
  {
    if |s| > 0 {
      SortSorted(s[1..]);
      assert |s| > 1 ==> s[0].start < s[1].start;
    }
  }

  lemma LoopIntervalsAre(f: Function)
    requires LoopFunction(f)
    ensures Intervals(f) == LoopIntervals(4)
  {
    LoopFound(f, 4);
    SortSorted(LoopIntervals(4));
  }

  // ----- its allocation -----

  function LoopPhys(k: nat): seq<int>
    requires k <= 4
  {
    seq(5, v => if v == 0 || v > k then NONE else if v == 3 then 6 else 3)
  }

  const NO_BITS: seq<bool> := [false, false, false, false, false, false, false, false, false, false]

  /** The tables after the first k intervals. */
  function LoopScan(k: nat): Scan
    requires k <= 4
  {
    Scan(LoopPhys(k), seq(5, _ => NONE), 0,
         if k == 0 then [] else if k == 3 then [1, 2] else [k - 1],
         if k == 0 then NO_BITS else if k == 3 then NO_BITS[0 := true][1 := true] else NO_BITS[0 := true])
  }

  /** Those that begin before the next interval have all ended, but for the third. */
  function LoopRoom(k: nat): Scan
    requires k < 4
  {
    if k == 2 then LoopScan(2) else LoopScan(k).(active := [], used := NO_BITS)
  }

  lemma RegisterOrder()
    ensures RegAt(3, 0) == 0 && RegAt(6, 0) == 1
  {
    assert REGS[0] == 3 && REGS[1] == 6;
    assert RegAt(6, 0) == RegAt(6, 1);
  }

  lemma LoopOneEnds(ivs: seq<Interval>, sc: Scan, a: nat, now: nat)
    requires VregsFit(ivs, 4) && InTables(ivs, 4, sc) && sc.active == [a] && a < |ivs| && ivs[a].end < now
    requires (sc.RegOf(ivs, a) == 3 && sc.used == NO_BITS[0 := true])
        || (sc.RegOf(ivs, a) == 6 && sc.used == NO_BITS[1 := true])
    ensures Expired(ivs, 4, sc, now, 0) == sc.(active := [], used := NO_BITS)
  {
    RegisterOrder();
    var r := RegAt(sc.RegOf(ivs, a), 0);
    assert Without([a], 0) == [];
    assert sc.used[r := false] == NO_BITS;
  }

  lemma LoopTwoEnd(ivs: seq<Interval>, sc: Scan, a: nat, b: nat, now: nat)
    requires VregsFit(ivs, 4) && InTables(ivs, 4, sc) && sc.active == [a, b] && a < |ivs| && b < |ivs|
    requires ivs[a].end < now && ivs[b].end < now
    requires sc.RegOf(ivs, a) == 3 && sc.RegOf(ivs, b) == 6 && sc.used == NO_BITS[0 := true][1 := true]
    ensures Expired(ivs, 4, sc, now, 0) == sc.(active := [], used := NO_BITS)
  {
    RegisterOrder();
    assert Without([a, b], 0) == [b];
    assert sc.used[0 := false] == NO_BITS[1 := true];
    LoopOneEnds(ivs, Expire(sc, 0, 0), b, now);
  }

  lemma LoopExpired(ivs: seq<Interval>, k: nat)
    requires k < 4 && ivs == LoopIntervals(4)
    ensures VregsFit(ivs, 4) && InTables(ivs, 4, LoopScan(k))
        && Expired(ivs, 4, LoopScan(k), ivs[k].start, 0) == LoopRoom(k)
  {
    var sc := LoopScan(k);
    match k
    case 0 =>
    case 1 => LoopOneEnds(ivs, sc, 0, 3);
    case 2 => assert Expired(ivs, 4, sc, 4, 0) == Expired(ivs, 4, sc, 4, 1);
    case 3 => LoopTwoEnd(ivs, sc, 1, 2, 7);
  }

  lemma LoopPlaced(ivs: seq<Interval>, k: nat)
    requires k < 4 && ivs == LoopIntervals(4)
    ensures VregsFit(ivs, 4) && InTables(ivs, 4, LoopRoom(k)) && PlacedNext(ivs, 4, LoopRoom(k), k) == LoopScan(k + 1)
  {
    var sc, t := LoopRoom(k), LoopScan(k + 1);
    var r := if k == 2 then 1 else 0;
    assert LowestFree(sc.used, r) == r;
    assert LowestFree(sc.used, 0) == r;
    assert REGS[0] == 3 && REGS[1] == 6;
    assert sc.phys[k + 1 := REGS[r]] == t.phys;
    assert sc.used[r := true] == t.used;
  }

  lemma {:induction false} LoopScanned(ivs: seq<Interval>, k: nat)
    requires k <= 4 && ivs == LoopIntervals(4)
    ensures VregsFit(ivs, 4) && ScanTo(ivs, 4, k) == LoopScan(k)
  {
    if k > 0 {
      LoopScanned(ivs, k - 1);
      LoopExpired(ivs, k - 1);
      LoopPlaced(ivs, k - 1);
    }
  }

  /** The first two registers share a machine register. */
  lemma LoopAllocation(f: Function)
    requires LoopFunction(f)
    ensures ScanOf(f) == Allocated([NONE, 3, 3, 6, 3], seq(5, _ => NONE), 0)
  {
    LoopIntervalsAre(f);
    LoopScanned(Intervals(f), 4);
    assert LoopPhys(4) == [NONE, 3, 3, 6, 3];
  }

  // ----- what the interpreter does -----

  /** Local 0 is set to 5 in the first round; local 1 is 0 there and 9 in the second, which is the last. */
  function InterpretedAt(u: Local, n: nat): IState
    requires n < 15
  {
    match n
    case 0 => IState(0, [], [u, Int(0)])
    case 1 => IState(4, [5], [u, Int(0)])
    case 2 => IState(6, [5], [Int(5), Int(0)])
    case 3 => IState(8, [5, 0], [Int(5), Int(0)])
    case 4 => IState(12, [5, 0, 9], [Int(5), Int(0)])
    case 5 => IState(14, [5, 0, 9], [Int(5), Int(9)])
    case 6 => IState(15, [5, 0], [Int(5), Int(9)])
    case 7 => IState(4, [5], [Int(5), Int(9)])
    case 8 => IState(6, [5], [Int(5), Int(9)])
    case 9 => IState(8, [5, 9], [Int(5), Int(9)])
    case 10 => IState(12, [5, 9, 9], [Int(5), Int(9)])
    case 11 => IState(14, [5, 9, 9], [Int(5), Int(9)])
    case 12 => IState(15, [5, 9], [Int(5), Int(9)])
    case 13 => IState(18, [5], [Int(5), Int(9)])
    case 14 => IState(20, [5, 5], [Int(5), Int(9)])
  }

  const ROUNDS: seq<nat> := [0, 1, 2, 3, 4, 5, 6, 1, 2, 3, 4, 5, 6, 7, 8]

  ghost predicate Interpreted(p: Program, u: Local, n: nat)
    requires n < 14
  {
    IStep(p, InterpretedAt(u, n)) == Running(InterpretedAt(u, n + 1))
  }

  lemma FirstRound(p: Program, u: Local, n: nat)
    requires LoopCode(p) && n < 7
    ensures Interpreted(p, u, n)
  {
    var s, t := InterpretedAt(u, n), InterpretedAt(u, n + 1);
    assert Listed(p, ROUNDS[n]);
    assert IStep(p, s).Running? && IStep(p, s).state.ip == t.ip;
    assert IStep(p, s).state.stack == t.stack;
    assert IStep(p, s).state.locals == t.locals;
  }

  lemma SecondRound(p: Program, u: Local, n: nat)
    requires LoopCode(p) && 7 <= n < 14
    ensures Interpreted(p, u, n)
  {
    var s, t := InterpretedAt(u, n), InterpretedAt(u, n + 1);
    assert Listed(p, ROUNDS[n]);
    assert IStep(p, s).Running? && IStep(p, s).state.ip == t.ip;
    assert IStep(p, s).state.stack == t.stack;
    assert IStep(p, s).state.locals == t.locals;
  }

  lemma InterpreterReturnsFive(p: Program, u: Local)
    requires LoopCode(p)
    ensures Interprets(p, [u, Int(0)], IAnswer(5, [Int(5), Int(9)]))
  {
    var trace := seq(15, n requires 0 <= n < 15 => InterpretedAt(u, n));
    forall n | 0 <= n < |trace| - 1 ensures Link(ISteps(p), trace, n) {
      if n < 7 { FirstRound(p, u, n); } else { SecondRound(p, u, n); }
    }
    LinksReach(ISteps(p), trace, 14);
    assert Listed(p, 8);
    ReachesThen(ISteps(p), trace[0], trace[14]);
  }

  // ----- what the compiled code does -----

  function Three(file: File, x: i64): File { Stored(file, Register(3), x) }

  function Six(file: File, x: i64): File { Stored(file, Register(6), x) }

  /** The second register overwrites the first: in the second round local 0 is set to 0. */
  function ExecutedAt(file: File, x: i64, n: nat): PState
    requires n < 15
  {
    var one := Three(file, 5);
    var two := Three(one, 0);
    var three := Six(two, 9);
    var four := Three(three, 9);
    var five := Six(four, 9);
    match n
    case 0 => PState(0, file, [x, 0])
    case 1 => PState(1, one, [x, 0])
    case 2 => PState(2, one, [x, 0])
    case 3 => PState(3, one, [5, 0])
    case 4 => PState(4, two, [5, 0])
    case 5 => PState(5, three, [5, 0])
    case 6 => PState(6, three, [5, 9])
    case 7 => PState(1, three, [5, 9])
    case 8 => PState(2, three, [5, 9])
    case 9 => PState(3, three, [0, 9])
    case 10 => PState(4, four, [0, 9])
    case 11 => PState(5, five, [0, 9])
    case 12 => PState(6, five, [0, 9])
    case 13 => PState(7, five, [0, 9])
    case 14 => PState(8, Three(five, 0), [0, 9])
  }

  const VISITS: seq<nat> := [0, 1, 2, 3, 4, 5, 6, 1, 2, 3, 4, 5, 6, 7, 8]

  ghost predicate LoadsIts(alu: Alu) {
    alu(LoopInst(0), 0, 0) == 5 && alu(LoopInst(4), 0, 0) == 9
  }

  lemma MeaningLoads(ext: V.Ext)
    ensures LoadsIts(Meaning(ext))
  {
    WrapInRange(5);
    WrapInRange(9);
    assert Result(ext, LoopInst(0), 0, 0) == Wrap(5);
    assert Result(ext, LoopInst(4), 0, 0) == Wrap(9);
  }

  lemma LoopTarget(f: Function)
    requires LoopFunction(f)
    ensures Target(f.insts, 0) == 1
  {
    assert f.insts[1] == LoopInst(1);
    assert f.insts[0] == LoopInst(0);
  }

  /** Where the four virtual registers live. */
  ghost predicate LoopHomes(ra: Allocated) {
    && Home(ra, 1) == Register(3) && Home(ra, 2) == Register(3) && Home(ra, 3) == Register(6)
        && Home(ra, 4) == Register(3)
  }

  ghost predicate Executed(alu: Alu, f: Function, ra: Allocated, file: File, x: i64, n: nat)
    requires n < 14
  {
    PStep(alu, f, ra, ExecutedAt(file, x, n)) == Running(ExecutedAt(file, x, n + 1))
  }

  lemma FirstLap(alu: Alu, f: Function, ra: Allocated, file: File, x: i64, n: nat)
    requires LoopFunction(f) && LoopHomes(ra) && LoadsIts(alu) && n < 4
    ensures Executed(alu, f, ra, file, x, n)
  {
    var s, t := ExecutedAt(file, x, n), ExecutedAt(file, x, n + 1);
    LoopTarget(f);
    assert s.pc == VISITS[n] && f.insts[VISITS[n]] == LoopInst(VISITS[n]);
    assert PStep(alu, f, ra, s).Running? && PStep(alu, f, ra, s).state.pc == t.pc;
    assert PStep(alu, f, ra, s).state.locals == t.locals;
    assert PStep(alu, f, ra, s).state.file == t.file;
  }

  lemma FirstLapEnds(alu: Alu, f: Function, ra: Allocated, file: File, x: i64, n: nat)
    requires LoopFunction(f) && LoopHomes(ra) && LoadsIts(alu) && 4 <= n < 7
    ensures Executed(alu, f, ra, file, x, n)
  {
    var s, t := ExecutedAt(file, x, n), ExecutedAt(file, x, n + 1);
    LoopTarget(f);
    assert s.pc == VISITS[n] && f.insts[VISITS[n]] == LoopInst(VISITS[n]);
    assert PStep(alu, f, ra, s).Running? && PStep(alu, f, ra, s).state.pc == t.pc;
    assert PStep(alu, f, ra, s).state.locals == t.locals;
    assert PStep(alu, f, ra, s).state.file == t.file;
  }

  lemma SecondLap(alu: Alu, f: Function, ra: Allocated, file: File, x: i64, n: nat)
    requires LoopFunction(f) && LoopHomes(ra) && LoadsIts(alu) && 7 <= n < 10
    ensures Executed(alu, f, ra, file, x, n)
  {
    var s, t := ExecutedAt(file, x, n), ExecutedAt(file, x, n + 1);
    LoopTarget(f);
    assert s.pc == VISITS[n] && f.insts[VISITS[n]] == LoopInst(VISITS[n]);
    assert PStep(alu, f, ra, s).Running? && PStep(alu, f, ra, s).state.pc == t.pc;
    assert PStep(alu, f, ra, s).state.locals == t.locals;
    assert PStep(alu, f, ra, s).state.file == t.file;
  }

  lemma SecondLapEnds(alu: Alu, f: Function, ra: Allocated, file: File, x: i64, n: nat)
    requires LoopFunction(f) && LoopHomes(ra) && LoadsIts(alu) && 10 <= n < 14
    ensures Executed(alu, f, ra, file, x, n)
  {
    var s, t := ExecutedAt(file, x, n), ExecutedAt(file, x, n + 1);
    LoopTarget(f);
    assert s.pc == VISITS[n] && f.insts[VISITS[n]] == LoopInst(VISITS[n]);
    assert PStep(alu, f, ra, s).Running? && PStep(alu, f, ra, s).state.pc == t.pc;
    assert PStep(alu, f, ra, s).state.locals == t.locals;
    assert PStep(alu, f, ra, s).state.file == t.file;
  }

  lemma AllLaps(alu: Alu, f: Function, ra: Allocated, file: File, x: i64, n: nat)
    requires LoopFunction(f) && LoopHomes(ra) && LoadsIts(alu) && n < 14
    ensures Executed(alu, f, ra, file, x, n)
  {
    if n < 4 {
      FirstLap(alu, f, ra, file, x, n);
    } else if n < 7 {
      FirstLapEnds(alu, f, ra, file, x, n);
    } else if n < 10 {
      SecondLap(alu, f, ra, file, x, n);
    } else {
      SecondLapEnds(alu, f, ra, file, x, n);
    }
  }

  lemma RegistersReach(alu: Alu, f: Function, ra: Allocated, file: File, x: i64)
    requires LoopFunction(f) && LoopHomes(ra) && LoadsIts(alu)
    ensures Reaches(PSteps(alu, f, ra), ExecutedAt(file, x, 0), ExecutedAt(file, x, 14))
  {
    var trace := seq(15, n requires 0 <= n < 15 => ExecutedAt(file, x, n));
    forall n | 0 <= n < |trace| - 1 ensures Link(PSteps(alu, f, ra), trace, n) { AllLaps(alu, f, ra, file, x, n); }
    LinksReach(PSteps(alu, f, ra), trace, 14);
  }

  lemma RegistersReturnZero(alu: Alu, f: Function, ra: Allocated, file: File, x: i64)
    requires LoopFunction(f) && LoopHomes(ra) && LoadsIts(alu)
    ensures Ends(PSteps(alu, f, ra), PState(0, file, [x, 0]), Answer(0, [0, 9]))
  {
    RegistersReach(alu, f, ra, file, x);
    assert f.insts[8] == LoopInst(8);
    ReachesThen(PSteps(alu, f, ra), ExecutedAt(file, x, 0), ExecutedAt(file, x, 14));
  }

  // ----- the value carried around the loop is not covered -----

  lemma CarriedUncovered(f: Function)
    requires LoopFunction(f)
    ensures !LoopsCovered(f)
  {
    LoopTarget(f);
    LoopRange(f, 1);
    var read, way := [1, 2], [0, 1, 2, 3, 4, 5, 6];
    forall i: nat | i < 9 ensures f.insts[i] == LoopInst(i) {}
    assert Needs(f, read, 1) by { assert ArcAt(f, read, 0); }
    forall i | 0 <= i < 6 ensures ArcAt(f, way, i) {}
    assert Arrives(f, way, 6);
    assert IsWritten(f, way[0], 1);
    assert !LoopCovered(f, 6, 1);
  }

  lemma LoopRegisters(ext: V.Ext, f: Function, x: i64, file: File)
    requires LoopFunction(f)
    ensures |f.insts| < NEVER && Ends(PSteps(Meaning(ext), f, ScanOf(f)), PState(0, file, [x, 0]), Answer(0, [0, 9]))
  {
    LoopAllocation(f);
    MeaningLoads(ext);
    RegistersReturnZero(Meaning(ext), f, ScanOf(f), file, x);
  }

  /** The interpreter returns 5 and leaves 5 in local 0; the chunk as it is lowered and allocated returns 0. */
  lemma SharingAcrossLoop(ext: V.Ext, p: Program, u: Local, x: i64, file: File)
    requires p == Load(LOOP_BYTES, [IntConst(5), IntConst(9)])
    ensures Lowerable(p) && |Lowered(p).insts| < NEVER && !LoopsCovered(Lowered(p))
    ensures Interprets(p, [u, Int(0)], IAnswer(5, [Int(5), Int(9)]))
    ensures Ends(PSteps(Meaning(ext), Lowered(p), ScanOf(Lowered(p))), PState(0, file, [x, 0]), Answer(0, [0, 9]))
  {
    LoadedLoop();
    LoopLowerable(p);
    LoopLowered(p);
    CarriedUncovered(Lowered(p));
    InterpreterReturnsFive(p, u);
    LoopRegisters(ext, Lowered(p), x, file);
  }
}
