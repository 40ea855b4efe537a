/** The safepoint handshake as an interleaving of the atomic loads and stores of any number of mutators and one
    coordinator that requests and releases safepoints in turn. */
module Safepoint {
  datatype Word = Running | Requested | Safepointed

  /** Where a mutator is: in its own code, about to announce itself, about to count the safepoint, or in the
      wait loop. */
  datatype MutatorPc = Outside | Announcing | Counting | Parked

  datatype Mutator = Mutator(word: Word, pc: MutatorPc, count: nat)

  /** Where the coordinator is, with the index of the mutator it is at. The first `n` of Holding were registered
      when the request was made. */
  datatype Coordinator = Idle | Requesting(i: nat) | Polling(j: nat) | Holding(n: nat) | Releasing(k: nat)

  datatype World = World(mutators: seq<Mutator>, coordinator: Coordinator)

  /** The manager's lock is free between the calls. */
  predicate Unlocked(c: Coordinator) { c.Idle? || c.Holding? }

  predicate InRequest(c: Coordinator) { c.Requesting? || c.Polling? }

  /** The mutator that a request is at. */
  function At(c: Coordinator): nat
    requires InRequest(c)
  {
    match c case Requesting(i) => i case Polling(j) => j
  }

  datatype Step = Act(m: nat) | Coordinate | Register | Unregister(u: nat)

  // ----- one atomic step -----

  function ActStep(m: Mutator): Mutator {
    match m.pc
    case Outside => if m.word == Requested then m.(pc := Announcing) else m
    case Announcing => m.(word := Safepointed, pc := Counting)
    case Counting => m.(count := m.count + 1, pc := Parked)
    case Parked => if m.word == Running then m.(pc := Outside) else m
  }

  function CoordinateStep(w: World): World {
    var n := |w.mutators|;
    match w.coordinator
    case Idle => w.(coordinator := Requesting(0))
    case Requesting(i) =>
      if i < n then World(w.mutators[i := w.mutators[i].(word := Requested)], Requesting(i + 1))
          else w.(coordinator := Polling(0))
    case Polling(j) =>
      if j >= n then w.(coordinator := Holding(n))
      else if w.mutators[j].word == Safepointed then w.(coordinator := Polling(j + 1))
      else w
    case Holding(_) => w.(coordinator := Releasing(0))
    case Releasing(k) =>
      if k < n then World(w.mutators[k := w.mutators[k].(word := Running)], Releasing(k + 1))
          else w.(coordinator := Idle)
  }

  /** Registration takes the lock; only a thread that is in its own code can unregister itself. */
  predicate Enabled(w: World, s: Step) {
    match s
    case Act(m) => m < |w.mutators|
    case Coordinate => true
    case Register => Unlocked(w.coordinator)
    case Unregister(u) => Unlocked(w.coordinator) && u < |w.mutators| && w.mutators[u].pc == Outside
  }

  function Next(w: World, s: Step): World
    requires Enabled(w, s)
  {
    match s
    case Act(m) => w.(mutators := w.mutators[m := ActStep(w.mutators[m])])
    case Coordinate => CoordinateStep(w)
    case Register => w.(mutators := w.mutators + [Mutator(Running, Outside, 0)])
    case Unregister(u) =>
      World(w.mutators[..u] + w.mutators[u + 1..],
            if w.coordinator.Holding? && u < w.coordinator.n then Holding(w.coordinator.n - 1) else w.coordinator)
  }

  // ----- the invariant -----

  /** A mutator's word never claims a stop that has not happened. */
  predicate WordOk(m: Mutator) {
    && (m.word == Safepointed ==> m.pc == Counting || m.pc == Parked)
    && (m.pc == Announcing ==> m.word == Requested)
  }

  /** Which words mutator i can have while the coordinator is where it is. */
  predicate PhaseOk(c: Coordinator, i: nat, word: Word) {
    match c
    case Idle => word == Running
    case Requesting(k) => if i < k then word != Running else word == Running
    case Polling(k) => if i < k then word == Safepointed else word != Running
    case Holding(n) => if i < n then word == Safepointed else word == Running
    case Releasing(k) => i < k ==> word == Running
  }

  predicate MutatorOk(c: Coordinator, i: nat, m: Mutator) { WordOk(m) && PhaseOk(c, i, m.word) }

  ghost predicate Inv(w: World) {
    && (forall i {:trigger w.mutators[i]} :: 0 <= i < |w.mutators| ==> MutatorOk(w.coordinator, i, w.mutators[i]))
    && (w.coordinator.Holding? ==> w.coordinator.n <= |w.mutators|)
    && (InRequest(w.coordinator) ==> At(w.coordinator) <= |w.mutators|)
    && (w.coordinator.Releasing? ==> forall i :: w.coordinator.k <= i < |w.mutators| ==>
        w.mutators[i].word != Requested)
  }

  lemma StepKeepsInv(w: World, s: Step)
    requires Inv(w) && Enabled(w, s)
    ensures Inv(Next(w, s))
  {
    var t := Next(w, s);
    if s.Unregister? {
      forall i | 0 <= i < |t.mutators| ensures MutatorOk(t.coordinator, i, t.mutators[i]) {
        var j := if i < s.u then i else i + 1;
        assert t.mutators[i] == w.mutators[j];
        assert MutatorOk(w.coordinator, j, w.mutators[j]) && MutatorOk(w.coordinator, s.u, w.mutators[s.u]);
      }
      if t.coordinator.Holding? { assert MutatorOk(w.coordinator, s.u, w.mutators[s.u]); }
    } else {
      forall i | 0 <= i < |t.mutators| ensures MutatorOk(t.coordinator, i, t.mutators[i]) {
        if i < |w.mutators| { assert MutatorOk(w.coordinator, i, w.mutators[i]); }
      }
    }
  }

  // ----- over whole runs -----

  predicate Runs(w: World, steps: seq<Step>)
    decreases |steps|
  {
    |steps| == 0 || (Enabled(w, steps[0]) && Runs(Next(w, steps[0]), steps[1..]))
  }

  function After(w: World, steps: seq<Step>): World
    requires Runs(w, steps)
    decreases |steps|
  {
    if |steps| == 0 then w else After(Next(w, steps[0]), steps[1..])
  }

  const START: World := World([], Idle)

  lemma {:induction false} RunKeepsInv(w: World, steps: seq<Step>)
    requires Inv(w) && Runs(w, steps)
    ensures Inv(After(w, steps))
    decreases |steps|
  {
    if |steps| > 0 {
      StepKeepsInv(w, steps[0]);
      RunKeepsInv(Next(w, steps[0]), steps[1..]);
    }
  }

  /** Between the return of the request and the start of the release, every mutator that was registered when the
      request was made is inside its safepoint check, stopped: in every interleaving. */
  lemma MutualExclusion(steps: seq<Step>)
    requires Runs(START, steps) && After(START, steps).coordinator.Holding?
    ensures var w := After(START, steps);
      w.coordinator.n <= |w.mutators|
      && forall i :: 0 <= i < w.coordinator.n ==>
          w.mutators[i].word == Safepointed
          && w.mutators[i].pc in {Counting, Parked}
  {
    RunKeepsInv(START, steps);
  }

  /** And it stays there: no step of its own takes a stopped mutator back to its code before the release. */
  lemma StoppedStays(w: World, s: Step)
    requires Inv(w) && Enabled(w, s) && w.coordinator.Holding? && Next(w, s).coordinator.Holding?
    ensures var t := Next(w, s);
      t.coordinator.n == w.coordinator.n && forall i :: 0 <= i < w.coordinator.n ==>
          i < |t.mutators| && t.mutators[i].pc in {Counting, Parked}
  {
    StepKeepsInv(w, s);
    if s.Unregister? { assert MutatorOk(w.coordinator, s.u, w.mutators[s.u]); }
  }

  // ----- when a request returns -----

  predicate Waits(m: Mutator) { m.pc == Counting || m.pc == Parked }

  /** A mutator that has not yet left its safepoint check when the next request comes waits there for a release, while
      the coordinator waits for it to announce itself. */
  predicate LostWakeup(w: World, m: nat) {
    && m < |w.mutators| && Waits(w.mutators[m]) && w.mutators[m].word == Requested
    && (match w.coordinator case Requesting(i) => i > m case Polling(j) => j <= m case _ => false)
  }

  /** Once that has happened, no step of anyone ever undoes it: the request never returns. */
  lemma {:induction false} LostWakeupForever(w: World, m: nat, steps: seq<Step>)
    requires LostWakeup(w, m) && Runs(w, steps)
    ensures LostWakeup(After(w, steps), m)
    decreases |steps|
  {
    if |steps| > 0 { LostWakeupForever(Next(w, steps[0]), m, steps[1..]); }
  }

  /** Some continuation gets to where the request has returned. */
  ghost predicate CanHold(w: World) {
    exists steps :: HoldsAfter(w, steps)
  }

  ghost predicate HoldsAfter(w: World, steps: seq<Step>) {
    Runs(w, steps) && After(w, steps).coordinator.Holding?
  }

  ghost predicate NoneLost(w: World) {
    forall m: nat {:trigger LostWakeup(w, m)} :: !LostWakeup(w, m)
  }

  /** What takes the request further: a mutator about to be asked first leaves its last check, and one that is
      waited for announces itself. */
  function Helpful(w: World): Step
    requires InRequest(w.coordinator)
  {
    match w.coordinator
    case Requesting(i) => if i < |w.mutators| && Waits(w.mutators[i]) then Act(i) else Coordinate
    case Polling(j) => if j < |w.mutators| && w.mutators[j].word != Safepointed then Act(j) else Coordinate
  }

  /** How many steps of mutator m it takes until it is in its own code, or until it has announced itself. */
  function StepsLeft(c: Coordinator, m: Mutator): nat {
    if c.Requesting? then (match m.pc case Counting => 2 case Parked => 1 case _ => 0)
    else if m.word == Safepointed then 0
    else (match m.pc case Outside => 2 case _ => 1)
  }

  /** How far the request is from its return. */
  function Distance(w: World): nat
    requires InRequest(w.coordinator)
  {
    var n, i := |w.mutators|, At(w.coordinator);
    (if w.coordinator.Requesting? then 4 * n + 4 else 0) + if i < n then
        4 * (n - i) + StepsLeft(w.coordinator, w.mutators[i]) else 0
  }

  lemma HelpfulStep(w: World)
    requires Inv(w) && InRequest(w.coordinator) && NoneLost(w)
    ensures Enabled(w, Helpful(w))
    ensures var t := Next(w, Helpful(w));
      Inv(t) && (t.coordinator.Holding? || (InRequest(t.coordinator) && NoneLost(t) && Distance(t) < Distance(w)))
  {
    var s, i := Helpful(w), At(w.coordinator);
    StepKeepsInv(w, s);
    if i < |w.mutators| { assert MutatorOk(w.coordinator, i, w.mutators[i]) && !LostWakeup(w, i); }
    forall m: nat ensures !LostWakeup(Next(w, s), m) { assert !LostWakeup(w, m); }
  }

  lemma HoldsLater(w: World, s: Step, rest: seq<Step>)
    requires Enabled(w, s) && HoldsAfter(Next(w, s), rest)
    ensures HoldsAfter(w, [s] + rest)
  {
    assert ([s] + rest)[1..] == rest;
  }

  lemma {:induction false} HelpfulRun(w: World) returns (steps: seq<Step>)
    requires Inv(w) && InRequest(w.coordinator) && NoneLost(w)
    ensures HoldsAfter(w, steps)
    decreases Distance(w)
  {
    HelpfulStep(w);
    var t, rest := Next(w, Helpful(w)), [];
    if !t.coordinator.Holding? { rest := HelpfulRun(t); }
    HoldsLater(w, Helpful(w), rest);
    steps := [Helpful(w)] + rest;
  }

  /** A request under way can still return if and only if no wakeup has been lost. */
  lemma CanHoldIff(w: World)
    requires Inv(w) && InRequest(w.coordinator)
    ensures CanHold(w) <==> NoneLost(w)
  {
    if NoneLost(w) {
      var steps := HelpfulRun(w);
    } else {
      var m: nat :| LostWakeup(w, m);
      forall steps | Runs(w, steps) ensures !HoldsAfter(w, steps) { LostWakeupForever(w, m, steps); }
    }
  }

  // ----- which requests are safe to make -----

  /** The run stays between the last release and the next return of a request. */
  predicate NextRequest(w: World, steps: seq<Step>)
    decreases |steps|
  {
    && (w.coordinator.Idle? || InRequest(w.coordinator))
    && (|steps| == 0 || (Enabled(w, steps[0]) && NextRequest(Next(w, steps[0]), steps[1..])))
  }

  /** Nobody is in a check who has not been asked by this request. */
  predicate Fresh(m: Mutator) { Waits(m) ==> m.word == Safepointed }

  ghost predicate AllFresh(w: World) {
    forall i {:trigger w.mutators[i]} :: 0 <= i < |w.mutators| ==> Fresh(w.mutators[i])
  }

  lemma StepKeepsFresh(w: World, s: Step)
    requires Inv(w) && AllFresh(w) && Enabled(w, s) && (w.coordinator.Idle? || InRequest(w.coordinator))
    ensures AllFresh(Next(w, s))
  {
    var t := Next(w, s);
    forall i | 0 <= i < |t.mutators| ensures Fresh(t.mutators[i]) {
      var j := if s.Unregister? && i >= s.u then i + 1 else i;
      if j < |w.mutators| { assert MutatorOk(w.coordinator, j, w.mutators[j]); }
    }
  }

  lemma {:induction false} FreshRun(w: World, steps: seq<Step>)
    requires Inv(w) && AllFresh(w) && NextRequest(w, steps)
    ensures Runs(w, steps) && Inv(After(w, steps)) && AllFresh(After(w, steps))
    decreases |steps|
  {
    if |steps| > 0 {
      StepKeepsInv(w, steps[0]);
      StepKeepsFresh(w, steps[0]);
      FreshRun(Next(w, steps[0]), steps[1..]);
    }
  }

  lemma {:induction false} NextRequestRuns(w: World, steps: seq<Step>)
    requires NextRequest(w, steps)
    ensures Runs(w, steps)
    decreases |steps|
  {
    if |steps| > 0 { NextRequestRuns(Next(w, steps[0]), steps[1..]); }
  }

  /** The coordinator alone: it asks the mutators up to m. */
  lemma {:induction false} AskUpTo(w: World, m: nat) returns (steps: seq<Step>)
    requires m < |w.mutators| && Waits(w.mutators[m])
    requires w.coordinator.Requesting? && w.coordinator.i <= m
    ensures NextRequest(w, steps) && Runs(w, steps) && LostWakeup(After(w, steps), m)
    decreases m - w.coordinator.i
  {
    var t := Next(w, Coordinate);
    var rest := [];
    if w.coordinator.i < m { rest := AskUpTo(t, m); }
    steps := [Coordinate] + rest;
    assert steps[1..] == rest;
  }

  /** The next request gets stuck after these steps: it is under way, and nothing that anyone does lets it return. */
  ghost predicate GetsStuck(w: World, steps: seq<Step>) {
    && NextRequest(w, steps) && Runs(w, steps)
    && InRequest(After(w, steps).coordinator) && !CanHold(After(w, steps))
  }

  /** Between requests: the next one can get stuck if and only if some mutator is still in its safepoint check. */
  lemma NextRequestIff(w: World)
    requires Inv(w) && w.coordinator.Idle?
    ensures (exists steps :: GetsStuck(w, steps)) <==> exists m :: 0 <= m < |w.mutators| && w.mutators[m].pc != Outside
  {
    if m :| 0 <= m < |w.mutators| && w.mutators[m].pc != Outside {
      assert MutatorOk(w.coordinator, m, w.mutators[m]);
      var rest := AskUpTo(Next(w, Coordinate), m);
      var steps := [Coordinate] + rest;
      assert steps[1..] == rest;
      RunKeepsInv(w, steps);
      CanHoldIff(After(w, steps));
      assert GetsStuck(w, steps);
    } else {
      forall steps | NextRequest(w, steps) ensures !GetsStuck(w, steps) {
        FreshRun(w, steps);
        if InRequest(After(w, steps).coordinator) { FreshNotLost(After(w, steps)); }
      }
    }
  }

  lemma FreshNotLost(w: World)
    requires Inv(w) && AllFresh(w) && InRequest(w.coordinator)
    ensures CanHold(w)
  {
    forall m: nat ensures !LostWakeup(w, m) {}
    CanHoldIff(w);
  }

  // ----- and a request does get stuck -----

  ghost predicate Reachable(t: World) {
    exists steps :: Runs(START, steps) && After(START, steps) == t
  }

  lemma {:induction false} RunMore(w: World, steps: seq<Step>, s: Step)
    requires Runs(w, steps) && Enabled(After(w, steps), s)
    ensures Runs(w, steps + [s]) && After(w, steps + [s]) == Next(After(w, steps), s)
    decreases |steps|
  {
    if |steps| > 0 {
      assert (steps + [s])[1..] == steps[1..] + [s];
      RunMore(Next(w, steps[0]), steps[1..], s);
    } else {
      assert [s][1..] == [];
    }
  }

  lemma ReachNext(w: World, s: Step, t: World)
    requires Reachable(w) && Enabled(w, s) && Next(w, s) == t
    ensures Reachable(t)
  {
    var steps :| Runs(START, steps) && After(START, steps) == w;
    RunMore(START, steps, s);
  }

  function One(word: Word, pc: MutatorPc, count: nat, c: Coordinator): World { World([Mutator(word, pc, count)], c) }

  /** With one mutator: it announces itself during a first request and stops. */
  lemma FirstRequest()
    ensures Reachable(One(Safepointed, Parked, 1, Requesting(1)))
  {
    assert Runs(START, []) && After(START, []) == START;
    ReachNext(START, Register, One(Running, Outside, 0, Idle));
    ReachNext(One(Running, Outside, 0, Idle), Coordinate, One(Running, Outside, 0, Requesting(0)));
    ReachNext(One(Running, Outside, 0, Requesting(0)), Coordinate, One(Requested, Outside, 0, Requesting(1)));
    ReachNext(One(Requested, Outside, 0, Requesting(1)), Act(0), One(Requested, Announcing, 0, Requesting(1)));
    ReachNext(One(Requested, Announcing, 0, Requesting(1)), Act(0), One(Safepointed, Counting, 0, Requesting(1)));
    ReachNext(One(Safepointed, Counting, 0, Requesting(1)), Act(0), One(Safepointed, Parked, 1, Requesting(1)));
  }

  /** Released, it is still in the wait loop when the next request overwrites its word. */
  lemma LostWakeupReachable()
    ensures exists w :: Reachable(w) && LostWakeup(w, 0)
  {
    FirstRequest();
    ReachNext(One(Safepointed, Parked, 1, Requesting(1)), Coordinate, One(Safepointed, Parked, 1, Polling(0)));
    ReachNext(One(Safepointed, Parked, 1, Polling(0)), Coordinate, One(Safepointed, Parked, 1, Polling(1)));
    ReachNext(One(Safepointed, Parked, 1, Polling(1)), Coordinate, One(Safepointed, Parked, 1, Holding(1)));
    ReachNext(One(Safepointed, Parked, 1, Holding(1)), Coordinate, One(Safepointed, Parked, 1, Releasing(0)));
    ReachNext(One(Safepointed, Parked, 1, Releasing(0)), Coordinate, One(Running, Parked, 1, Releasing(1)));
    ReachNext(One(Running, Parked, 1, Releasing(1)), Coordinate, One(Running, Parked, 1, Idle));
    ReachNext(One(Running, Parked, 1, Idle), Coordinate, One(Running, Parked, 1, Requesting(0)));
    ReachNext(One(Running, Parked, 1, Requesting(0)), Coordinate, One(Requested, Parked, 1, Requesting(1)));
    assert LostWakeup(One(Requested, Parked, 1, Requesting(1)), 0);
  }
}
