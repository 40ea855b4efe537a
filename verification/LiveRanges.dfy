/** Where a register's value may still be needed, path by path, and exactly which functions the live intervals in
    program order are right for. */
module LiveRanges {
  import opened Tier1
  import opened Liveness

  function First(f: Function, v: nat): nat { FirstDef(f.insts, |f.insts|, v) }

  function Last(f: Function, v: nat): nat { LastUse(f.insts, |f.insts|, v) }

  // ----- paths -----

  /** Control can pass from p to q. */
  predicate Arc(f: Function, p: nat, q: nat) {
    && p < |f.insts|
    && ((q == p + 1 && f.insts[p].op !in {Return, Halt, Jump})
        || (IsJump(f.insts[p].op) && q == Target(f.insts, f.insts[p].payload)))
  }

  predicate IsRead(f: Function, p: nat, v: nat) {
    p < |f.insts| && ((Reads1(f.insts[p].op) && f.insts[p].src1 == v)
        || (Reads2(f.insts[p].op) && f.insts[p].src2 == v))
  }

  predicate IsWritten(f: Function, p: nat, v: nat) {
    p < |f.insts| && Writes(f.insts[p]) && f.insts[p].dst == v
  }

  ghost predicate IsPath(f: Function, path: seq<nat>) {
    |path| > 0 && forall i {:trigger ArcAt(f, path, i)} :: 0 <= i < |path| - 1 ==> ArcAt(f, path, i)
  }

  predicate ArcAt(f: Function, path: seq<nat>, i: nat)
    requires i + 1 < |path|
  {
    Arc(f, path[i], path[i + 1])
  }

  /** The path leads to a read of v and does not write v before. */
  ghost predicate Needs(f: Function, path: seq<nat>, v: nat) {
    IsPath(f, path) && IsRead(f, path[|path| - 1], v) && forall i :: 0 <= i < |path| - 1 ==> !IsWritten(f, path[i], v)
  }

  /** Some path from pc reads v before writing it. */
  ghost predicate Live(f: Function, v: nat, pc: nat) {
    exists path :: Needs(f, path, v) && path[0] == pc
  }

  ghost predicate Arrives(f: Function, path: seq<nat>, pc: nat) {
    IsPath(f, path) && path[0] == 0 && path[|path| - 1] == pc
  }

  ghost predicate Reachable(f: Function, pc: nat) {
    exists path :: Arrives(f, path, pc)
  }

  ghost predicate WrittenOn(f: Function, path: seq<nat>, v: nat) {
    exists i :: 0 <= i < |path| - 1 && IsWritten(f, path[i], v)
  }

  /** Some path from the entry to pc writes v. */
  ghost predicate Assigned(f: Function, v: nat, pc: nat) {
    exists path :: Arrives(f, path, pc) && WrittenOn(f, path, v)
  }

  // ----- one arc more -----

  lemma LiveBefore(f: Function, v: nat, p: nat, q: nat)
    requires Arc(f, p, q) && Live(f, v, q) && !IsWritten(f, p, v)
    ensures Live(f, v, p)
  {
    var path :| Needs(f, path, v) && path[0] == q;
    var longer := [p] + path;
    forall i | 0 <= i < |longer| - 1 ensures ArcAt(f, longer, i) && !IsWritten(f, longer[i], v) {
      if i > 0 { assert longer[i] == path[i - 1] && longer[i + 1] == path[i] && ArcAt(f, path, i - 1); }
    }
    assert Needs(f, longer, v);
  }

  lemma LiveAtRead(f: Function, v: nat, p: nat)
    requires IsRead(f, p, v)
    ensures Live(f, v, p)
  {
    assert Needs(f, [p], v);
  }

  lemma PathMore(f: Function, path: seq<nat>, q: nat)
    requires IsPath(f, path) && Arc(f, path[|path| - 1], q)
    ensures IsPath(f, path + [q])
  {
    var longer := path + [q];
    forall i | 0 <= i < |longer| - 1 ensures ArcAt(f, longer, i) {
      if i < |path| - 1 { assert ArcAt(f, path, i); }
    }
  }

  lemma ReachableAfter(f: Function, p: nat, q: nat)
    requires Reachable(f, p) && Arc(f, p, q)
    ensures Reachable(f, q)
    ensures forall v :: IsWritten(f, p, v) || Assigned(f, v, p) ==> Assigned(f, v, q)
  {
    var path :| Arrives(f, path, p);
    PathMore(f, path, q);
    assert Arrives(f, path + [q], q);
    forall v | IsWritten(f, p, v) || Assigned(f, v, p) ensures Assigned(f, v, q) {
      if IsWritten(f, p, v) {
        assert (path + [q])[|path| - 1] == p;
        assert WrittenOn(f, path + [q], v);
      } else {
        var way :| Arrives(f, way, p) && WrittenOn(f, way, v);
        PathMore(f, way, q);
        var i :| 0 <= i < |way| - 1 && IsWritten(f, way[i], v);
        assert (way + [q])[i] == way[i];
        assert Arrives(f, way + [q], q) && WrittenOn(f, way + [q], v);
      }
    }
  }

  lemma ReachableStart(f: Function)
    ensures Reachable(f, 0)
  {
    assert Arrives(f, [0], 0);
  }

  // ----- what the intervals must cover -----

  /** Wherever v has been assigned on some path and may still be read on some path, its interval is in force. */
  ghost predicate Covers(f: Function) {
    forall v: nat, pc: nat {:trigger CoversAt(f, v, pc)} :: CoversAt(f, v, pc)
  }

  ghost predicate CoversAt(f: Function, v: nat, pc: nat) {
    Live(f, v, pc) && Assigned(f, v, pc) ==> First(f, v) < pc <= Last(f, v)
  }

  /** Registers that matter after a backward jump were first defined before its target, and are mentioned at the
      jump or after it. */
  ghost predicate LoopsCovered(f: Function) {
    forall j: nat, v: nat {:trigger LoopCovered(f, j, v)} :: LoopCovered(f, j, v)
  }

  ghost predicate LoopCovered(f: Function, j: nat, v: nat) {
    j < |f.insts| && IsJump(f.insts[j].op) ==>
      var k := Target(f.insts, f.insts[j].payload);
      k <= j && Live(f, v, k) && Assigned(f, v, j) ==> First(f, v) < k && j <= Last(f, v)
  }

  ghost predicate ForwardOnly(f: Function) {
    forall j: nat :: j < |f.insts| && IsJump(f.insts[j].op) ==> j < Target(f.insts, f.insts[j].payload)
  }

  lemma JumpsWriteNothing(f: Function, p: nat, v: nat)
    requires p < |f.insts| && IsJump(f.insts[p].op)
    ensures !IsWritten(f, p, v)
  {
  }

  lemma AssignedReachable(f: Function, v: nat, pc: nat)
    requires Assigned(f, v, pc)
    ensures Reachable(f, pc)
  {
    var path :| Arrives(f, path, pc) && WrittenOn(f, path, v);
  }

  /** From where v was assigned, along a path that needs it: its interval has not ended. */
  lemma {:induction false} NotEnded(f: Function, path: seq<nat>, v: nat)
    requires LoopsCovered(f) && Needs(f, path, v) && Assigned(f, v, path[0])
    ensures path[0] <= Last(f, v)
    decreases |path|
  {
    var p := path[0];
    if |path| == 1 {
      LastUseIs(f.insts, |f.insts|, v);
    } else {
      var q, rest := path[1], path[1..];
      assert ArcAt(f, path, 0);
      forall i | 0 <= i < |rest| - 1 ensures ArcAt(f, rest, i) && !IsWritten(f, rest[i], v) {
        assert ArcAt(f, path, i + 1);
      }
      assert Needs(f, rest, v) && Live(f, v, q);
      AssignedReachable(f, v, p);
      ReachableAfter(f, p, q);
      NotEnded(f, rest, v);
      if q <= p { assert LoopCovered(f, p, v); }
    }
  }

  lemma PathFront(f: Function, path: seq<nat>, v: nat)
    requires IsPath(f, path) && |path| > 1
    ensures Arc(f, path[|path| - 2], path[|path| - 1]) && IsPath(f, path[..|path| - 1])
    ensures WrittenOn(f, path, v) && !IsWritten(f, path[|path| - 2], v) ==> WrittenOn(f, path[..|path| - 1], v)
  {
    var front := path[..|path| - 1];
    assert ArcAt(f, path, |path| - 2);
    forall j | 0 <= j < |front| - 1 ensures ArcAt(f, front, j) { assert ArcAt(f, path, j); }
    if WrittenOn(f, path, v) && !IsWritten(f, path[|path| - 2], v) {
      var i :| 0 <= i < |path| - 1 && IsWritten(f, path[i], v);
      assert i < |front| - 1 && front[i] == path[i];
    }
  }

  /** Along a path from the entry: once v has been assigned and while it is needed, its interval has begun. */
  lemma {:induction false} Begun(f: Function, path: seq<nat>, v: nat)
    requires LoopsCovered(f) && |f.insts| < NEVER && IsPath(f, path) && path[0] == 0 && WrittenOn(f, path, v)
    requires Live(f, v, path[|path| - 1])
    ensures First(f, v) < path[|path| - 1]
    decreases |path|
  {
    var p, q, front := path[|path| - 2], path[|path| - 1], path[..|path| - 1];
    PathFront(f, path, v);
    FirstDefIs(f.insts, |f.insts|, v);
    if !IsWritten(f, p, v) {
      LiveBefore(f, v, p, q);
      Begun(f, front, v);
      assert Arrives(f, front, p) && Assigned(f, v, p);
      if q <= p { assert LoopCovered(f, p, v); }
    }
  }

  /** The intervals cover every path if and only if they cover what is carried around by backward jumps. */
  lemma CoversIff(f: Function)
    requires |f.insts| < NEVER
    ensures Covers(f) <==> LoopsCovered(f)
  {
    if LoopsCovered(f) {
      forall v: nat, pc: nat ensures CoversAt(f, v, pc) {
        if Live(f, v, pc) && Assigned(f, v, pc) {
          var path :| Needs(f, path, v) && path[0] == pc;
          NotEnded(f, path, v);
          var way :| Arrives(f, way, pc) && WrittenOn(f, way, v);
          Begun(f, way, v);
        }
      }
    }
    if Covers(f) {
      forall j: nat, v: nat ensures LoopCovered(f, j, v) {
        if j < |f.insts| && IsJump(f.insts[j].op) { CoveredJump(f, j, v); }
      }
    }
  }

  lemma CoveredJump(f: Function, j: nat, v: nat)
    requires Covers(f) && j < |f.insts| && IsJump(f.insts[j].op)
    ensures LoopCovered(f, j, v)
  {
    var k := Target(f.insts, f.insts[j].payload);
    if k <= j && Live(f, v, k) && Assigned(f, v, j) {
      AssignedReachable(f, v, j);
      ReachableAfter(f, j, k);
      JumpsWriteNothing(f, j, v);
      LiveBefore(f, v, j, k);
      assert CoversAt(f, v, j) && CoversAt(f, v, k);
    }
  }

  lemma ForwardCovered(f: Function)
    requires ForwardOnly(f)
    ensures LoopsCovered(f)
  {
  }
}
