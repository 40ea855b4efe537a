/** Live intervals of virtual registers: from the first definition to the last mention, in program order. */
module Liveness {
  import opened Tier1

  /** No definition: the 32-bit all-ones index. */
  const NEVER: nat := 0xFFFF_FFFF

  predicate Mentions(i: Inst, v: nat) {
    i.dst == v || i.src1 == v || i.src2 == v
  }

  /** The first definition of v among the first n instructions. */
  function FirstDef(insts: seq<Inst>, n: nat, v: nat): nat
    requires n <= |insts|
  {
    if n == 0 then NEVER
    else
      var r := FirstDef(insts, n - 1, v);
      if r == NEVER && insts[n - 1].dst == v then n - 1 else r
  }

  /** The last mention of v among the first n instructions, 0 if there is none. */
  function LastUse(insts: seq<Inst>, n: nat, v: nat): nat
    requires n <= |insts|
  {
    if n == 0 then 0 else if Mentions(insts[n - 1], v) then n - 1 else LastUse(insts, n - 1, v)
  }

  lemma {:induction false} FirstDefIs(insts: seq<Inst>, n: nat, v: nat)
    requires n <= |insts| < NEVER
    ensures var d := FirstDef(insts, n, v);
      && (d == NEVER || (d < n && insts[d].dst == v))
      && forall j :: 0 <= j < n && insts[j].dst == v ==> d <= j
  {
    if n > 0 { FirstDefIs(insts, n - 1, v); }
  }

  lemma {:induction false} LastUseIs(insts: seq<Inst>, n: nat, v: nat)
    requires n <= |insts|
    ensures forall j :: 0 <= j < n && Mentions(insts[j], v) ==> j <= LastUse(insts, n, v)
    ensures LastUse(insts, n, v) == 0 || (LastUse(insts, n, v) < n && Mentions(insts[LastUse(insts, n, v)], v))
  {
    if n > 0 { LastUseIs(insts, n - 1, v); }
  }

  // ----- intervals in order of their starts -----

  datatype Interval = Interval(vreg: nat, start: nat, end: nat)

  predicate Overlap(a: Interval, b: Interval) {
    a.start <= b.end && b.start <= a.end
  }

  function IntervalOf(f: Function, v: nat): Interval {
    Interval(v, FirstDef(f.insts, |f.insts|, v), LastUse(f.insts, |f.insts|, v))
  }

  predicate Defined(f: Function, v: nat) {
    0 < v <= f.vregCount && FirstDef(f.insts, |f.insts|, v) != NEVER
  }

  /** The defined registers' intervals, each once, by ascending start. */
  ghost predicate InOrder(ivs: seq<Interval>) {
    forall i, j :: 0 <= i < j < |ivs| ==> ivs[i].start < ivs[j].start && ivs[i].vreg != ivs[j].vreg
  }

  ghost predicate IntervalsOf(f: Function, ivs: seq<Interval>) {
    && InOrder(ivs)
    && (forall i :: 0 <= i < |ivs| ==> Defined(f, ivs[i].vreg) && ivs[i] == IntervalOf(f, ivs[i].vreg))
    && (forall v {:trigger Defined(f, v)} :: Defined(f, v) ==> IntervalOf(f, v) in ivs)
  }

  function Insert(x: Interval, s: seq<Interval>): seq<Interval> {
    if |s| == 0 || x.start <= s[0].start then [x] + s else [s[0]] + Insert(x, s[1..])
  }

  function SortByStart(s: seq<Interval>): seq<Interval> {
    if |s| == 0 then [] else Insert(s[0], SortByStart(s[1..]))
  }

  lemma {:induction false} InsertMembers(x: Interval, s: seq<Interval>)
    ensures forall y :: y in Insert(x, s) <==> y == x || y in s
  {
    if |s| == 0 || x.start <= s[0].start {
    } else {
      InsertMembers(x, s[1..]);
      assert s == [s[0]] + s[1..];
    }
  }

  lemma {:induction false} InsertInOrder(x: Interval, s: seq<Interval>)
    requires InOrder(s) && forall y :: y in s ==> y.start != x.start && y.vreg != x.vreg
    ensures InOrder(Insert(x, s))
  {
    if |s| == 0 {
    } else if x.start <= s[0].start {
      assert s[0] in s;
      assert forall j :: 0 <= j < |s| ==> s[j] in s;
    } else {
      InsertInOrder(x, s[1..]);
      InsertMembers(x, s[1..]);
      var r, t := Insert(x, s), Insert(x, s[1..]);
      forall i, j | 0 <= i < j < |r| ensures r[i].start < r[j].start && r[i].vreg != r[j].vreg {
        assert r[j] == t[j - 1] && t[j - 1] in t;
        if i > 0 { assert r[i] == t[i - 1]; } else { assert s[0] in s; }
      }
    }
  }

  /** Registers have distinct first definitions, so sorting yields a strict order. */
  ghost predicate Distinct(s: seq<Interval>) {
    forall i, j :: 0 <= i < j < |s| ==> s[i].start != s[j].start && s[i].vreg != s[j].vreg
  }

  lemma {:induction false} SortMembers(s: seq<Interval>)
    ensures forall y :: y in SortByStart(s) <==> y in s
  {
    if |s| > 0 {
      SortMembers(s[1..]);
      InsertMembers(s[0], SortByStart(s[1..]));
      assert s == [s[0]] + s[1..];
    }
  }

  lemma {:induction false} SortInOrder(s: seq<Interval>)
    requires Distinct(s)
    ensures InOrder(SortByStart(s))
  {
    if |s| > 0 {
      assert Distinct(s[1..]);
      SortInOrder(s[1..]);
      SortMembers(s[1..]);
      forall y | y in SortByStart(s[1..]) ensures y.start != s[0].start && y.vreg != s[0].vreg {
        assert y in s[1..];
        var j :| 0 <= j < |s[1..]| && s[1..][j] == y;
        assert s[j + 1] == y;
      }
      InsertInOrder(s[0], SortByStart(s[1..]));
    }
  }

  /** The intervals of the defined registers below n. */
  function Found(f: Function, n: nat): seq<Interval> {
    if n <= 1 then [] else Found(f, n - 1) + if Defined(f, n - 1) then [IntervalOf(f, n - 1)] else []
  }

  function Intervals(f: Function): seq<Interval> { SortByStart(Found(f, f.vregCount + 1)) }

  // ----- computing them -----

  method ComputeLiveness(f: Function) returns (firstDef: seq<nat>, lastUse: seq<nat>)
    requires |f.insts| < NEVER
    ensures |firstDef| == |lastUse| == f.vregCount + 1
    ensures forall v :: 0 < v <= f.vregCount ==> firstDef[v] == FirstDef(f.insts, |f.insts|, v)
    ensures forall v :: 0 < v <= f.vregCount ==> lastUse[v] == LastUse(f.insts, |f.insts|, v)
  {
    firstDef := seq(f.vregCount + 1, _ => NEVER);
    lastUse := seq(f.vregCount + 1, _ => 0);
    for i := 0 to |f.insts|
      invariant |firstDef| == |lastUse| == f.vregCount + 1
      invariant forall v :: 0 < v <= f.vregCount ==> firstDef[v] == FirstDef(f.insts, i, v)
      invariant forall v :: 0 < v <= f.vregCount ==> lastUse[v] == LastUse(f.insts, i, v)
    {
      var inst := f.insts[i];
      forall v | 0 < v <= f.vregCount ensures LastUse(f.insts, i, v) <= i { LastUseIs(f.insts, i, v); }
      if inst.dst != 0 && inst.dst <= f.vregCount {
        if firstDef[inst.dst] == NEVER { firstDef := firstDef[inst.dst := i]; }
        lastUse := lastUse[inst.dst := if lastUse[inst.dst] < i then i else lastUse[inst.dst]];
      }
      if inst.src1 != 0 && inst.src1 <= f.vregCount {
        lastUse := lastUse[inst.src1 := if lastUse[inst.src1] < i then i else lastUse[inst.src1]];
      }
      if inst.src2 != 0 && inst.src2 <= f.vregCount {
        lastUse := lastUse[inst.src2 := if lastUse[inst.src2] < i then i else lastUse[inst.src2]];
      }
    }
  }

  lemma DistinctStarts(f: Function, found: seq<Interval>)
    requires |f.insts| < NEVER
    requires forall i :: 0 <= i < |found| ==> Defined(f, found[i].vreg) && found[i] == IntervalOf(f, found[i].vreg)
    requires forall i, j :: 0 <= i < j < |found| ==> found[i].vreg != found[j].vreg
    ensures Distinct(found)
  {
    forall i, j | 0 <= i < j < |found| ensures found[i].start != found[j].start {
      FirstDefIs(f.insts, |f.insts|, found[i].vreg);
      FirstDefIs(f.insts, |f.insts|, found[j].vreg);
    }
  }

  lemma {:induction false} FoundIs(f: Function, n: nat)
    requires 0 < n <= f.vregCount + 1
    ensures forall i :: 0 <= i < |Found(f, n)| ==>
      Found(f, n)[i].vreg < n && Defined(f, Found(f, n)[i].vreg) && Found(f, n)[i] == IntervalOf(f, Found(f, n)[i].vreg)
    ensures forall i, j :: 0 <= i < j < |Found(f, n)| ==> Found(f, n)[i].vreg != Found(f, n)[j].vreg
    ensures forall w :: 0 < w < n && Defined(f, w) ==> IntervalOf(f, w) in Found(f, n)
  {
    if n > 1 { FoundIs(f, n - 1); }
  }

  /** Each interval once, by ascending start. */
  lemma IntervalsAre(f: Function)
    requires |f.insts| < NEVER
    ensures IntervalsOf(f, Intervals(f))
  {
    var found, ivs := Found(f, f.vregCount + 1), Intervals(f);
    FoundIs(f, f.vregCount + 1);
    DistinctStarts(f, found);
    SortInOrder(found);
    SortMembers(found);
    forall i | 0 <= i < |ivs| ensures Defined(f, ivs[i].vreg) && ivs[i] == IntervalOf(f, ivs[i].vreg) {
      assert ivs[i] in ivs && ivs[i] in found;
    }
  }

  method ComputeIntervals(f: Function) returns (ivs: seq<Interval>)
    requires |f.insts| < NEVER
    ensures IntervalsOf(f, ivs) && ivs == Intervals(f)
  {
    var firstDef, lastUse := ComputeLiveness(f);
    var found: seq<Interval> := [];
    for v := 1 to f.vregCount + 1
      invariant found == Found(f, v)
    {
      if firstDef[v] != NEVER {
        found := found + [Interval(v, firstDef[v], lastUse[v])];
      }
    }
    IntervalsAre(f);
    ivs := SortByStart(found);
  }
}
