/** What linear scan maintains while it walks the intervals: overlapping intervals never share a register or
    a spill slot. */
module Allocation {
  import opened Tier1
  import opened Liveness

  /** The registers open to allocation, by x86-64 number. */
  const REGS: seq<int> := [3, 6, 7, 8, 9, 10, 11, 13, 14, 15]

  const NONE: int := -1

  /** phys and stack are indexed by virtual register; active holds indices of intervals; used marks entries
      of REGS. */
  datatype Scan = Scan(phys: seq<int>, stack: seq<int>, slots: int, active: seq<nat>, used: seq<bool>) {

    predicate Shape(count: nat) {
      |phys| == |stack| == count + 1 && |used| == |REGS| && slots >= 0
    }

    function RegOf(ivs: seq<Interval>, j: nat): int {
      if j < |ivs| && ivs[j].vreg < |phys| then phys[ivs[j].vreg] else NONE
    }

    function SlotOf(ivs: seq<Interval>, j: nat): int {
      if j < |ivs| && ivs[j].vreg < |stack| then stack[ivs[j].vreg] else NONE
    }

    /** Exactly one of a register and an own slot. */
    predicate Placed(ivs: seq<Interval>, j: nat) {
      || (RegOf(ivs, j) in REGS && SlotOf(ivs, j) == NONE)
      || (RegOf(ivs, j) == NONE && 0 <= SlotOf(ivs, j) < slots)
    }

    predicate Unplaced(ivs: seq<Interval>, j: nat) {
      RegOf(ivs, j) == NONE && SlotOf(ivs, j) == NONE
    }

    /** Two intervals that share a register do not overlap, and no two share a slot. */
    ghost predicate Apart(ivs: seq<Interval>, i: nat, j: nat)
      requires i < |ivs| && j < |ivs|
    {
      && (RegOf(ivs, i) == RegOf(ivs, j) != NONE ==> ivs[i].end < ivs[j].start)
      && (SlotOf(ivs, i) == SlotOf(ivs, j) ==> SlotOf(ivs, i) == NONE)
    }

    /** The used bits are those of the active intervals' registers. */
    ghost predicate UsedBit(ivs: seq<Interval>, r: nat)
      requires r < |REGS| == |used|
    {
      used[r] <==> exists x :: x in active && RegOf(ivs, x) == REGS[r]
    }

    ghost predicate ActiveOk(ivs: seq<Interval>, k: nat) {
      && (forall x :: x in active ==> x < k && x < |ivs| && RegOf(ivs, x) in REGS)
      && (forall x, y :: x in active && y in active && x != y ==> RegOf(ivs, x) != RegOf(ivs, y))
      && (forall p, q :: 0 <= p < q < |active| ==> active[p] != active[q])
    }

    /** An interval that holds a register and is no longer active ended before `now`. */
    ghost predicate Past(ivs: seq<Interval>, now: nat, j: nat)
      requires j < |ivs|
    {
      RegOf(ivs, j) != NONE && j !in active ==> ivs[j].end < now
    }
  }

  /** The first k intervals are placed; `now` is no later than the next start. */
  ghost predicate ScanOk(ivs: seq<Interval>, count: nat, sc: Scan, k: nat, now: nat) {
    && k <= |ivs| && sc.Shape(count) && sc.ActiveOk(ivs, k)
    && (forall j {:trigger sc.Placed(ivs, j)} :: 0 <= j < k ==> sc.Placed(ivs, j))
    && (forall j {:trigger sc.Unplaced(ivs, j)} :: k <= j < |ivs| ==> sc.Unplaced(ivs, j))
    && (forall i, j {:trigger sc.Apart(ivs, i, j)} :: 0 <= i < j < k ==> sc.Apart(ivs, i, j))
    && (forall j {:trigger sc.Past(ivs, now, j)} :: 0 <= j < k ==> sc.Past(ivs, now, j))
    && (forall r {:trigger sc.UsedBit(ivs, r)} :: 0 <= r < |REGS| ==> sc.UsedBit(ivs, r))
  }

  // ----- a free register exists -----

  lemma {:induction false} SeqImageBound(s: seq<int>)
    ensures |set x | x in s| <= |s|
  {
    if |s| > 0 {
      SeqImageBound(s[1..]);
      assert (set x | x in s) == (set x | x in s[1..]) + {s[0]};
    }
  }

  /** Fewer active intervals than registers leave a bit clear: the defensive spill is never taken. */
  lemma FreeRegister(ivs: seq<Interval>, count: nat, sc: Scan, k: nat, now: nat)
    requires ScanOk(ivs, count, sc, k, now) && |sc.active| < |REGS|
    ensures exists r :: 0 <= r < |REGS| && !sc.used[r]
  {
    if forall r :: 0 <= r < |REGS| ==> sc.used[r] {
      var held := seq(|sc.active|, p requires 0 <= p < |sc.active| => sc.RegOf(ivs, sc.active[p]));
      forall r: nat | r < |REGS| ensures REGS[r] in held {
        assert sc.UsedBit(ivs, r);
        var x :| x in sc.active && sc.RegOf(ivs, x) == REGS[r];
        var p :| 0 <= p < |sc.active| && sc.active[p] == x;
        assert held[p] == REGS[r];
      }
      SeqImageBound(held);
      TenRegisters(set x | x in held);
    }
  }

  lemma TenRegisters(s: set<int>)
    requires forall r: nat :: r < |REGS| ==> REGS[r] in s
    ensures |s| >= |REGS|
  {
    var ten := {3, 6, 7, 8, 9, 10, 11, 13, 14, 15};
    assert REGS[0] in s && REGS[1] in s && REGS[2] in s && REGS[3] in s && REGS[4] in s;
    assert REGS[5] in s && REGS[6] in s && REGS[7] in s && REGS[8] in s && REGS[9] in s;
    assert ten <= s;
    assert |s| == |s - ten| + |ten|;
  }

  lemma RegsDistinct(i: nat, j: nat)
    requires i < j < |REGS|
    ensures REGS[i] != REGS[j]
  {
  }

  // ----- the four moves -----

  function Without(s: seq<nat>, p: nat): seq<nat>
    requires p < |s|
  {
    s[..p] + s[p + 1..]
  }

  lemma WithoutMembers(s: seq<nat>, p: nat)
    requires p < |s| && forall i, j :: 0 <= i < j < |s| ==> s[i] != s[j]
    ensures forall x :: x in Without(s, p) <==> x in s && x != s[p]
    ensures forall i, j :: 0 <= i < j < |Without(s, p)| ==> Without(s, p)[i] != Without(s, p)[j]
  {
    assert s == s[..p] + [s[p]] + s[p + 1..];
    forall x | x in s && x != s[p] ensures x in Without(s, p) {
      assert x in s[..p] || x in s[p + 1..];
    }
  }

  /** Active entry p has ended: its register number r in REGS is free again. */
  function Expire(sc: Scan, p: nat, r: nat): Scan
    requires p < |sc.active| && r < |sc.used|
  {
    sc.(active := Without(sc.active, p), used := sc.used[r := false])
  }

  function Take(sc: Scan, ivs: seq<Interval>, k: nat, r: nat): Scan
    requires k < |ivs| && ivs[k].vreg < |sc.phys| && r < |sc.used| == |REGS|
  {
    sc.(phys := sc.phys[ivs[k].vreg := REGS[r]], used := sc.used[r := true], active := sc.active + [k])
  }

  /** Interval k takes over the register of active entry p, whose interval moves to a new slot. */
  function Steal(sc: Scan, ivs: seq<Interval>, k: nat, p: nat): Scan
    requires k < |ivs| && ivs[k].vreg < |sc.phys| == |sc.stack|
    requires p < |sc.active| && sc.active[p] < |ivs| && ivs[sc.active[p]].vreg < |sc.phys|
  {
    var t := ivs[sc.active[p]].vreg;
    Scan(sc.phys[ivs[k].vreg := sc.phys[t]][t := NONE], sc.stack[t := sc.slots], sc.slots + 1,
         Without(sc.active, p) + [k], sc.used)
  }

  function Spill(sc: Scan, ivs: seq<Interval>, k: nat): Scan
    requires k < |ivs| && ivs[k].vreg < |sc.stack|
  {
    sc.(stack := sc.stack[ivs[k].vreg := sc.slots], slots := sc.slots + 1)
  }

  // ----- the scan as a function -----

  /** Where a register number stands among the allocatable ones. */
  function RegAt(phys: int, r: nat): (q: nat)
    requires r <= |REGS|
    ensures q <= |REGS| && (q < |REGS| ==> REGS[q] == phys)
    decreases |REGS| - r
  {
    if r == |REGS| || REGS[r] == phys then r else RegAt(phys, r + 1)
  }

  ghost predicate InTables(ivs: seq<Interval>, count: nat, sc: Scan) {
    sc.Shape(count) && forall q :: 0 <= q < |sc.active| ==> sc.active[q] < |ivs|
  }

  function Expired(ivs: seq<Interval>, count: nat, sc: Scan, now: nat, p: nat): (t: Scan)
    requires VregsFit(ivs, count) && InTables(ivs, count, sc) && p <= |sc.active|
    ensures InTables(ivs, count, t)
    decreases |sc.active| - p
  {
    if p == |sc.active| then sc
    else
      if ivs[sc.active[p]].end < now then
        var r := RegAt(sc.RegOf(ivs, sc.active[p]), 0);
        Expired(ivs, count, if r < |REGS| then Expire(sc, p, r) else sc.(active := Without(sc.active, p)), now, p)
      else
        Expired(ivs, count, sc, now, p + 1)
  }

  /** The first of the active intervals that end last. */
  function FarthestOf(ivs: seq<Interval>, active: seq<nat>, n: nat): (p: nat)
    requires 0 < n <= |active| && forall q :: 0 <= q < |active| ==> active[q] < |ivs|
    ensures p < n
  {
    if n == 1 then 0
    else
      var p := FarthestOf(ivs, active, n - 1);
      if ivs[active[p]].end < ivs[active[n - 1]].end then n - 1 else p
  }

  function LowestFree(used: seq<bool>, r: nat): (q: nat)
    requires r <= |used|
    ensures q <= |used|
    decreases |used| - r
  {
    if r == |used| || !used[r] then r else LowestFree(used, r + 1)
  }

  function PlacedNext(ivs: seq<Interval>, count: nat, sc: Scan, k: nat): (t: Scan)
    requires VregsFit(ivs, count) && InTables(ivs, count, sc) && k < |ivs|
    ensures InTables(ivs, count, t)
  {
    if |sc.active| < |REGS| then
      var r := LowestFree(sc.used, 0);
      if r < |REGS| then Take(sc, ivs, k, r) else Spill(sc, ivs, k)
    else
      var p := FarthestOf(ivs, sc.active, |sc.active|);
      if ivs[sc.active[p]].end > ivs[k].end then Steal(sc, ivs, k, p) else Spill(sc, ivs, k)
  }

  function FreshScan(count: nat): Scan {
    Scan(seq(count + 1, _ => NONE), seq(count + 1, _ => NONE), 0, [], seq(|REGS|, _ => false))
  }

  /** The tables after the first k intervals. */
  function ScanTo(ivs: seq<Interval>, count: nat, k: nat): (sc: Scan)
    requires VregsFit(ivs, count) && k <= |ivs|
    ensures InTables(ivs, count, sc)
  {
    if k == 0 then FreshScan(count)
    else PlacedNext(ivs, count, Expired(ivs, count, ScanTo(ivs, count, k - 1), ivs[k - 1].start, 0), k - 1)
  }

  predicate VregsFit(ivs: seq<Interval>, count: nat) {
    forall i :: 0 <= i < |ivs| ==> ivs[i].vreg <= count
  }

  lemma ScanInTables(ivs: seq<Interval>, count: nat, sc: Scan, k: nat, now: nat)
    requires ScanOk(ivs, count, sc, k, now)
    ensures InTables(ivs, count, sc)
  {
    forall q | 0 <= q < |sc.active| ensures sc.active[q] < |ivs| { assert sc.active[q] in sc.active; }
  }

  lemma ScanLater(ivs: seq<Interval>, count: nat, sc: Scan, k: nat, now: nat, later: nat)
    requires ScanOk(ivs, count, sc, k, now) && now <= later
    ensures ScanOk(ivs, count, sc, k, later)
  {
    forall j | 0 <= j < k ensures sc.Past(ivs, later, j) { assert sc.Past(ivs, now, j); }
    forall j | k <= j < |ivs| ensures sc.Unplaced(ivs, j) {}
  }

  lemma ExpireOk(ivs: seq<Interval>, count: nat, sc: Scan, k: nat, now: nat, p: nat, r: nat)
    requires ScanOk(ivs, count, sc, k, now) && p < |sc.active| && r < |REGS|
    requires sc.RegOf(ivs, sc.active[p]) == REGS[r] && sc.active[p] < |ivs| && ivs[sc.active[p]].end < now
    ensures ScanOk(ivs, count, Expire(sc, p, r), k, now)
  {
    var t := Expire(sc, p, r);
    WithoutMembers(sc.active, p);
    forall j | 0 <= j < k
      ensures t.Past(ivs, now, j) && t.Placed(ivs, j)
    {
      assert sc.Past(ivs, now, j) && sc.Placed(ivs, j);
    }
    forall j | k <= j < |ivs| ensures t.Unplaced(ivs, j) { assert sc.Unplaced(ivs, j); }
    forall i, j | 0 <= i < j < k ensures t.Apart(ivs, i, j) { assert sc.Apart(ivs, i, j); }
    forall q: nat | q < |REGS| ensures t.UsedBit(ivs, q) {
      assert sc.UsedBit(ivs, q);
      if q < r { RegsDistinct(q, r); } else if r < q { RegsDistinct(r, q); }
    }
  }

  lemma TakeOk(ivs: seq<Interval>, count: nat, sc: Scan, k: nat, r: nat)
    requires InOrder(ivs) && VregsFit(ivs, count) && k < |ivs| && ScanOk(ivs, count, sc, k, ivs[k].start)
    requires r < |REGS| && !sc.used[r]
    ensures ScanOk(ivs, count, Take(sc, ivs, k, r), k + 1, ivs[k].start)
  {
    var t, now := Take(sc, ivs, k, r), ivs[k].start;
    assert sc.UsedBit(ivs, r);
    assert REGS[r] in REGS;
    forall j | 0 <= j < |ivs| && j != k
      ensures t.RegOf(ivs, j) == sc.RegOf(ivs, j) && t.SlotOf(ivs, j) == sc.SlotOf(ivs, j)
    {
    }
    assert sc.Unplaced(ivs, k);
    forall j | 0 <= j < k + 1 ensures t.Past(ivs, now, j) && t.Placed(ivs, j) {
      if j < k { assert sc.Past(ivs, now, j) && sc.Placed(ivs, j); }
    }
    forall j | k + 1 <= j < |ivs| ensures t.Unplaced(ivs, j) { assert sc.Unplaced(ivs, j); }
    forall i, j | 0 <= i < j < k + 1 ensures t.Apart(ivs, i, j) {
      if j < k { assert sc.Apart(ivs, i, j); } else { assert sc.Past(ivs, now, i); }
    }
    forall q: nat | q < |REGS| ensures t.UsedBit(ivs, q) {
      assert sc.UsedBit(ivs, q);
      if q < r { RegsDistinct(q, r); } else if r < q { RegsDistinct(r, q); }
      if q == r { assert k in t.active && t.RegOf(ivs, k) == REGS[q]; }
      if x :| x in sc.active && sc.RegOf(ivs, x) == REGS[q] { assert x in t.active; }
    }
  }

  lemma SpillOk(ivs: seq<Interval>, count: nat, sc: Scan, k: nat)
    requires InOrder(ivs) && VregsFit(ivs, count) && k < |ivs| && ScanOk(ivs, count, sc, k, ivs[k].start)
    ensures ScanOk(ivs, count, Spill(sc, ivs, k), k + 1, ivs[k].start)
  {
    var t, now := Spill(sc, ivs, k), ivs[k].start;
    forall j | 0 <= j < |ivs| && j != k
      ensures t.RegOf(ivs, j) == sc.RegOf(ivs, j) && t.SlotOf(ivs, j) == sc.SlotOf(ivs, j)
    {
    }
    assert sc.Unplaced(ivs, k);
    forall j | 0 <= j < k + 1 ensures t.Past(ivs, now, j) && t.Placed(ivs, j) {
      if j < k { assert sc.Past(ivs, now, j) && sc.Placed(ivs, j); }
    }
    forall j | k + 1 <= j < |ivs| ensures t.Unplaced(ivs, j) { assert sc.Unplaced(ivs, j); }
    forall i, j | 0 <= i < j < k + 1 ensures t.Apart(ivs, i, j) {
      if j < k { assert sc.Apart(ivs, i, j); } else { assert sc.Placed(ivs, i); }
    }
    forall q: nat | q < |REGS| ensures t.UsedBit(ivs, q) {
      assert sc.UsedBit(ivs, q);
    }
  }

  lemma StealOk(ivs: seq<Interval>, count: nat, sc: Scan, k: nat, p: nat)
    requires InOrder(ivs) && VregsFit(ivs, count) && k < |ivs| && ScanOk(ivs, count, sc, k, ivs[k].start)
        && p < |sc.active|
    requires sc.active[p] < |ivs|
    ensures ScanOk(ivs, count, Steal(sc, ivs, k, p), k + 1, ivs[k].start)
  {
    var t, now, a := Steal(sc, ivs, k, p), ivs[k].start, sc.active[p];
    WithoutMembers(sc.active, p);
    assert a in sc.active;
    forall j | 0 <= j < |ivs| && j != k && j != a
      ensures t.RegOf(ivs, j) == sc.RegOf(ivs, j) && t.SlotOf(ivs, j) == sc.SlotOf(ivs, j) {}
    assert t.RegOf(ivs, k) == sc.RegOf(ivs, a) && t.RegOf(ivs, a) == NONE && t.SlotOf(ivs, a) == sc.slots;
    assert sc.Unplaced(ivs, k);
    forall j | 0 <= j < k + 1 ensures t.Past(ivs, now, j) && t.Placed(ivs, j) {
      if j < k { assert sc.Past(ivs, now, j) && sc.Placed(ivs, j); }
    }
    forall j | k + 1 <= j < |ivs| ensures t.Unplaced(ivs, j) { assert sc.Unplaced(ivs, j); }
    forall i, j | 0 <= i < j < k + 1 ensures t.Apart(ivs, i, j) {
      assert sc.Placed(ivs, i);
      if j < k { assert sc.Apart(ivs, i, j) && sc.Placed(ivs, j); } else { assert sc.Past(ivs, now, i); }
    }
    forall q: nat | q < |REGS| ensures t.UsedBit(ivs, q) {
      assert sc.UsedBit(ivs, q);
      if sc.used[q] {
        var x :| x in sc.active && sc.RegOf(ivs, x) == REGS[q];
        var y := if x == a then k else x;
        assert y in t.active && t.RegOf(ivs, y) == REGS[q];
      }
    }
  }
}
