/** Linear-scan register allocation: ten registers, spill slots for the rest. */
module LinearScan {
  import opened Tier1
  import opened Liveness
  import opened Allocation

  /** A register number and a slot number for each virtual register, NONE where it has none. */
  datatype Allocated = Allocated(phys: seq<int>, stack: seq<int>, slots: int)

  predicate PlacedAt(ra: Allocated, v: nat)
    requires v < |ra.phys| && v < |ra.stack|
  {
    (ra.phys[v] in REGS && ra.stack[v] == NONE) || (ra.phys[v] == NONE && 0 <= ra.stack[v] < ra.slots)
  }

  predicate Disjoint(ra: Allocated, v: nat, w: nat)
    requires v < |ra.phys| == |ra.stack| && w < |ra.phys|
  {
    !(ra.phys[v] == ra.phys[w] != NONE) && !(ra.stack[v] == ra.stack[w] != NONE)
  }

  /** Every defined register has exactly one of a machine register and a slot, and registers whose live
      intervals overlap share neither. */
  ghost predicate Sound(f: Function, ra: Allocated) {
    && |ra.phys| == |ra.stack| == f.vregCount + 1
    && (forall v: nat {:trigger PlacedAt(ra, v)} :: Defined(f, v) ==> PlacedAt(ra, v))
    && (forall v: nat, w: nat {:trigger Disjoint(ra, v, w)} ::
          Defined(f, v) && Defined(f, w) && v != w && Overlap(IntervalOf(f, v), IntervalOf(f, w)) ==>
              Disjoint(ra, v, w))
  }

  lemma ScanSound(f: Function, ivs: seq<Interval>, sc: Scan, now: nat)
    requires IntervalsOf(f, ivs) && ScanOk(ivs, f.vregCount, sc, |ivs|, now)
    ensures Sound(f, Allocated(sc.phys, sc.stack, sc.slots))
  {
    var ra := Allocated(sc.phys, sc.stack, sc.slots);
    forall v: nat | Defined(f, v) ensures PlacedAt(ra, v) {
      var i := IndexOf(f, ivs, v);
      assert sc.Placed(ivs, i);
    }
    forall v: nat, w: nat | Defined(f, v) && Defined(f, w) && v != w && Overlap(IntervalOf(f, v), IntervalOf(f, w))
      ensures Disjoint(ra, v, w)
    {
      var i := IndexOf(f, ivs, v);
      var j := IndexOf(f, ivs, w);
      assert sc.Placed(ivs, i) && sc.Placed(ivs, j);
      if i < j { assert sc.Apart(ivs, i, j); } else { assert i != j; assert sc.Apart(ivs, j, i); }
    }
  }

  lemma IndexOf(f: Function, ivs: seq<Interval>, v: nat) returns (i: nat)
    requires IntervalsOf(f, ivs) && Defined(f, v)
    ensures i < |ivs| && ivs[i] == IntervalOf(f, v)
  {
    assert IntervalOf(f, v) in ivs;
    i :| 0 <= i < |ivs| && ivs[i] == IntervalOf(f, v);
  }

  // ----- the scan -----

  method RegIndex(phys: int) returns (r: nat)
    requires phys in REGS
    ensures r < |REGS| && REGS[r] == phys && r == RegAt(phys, 0)
  {
    ghost var w :| 0 <= w < |REGS| && REGS[w] == phys;
    r := 0;
    while REGS[r] != phys
      invariant r <= w && RegAt(phys, 0) == RegAt(phys, r)
      decreases w - r
    {
      r := r + 1;
    }
  }

  /** Frees the registers of the active intervals that ended before `now`. */
  method ExpireOld(ivs: seq<Interval>, sc: Scan, now: nat, ghost count: nat, ghost k: nat) returns (t: Scan)
    requires ScanOk(ivs, count, sc, k, now) && VregsFit(ivs, count)
    ensures InTables(ivs, count, sc) && t == Expired(ivs, count, sc, now, 0)
    ensures ScanOk(ivs, count, t, k, now) && t.phys == sc.phys && t.stack == sc.stack && t.slots == sc.slots
    ensures forall x :: x in t.active ==> x < |ivs| && ivs[x].end >= now
  {
    t := sc;
    ScanInTables(ivs, count, sc, k, now);
    var p := 0;
    while p < |t.active|
      invariant ScanOk(ivs, count, t, k, now) && t.phys == sc.phys && t.stack == sc.stack && t.slots == sc.slots
      invariant InTables(ivs, count, sc) && InTables(ivs, count, t) && p <= |t.active|
      invariant Expired(ivs, count, sc, now, 0) == Expired(ivs, count, t, now, p)
      invariant forall q :: 0 <= q < p ==> t.active[q] < |ivs| && ivs[t.active[q]].end >= now
      decreases |t.active| - p
    {
      var a := t.active[p];
      assert a in t.active;
      if ivs[a].end < now {
        var r := RegIndex(t.RegOf(ivs, a));
        ExpireOk(ivs, count, t, k, now, p, r);
        t := Expire(t, p, r);
      } else {
        p := p + 1;
      }
    }
  }

  /** The lowest-numbered free register; that one exists is lemma FreeRegister. */
  method FindFree(used: seq<bool>) returns (r: nat)
    requires exists q :: 0 <= q < |used| && !used[q]
    ensures r < |used| && !used[r] && r == LowestFree(used, 0)
  {
    r := 0;
    while used[r]
      invariant r < |used| && LowestFree(used, 0) == LowestFree(used, r) && forall q :: 0 <= q < r ==> used[q]
      decreases |used| - r
    {
      r := r + 1;
    }
  }

  method FarthestEnd(ivs: seq<Interval>, active: seq<nat>) returns (p: nat)
    requires |active| > 0 && forall q :: 0 <= q < |active| ==> active[q] < |ivs|
    ensures p == FarthestOf(ivs, active, |active|) && forall q :: 0 <= q < |active| ==>
        ivs[active[q]].end <= ivs[active[p]].end
  {
    p := 0;
    for q := 1 to |active|
      invariant p == FarthestOf(ivs, active, q) && forall o :: 0 <= o < q ==> ivs[active[o]].end <= ivs[active[p]].end
    {
      if ivs[active[p]].end < ivs[active[q]].end { p := q; }
    }
  }

  /** Fewer active intervals than registers: interval k takes the lowest-numbered free one. */
  method PlaceFree(ivs: seq<Interval>, sc: Scan, k: nat, ghost count: nat) returns (t: Scan)
    requires InOrder(ivs) && VregsFit(ivs, count) && k < |ivs| && ScanOk(ivs, count, sc, k, ivs[k].start)
    requires InTables(ivs, count, sc) && |sc.active| < |REGS|
    ensures ScanOk(ivs, count, t, k + 1, ivs[k].start)
    ensures t == PlacedNext(ivs, count, sc, k) && t.stack == sc.stack
  {
    FreeRegister(ivs, count, sc, k, ivs[k].start);
    var r := FindFree(sc.used);
    TakeOk(ivs, count, sc, k, r);
    t := Take(sc, ivs, k, r);
  }

  lemma ActiveMembers(ivs: seq<Interval>, active: seq<nat>, p: nat)
    requires p < |active| && forall q :: 0 <= q < |active| ==> active[q] < |ivs|
    requires forall q :: 0 <= q < |active| ==> ivs[active[q]].end <= ivs[active[p]].end
    ensures forall x :: x in active ==> x < |ivs| && ivs[x].end <= ivs[active[p]].end
  {
  }

  /** All registers taken: interval k or an active one goes to memory. */
  method PlaceFull(ivs: seq<Interval>, sc: Scan, k: nat, ghost count: nat) returns (t: Scan, victim: nat)
    requires InOrder(ivs) && VregsFit(ivs, count) && k < |ivs| && ScanOk(ivs, count, sc, k, ivs[k].start)
    requires InTables(ivs, count, sc) && |sc.active| >= |REGS|
    ensures ScanOk(ivs, count, t, k + 1, ivs[k].start)
    ensures t == PlacedNext(ivs, count, sc, k)
    ensures victim < |ivs| && t.SlotOf(ivs, victim) == sc.slots && t.slots == sc.slots + 1
    ensures (victim == k || victim in sc.active) && ivs[victim].end >= ivs[k].end
    ensures forall x :: x in sc.active ==> x < |ivs| && ivs[x].end <= ivs[victim].end
  {
    var p := FarthestEnd(ivs, sc.active);
    ActiveMembers(ivs, sc.active, p);
    if ivs[sc.active[p]].end > ivs[k].end {
      victim := sc.active[p];
      StealOk(ivs, count, sc, k, p);
      t := Steal(sc, ivs, k, p);
    } else {
      victim := k;
      SpillOk(ivs, count, sc, k);
      t := Spill(sc, ivs, k);
    }
  }

  /** Gives interval k a register if one is free; otherwise, of interval k and the active ones, an interval
      that ends last goes to memory. */
  method Place(ivs: seq<Interval>, sc: Scan, k: nat, ghost count: nat) returns (t: Scan, victim: nat)
    requires InOrder(ivs) && VregsFit(ivs, count) && k < |ivs| && ScanOk(ivs, count, sc, k, ivs[k].start)
    ensures ScanOk(ivs, count, t, k + 1, ivs[k].start)
    ensures InTables(ivs, count, sc) && t == PlacedNext(ivs, count, sc, k)
    ensures |sc.active| < |REGS| ==> t.stack == sc.stack
    ensures |sc.active| >= |REGS| ==>
      && victim < |ivs| && t.SlotOf(ivs, victim) == sc.slots && t.slots == sc.slots + 1
      && (victim == k || victim in sc.active) && ivs[victim].end >= ivs[k].end
      && (forall x :: x in sc.active ==> x < |ivs| && ivs[x].end <= ivs[victim].end)
  {
    ScanInTables(ivs, count, sc, k, ivs[k].start);
    victim := k;
    if |sc.active| < |REGS| {
      t := PlaceFree(ivs, sc, k, count);
    } else {
      t, victim := PlaceFull(ivs, sc, k, count);
    }
  }

  lemma IntervalsFit(f: Function)
    requires |f.insts| < NEVER
    ensures IntervalsOf(f, Intervals(f)) && VregsFit(Intervals(f), f.vregCount)
  {
    IntervalsAre(f);
  }

  /** The allocation of f: what the scan over its intervals leaves in the tables. */
  function ScanOf(f: Function): Allocated
    requires |f.insts| < NEVER
  {
    IntervalsFit(f);
    var ivs := Intervals(f);
    var sc := ScanTo(ivs, f.vregCount, |ivs|);
    Allocated(sc.phys, sc.stack, sc.slots)
  }

  method Allocate(f: Function) returns (ra: Allocated)
    requires |f.insts| < NEVER
    ensures ra == ScanOf(f) && Sound(f, ra)
  {
    var phys := seq(f.vregCount + 1, _ => NONE);
    var sc := Scan(phys, phys, 0, [], seq(|REGS|, _ => false));
    var ivs := ComputeIntervals(f);
    IntervalsFit(f);
    ghost var now: nat := 0;
    ScanStart(ivs, f.vregCount, sc);
    for k := 0 to |ivs|
      invariant ScanOk(ivs, f.vregCount, sc, k, now) && sc == ScanTo(ivs, f.vregCount, k)
      invariant k < |ivs| ==> now <= ivs[k].start
    {
      ScanLater(ivs, f.vregCount, sc, k, now, ivs[k].start);
      sc := ExpireOld(ivs, sc, ivs[k].start, f.vregCount, k);
      var victim;
      sc, victim := Place(ivs, sc, k, f.vregCount);
      now := ivs[k].start;
    }
    ScanSound(f, ivs, sc, now);
    ra := Allocated(sc.phys, sc.stack, sc.slots);
  }

  lemma ScanStart(ivs: seq<Interval>, count: nat, sc: Scan)
    requires sc.phys == sc.stack == seq(count + 1, _ => NONE) && sc.slots == 0 && sc.active == []
    requires sc.used == seq(|REGS|, _ => false)
    ensures ScanOk(ivs, count, sc, 0, 0)
  {
    forall j | 0 <= j < |ivs| ensures sc.Unplaced(ivs, j) {}
    forall r: nat | r < |REGS| ensures sc.UsedBit(ivs, r) {}
  }
}
