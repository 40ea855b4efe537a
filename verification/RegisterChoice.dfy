/** Which register and which slot every interval gets, in terms of the intervals and of what the earlier ones hold. */
module RegisterChoice {
  import opened Tier1
  import opened Liveness
  import opened Allocation
  import opened LinearScan

  // ----- the scan keeps its invariant -----

  lemma {:induction false} ExpiredOk(ivs: seq<Interval>, count: nat, sc: Scan, k: nat, now: nat, p: nat)
    requires ScanOk(ivs, count, sc, k, now) && VregsFit(ivs, count) && InTables(ivs, count, sc) && p <= |sc.active|
    requires forall q :: 0 <= q < p ==> ivs[sc.active[q]].end >= now
    ensures var t := Expired(ivs, count, sc, now, p);
      && ScanOk(ivs, count, t, k, now) && t.phys == sc.phys && t.stack == sc.stack && t.slots == sc.slots
      && (forall x :: x in t.active <==> x in sc.active && ivs[x].end >= now)
    decreases |sc.active| - p
  {
    if p < |sc.active| {
      var a := sc.active[p];
      assert a in sc.active;
      if ivs[a].end < now {
        var t := OneExpired(ivs, count, sc, k, now, p);
        ExpiredOk(ivs, count, t, k, now, p);
      } else {
        ExpiredOk(ivs, count, sc, k, now, p + 1);
      }
    }
  }

  lemma OneExpired(ivs: seq<Interval>, count: nat, sc: Scan, k: nat, now: nat, p: nat) returns (t: Scan)
    requires ScanOk(ivs, count, sc, k, now) && VregsFit(ivs, count) && InTables(ivs, count, sc) && p < |sc.active|
    requires ivs[sc.active[p]].end < now && forall q :: 0 <= q < p ==> ivs[sc.active[q]].end >= now
    ensures ScanOk(ivs, count, t, k, now) && InTables(ivs, count, t) && p <= |t.active| < |sc.active|
    ensures t.phys == sc.phys && t.stack == sc.stack && t.slots == sc.slots
    ensures forall x :: x in t.active <==> x in sc.active && x != sc.active[p]
    ensures forall q :: 0 <= q < p ==> ivs[t.active[q]].end >= now
    ensures Expired(ivs, count, sc, now, p) == Expired(ivs, count, t, now, p)
  {
    assert sc.active[p] in sc.active;
    var r := RegIndexOf(sc.RegOf(ivs, sc.active[p]));
    ExpireOk(ivs, count, sc, k, now, p, r);
    WithoutMembers(sc.active, p);
    t := Expire(sc, p, r);
  }

  lemma {:induction false} RegAtFinds(phys: int, r: nat, w: nat)
    requires r <= w < |REGS| && REGS[w] == phys
    ensures RegAt(phys, r) < |REGS|
    decreases w - r
  {
    if REGS[r] != phys { RegAtFinds(phys, r + 1, w); }
  }

  lemma RegIndexOf(phys: int) returns (r: nat)
    requires phys in REGS
    ensures r == RegAt(phys, 0) && r < |REGS| && REGS[r] == phys
  {
    var w :| 0 <= w < |REGS| && REGS[w] == phys;
    RegAtFinds(phys, 0, w);
    r := RegAt(phys, 0);
  }

  lemma {:induction false} LowestFreeIs(used: seq<bool>, r: nat)
    requires r <= |used|
    ensures forall q :: r <= q < LowestFree(used, r) ==> used[q]
    ensures LowestFree(used, r) < |used| ==> !used[LowestFree(used, r)]
    decreases |used| - r
  {
    if r < |used| && used[r] { LowestFreeIs(used, r + 1); }
  }

  lemma PlacedOk(ivs: seq<Interval>, count: nat, sc: Scan, k: nat)
    requires InOrder(ivs) && VregsFit(ivs, count) && k < |ivs| && ScanOk(ivs, count, sc, k, ivs[k].start)
    requires InTables(ivs, count, sc)
    ensures ScanOk(ivs, count, PlacedNext(ivs, count, sc, k), k + 1, ivs[k].start)
  {
    if |sc.active| < |REGS| {
      FreeRegister(ivs, count, sc, k, ivs[k].start);
      LowestFreeIs(sc.used, 0);
      TakeOk(ivs, count, sc, k, LowestFree(sc.used, 0));
    } else {
      var p := FarthestOf(ivs, sc.active, |sc.active|);
      if ivs[sc.active[p]].end > ivs[k].end { StealOk(ivs, count, sc, k, p); } else { SpillOk(ivs, count, sc, k); }
    }
  }

  /** When the scan has come to interval k. */
  function Reached(ivs: seq<Interval>, k: nat): nat
    requires k <= |ivs|
  {
    if k == 0 then 0 else ivs[k - 1].start
  }

  lemma {:induction false} ScanToOk(ivs: seq<Interval>, count: nat, k: nat)
    requires InOrder(ivs) && VregsFit(ivs, count) && k <= |ivs|
    ensures ScanOk(ivs, count, ScanTo(ivs, count, k), k, Reached(ivs, k))
  {
    if k == 0 {
      ScanStart(ivs, count, FreshScan(count));
    } else {
      ScanToOk(ivs, count, k - 1);
      NowOk(ivs, count, k - 1);
    }
  }

  /** The state in which interval k is placed: what has ended is expired. */
  ghost function Ready(ivs: seq<Interval>, count: nat, k: nat): (sc: Scan)
    requires VregsFit(ivs, count) && k < |ivs|
    ensures InTables(ivs, count, sc)
  {
    Expired(ivs, count, ScanTo(ivs, count, k), ivs[k].start, 0)
  }

  lemma NowOk(ivs: seq<Interval>, count: nat, k: nat)
    requires InOrder(ivs) && VregsFit(ivs, count) && k < |ivs|
    requires ScanOk(ivs, count, ScanTo(ivs, count, k), k, Reached(ivs, k))
    ensures ScanOk(ivs, count, Ready(ivs, count, k), k, ivs[k].start)
    ensures ScanOk(ivs, count, ScanTo(ivs, count, k + 1), k + 1, ivs[k].start)
  {
    ScanLater(ivs, count, ScanTo(ivs, count, k), k, Reached(ivs, k), ivs[k].start);
    ExpiredOk(ivs, count, ScanTo(ivs, count, k), k, ivs[k].start, 0);
    PlacedOk(ivs, count, Ready(ivs, count, k), k);
  }

  // ----- what is taken when interval k comes -----

  /** Interval j holds a register and has not ended when interval k starts. */
  predicate Busy(ivs: seq<Interval>, sc: Scan, k: nat, j: nat)
    requires k < |ivs|
  {
    j < k && ivs[j].vreg < |sc.phys| && sc.phys[ivs[j].vreg] != -1 && ivs[j].end >= ivs[k].start
  }

  ghost predicate IsTaken(ivs: seq<Interval>, sc: Scan, k: nat, r: int)
    requires k < |ivs|
  {
    exists j: nat :: Busy(ivs, sc, k, j) && sc.phys[ivs[j].vreg] == r
  }

  lemma ActiveAreBusy(ivs: seq<Interval>, count: nat, k: nat)
    requires InOrder(ivs) && VregsFit(ivs, count) && k < |ivs|
    ensures var b, t := ScanTo(ivs, count, k), Ready(ivs, count, k);
      && ScanOk(ivs, count, t, k, ivs[k].start) && t.phys == b.phys && t.stack == b.stack && t.slots == b.slots
      && (forall j: nat :: j in t.active <==> Busy(ivs, b, k, j))
  {
    var b, t := ScanTo(ivs, count, k), Ready(ivs, count, k);
    ScanToOk(ivs, count, k);
    NowOk(ivs, count, k);
    ScanLater(ivs, count, b, k, Reached(ivs, k), ivs[k].start);
    ExpiredOk(ivs, count, b, k, ivs[k].start, 0);
    forall j: nat ensures j in t.active <==> Busy(ivs, b, k, j) {
      if j in t.active { assert j in b.active && b.RegOf(ivs, j) in REGS; }
      if Busy(ivs, b, k, j) { assert b.Past(ivs, ivs[k].start, j); }
    }
  }

  lemma UsedAreTaken(ivs: seq<Interval>, count: nat, k: nat, r: nat)
    requires InOrder(ivs) && VregsFit(ivs, count) && k < |ivs| && r < |REGS|
    ensures var t := Ready(ivs, count, k);
      r < |t.used| && (t.used[r] <==> IsTaken(ivs, ScanTo(ivs, count, k), k, REGS[r]))
  {
    var b, t := ScanTo(ivs, count, k), Ready(ivs, count, k);
    ActiveAreBusy(ivs, count, k);
    assert t.UsedBit(ivs, r);
    if t.used[r] {
      var x :| x in t.active && t.RegOf(ivs, x) == REGS[r];
      assert Busy(ivs, b, k, x);
    }
    if j: nat :| Busy(ivs, b, k, j) && b.phys[ivs[j].vreg] == REGS[r] { assert j in t.active; }
  }

  // ----- the choice -----

  /** Interval k gets register i of the order, the first that is not taken. */
  ghost predicate FirstAt(ivs: seq<Interval>, b: Scan, a: Scan, k: nat, order: seq<int>, i: nat)
    requires k < |ivs| && ivs[k].vreg < |b.phys|
  {
    && i < |order| && a.phys == b.phys[ivs[k].vreg := order[i]]
    && !IsTaken(ivs, b, k, order[i]) && forall h :: 0 <= h < i ==> IsTaken(ivs, b, k, order[h])
  }

  ghost predicate TakesFirst(ivs: seq<Interval>, b: Scan, a: Scan, k: nat, order: seq<int>)
    requires k < |ivs| && ivs[k].vreg < |b.phys|
  {
    a.stack == b.stack && a.slots == b.slots && exists i: nat :: FirstAt(ivs, b, a, k, order, i)
  }

  /** Of interval k and the busy ones, w ends last; of several busy ones it is the first, and k only gives way to one
      that ends later. */
  ghost predicate EndsLast(ivs: seq<Interval>, b: Scan, k: nat, w: nat)
    requires k < |ivs|
  {
    && (w == k || (Busy(ivs, b, k, w) && ivs[w].end > ivs[k].end)) && w < |ivs|
    && (forall j: nat :: Busy(ivs, b, k, j) ==> ivs[j].end <= ivs[w].end)
    && (w != k ==> forall j: nat :: Busy(ivs, b, k, j) && ivs[j].end == ivs[w].end ==> w <= j)
  }

  /** Interval w gets the next slot, and k the register that w had. */
  ghost predicate Yields(ivs: seq<Interval>, b: Scan, a: Scan, k: nat, w: nat)
    requires k < |ivs| && w < |ivs| && ivs[k].vreg < |b.phys| == |b.stack| && ivs[w].vreg < |b.phys|
  {
    && a.slots == b.slots + 1 && a.stack == b.stack[ivs[w].vreg := b.slots]
    && a.phys == if w == k then b.phys else b.phys[ivs[k].vreg := b.phys[ivs[w].vreg]][ivs[w].vreg := -1]
  }

  ghost predicate SomeoneYields(ivs: seq<Interval>, count: nat, b: Scan, a: Scan, k: nat)
    requires k < |ivs| && VregsFit(ivs, count) && |b.phys| == |b.stack| == count + 1
  {
    exists w: nat :: EndsLast(ivs, b, k, w) && Yields(ivs, b, a, k, w)
  }

  lemma FirstFree(ivs: seq<Interval>, count: nat, k: nat)
    requires InOrder(ivs) && VregsFit(ivs, count) && k < |ivs| && |Ready(ivs, count, k).active| < |REGS|
    ensures var b := ScanTo(ivs, count, k);
      ivs[k].vreg < |b.phys| && TakesFirst(ivs, b, ScanTo(ivs, count, k + 1), k, REGS)
  {
    var b, t := ScanTo(ivs, count, k), Ready(ivs, count, k);
    ActiveAreBusy(ivs, count, k);
    FreeRegister(ivs, count, t, k, ivs[k].start);
    LowestFreeIs(t.used, 0);
    var i := LowestFree(t.used, 0);
    forall h: nat | h <= i ensures IsTaken(ivs, b, k, REGS[h]) <==> h < i { UsedAreTaken(ivs, count, k, h); }
    assert ScanTo(ivs, count, k + 1) == Take(t, ivs, k, i);
    assert FirstAt(ivs, b, ScanTo(ivs, count, k + 1), k, REGS, i);
  }

  lemma {:induction false} FarthestIs(ivs: seq<Interval>, active: seq<nat>, n: nat)
    requires 0 < n <= |active| && forall q :: 0 <= q < |active| ==> active[q] < |ivs|
    ensures var p := FarthestOf(ivs, active, n);
      forall q :: 0 <= q < n ==> ivs[active[q]].end <= ivs[active[p]].end && (q < p ==>
        ivs[active[q]].end < ivs[active[p]].end)
  {
    if n > 1 { FarthestIs(ivs, active, n - 1); }
  }

  ghost predicate Ascends(xs: seq<nat>, k: nat) {
    (forall p, q :: 0 <= p < q < |xs| ==> xs[p] < xs[q]) && forall p :: 0 <= p < |xs| ==> xs[p] < k
  }

  lemma WithoutAscends(xs: seq<nat>, k: nat, p: nat)
    requires Ascends(xs, k) && p < |xs|
    ensures Ascends(Without(xs, p), k)
  {
  }

  lemma {:induction false} ExpiredAscends(ivs: seq<Interval>, count: nat, sc: Scan, now: nat, p: nat, k: nat)
    requires VregsFit(ivs, count) && InTables(ivs, count, sc) && p <= |sc.active| && Ascends(sc.active, k)
    ensures Ascends(Expired(ivs, count, sc, now, p).active, k)
    decreases |sc.active| - p
  {
    if p < |sc.active| {
      if ivs[sc.active[p]].end < now {
        WithoutAscends(sc.active, k, p);
        var r := RegAt(sc.RegOf(ivs, sc.active[p]), 0);
        var freed := if r < |REGS| then Expire(sc, p, r) else sc.(active := Without(sc.active, p));
        ExpiredAscends(ivs, count, freed, now, p, k);
      } else {
        ExpiredAscends(ivs, count, sc, now, p + 1, k);
      }
    }
  }

  /** The active intervals are listed by their starts. */
  lemma {:induction false} ActiveAscends(ivs: seq<Interval>, count: nat, k: nat)
    requires VregsFit(ivs, count) && k <= |ivs|
    ensures Ascends(ScanTo(ivs, count, k).active, k)
  {
    if k > 0 {
      ActiveAscends(ivs, count, k - 1);
      ReadyAscends(ivs, count, k - 1);
      NextAscends(ivs, count, Ready(ivs, count, k - 1), k - 1);
    }
  }

  lemma ReadyAscends(ivs: seq<Interval>, count: nat, k: nat)
    requires VregsFit(ivs, count) && k < |ivs| && Ascends(ScanTo(ivs, count, k).active, k)
    ensures Ascends(Ready(ivs, count, k).active, k)
    ensures ScanTo(ivs, count, k + 1) == PlacedNext(ivs, count, Ready(ivs, count, k), k)
  {
    ExpiredAscends(ivs, count, ScanTo(ivs, count, k), ivs[k].start, 0, k);
  }

  lemma NextAscends(ivs: seq<Interval>, count: nat, t: Scan, k: nat)
    requires VregsFit(ivs, count) && InTables(ivs, count, t) && k < |ivs| && Ascends(t.active, k)
    ensures Ascends(PlacedNext(ivs, count, t, k).active, k + 1)
  {
    MoreAscends(t.active, k);
    if |t.active| >= |REGS| {
      var p := FarthestOf(ivs, t.active, |t.active|);
      WithoutAscends(t.active, k, p);
      MoreAscends(Without(t.active, p), k);
    }
  }

  lemma MoreAscends(xs: seq<nat>, k: nat)
    requires Ascends(xs, k)
    ensures Ascends(xs, k + 1) && Ascends(xs + [k], k + 1)
  {
  }

  lemma LastYields(ivs: seq<Interval>, count: nat, k: nat)
    requires InOrder(ivs) && VregsFit(ivs, count) && k < |ivs| && |Ready(ivs, count, k).active| >= |REGS|
    ensures var b := ScanTo(ivs, count, k);
      |b.phys| == |b.stack| == count + 1 && SomeoneYields(ivs, count, b, ScanTo(ivs, count, k + 1), k)
  {
    ActiveAreBusy(ivs, count, k);
    ActiveAscends(ivs, count, k);
    ExpiredAscends(ivs, count, ScanTo(ivs, count, k), ivs[k].start, 0, k);
    FullYields(ivs, count, ScanTo(ivs, count, k), Ready(ivs, count, k), k);
  }

  lemma FarthestBusy(ivs: seq<Interval>, b: Scan, t: Scan, k: nat) returns (p: nat)
    requires k < |ivs| && |t.active| > 0 && Ascends(t.active, k)
    requires forall j: nat :: j in t.active <==> Busy(ivs, b, k, j)
    ensures p == FarthestOf(ivs, t.active, |t.active|) && p < |t.active| && Busy(ivs, b, k, t.active[p])
    ensures forall j: nat :: Busy(ivs, b, k, j) ==>
      ivs[j].end <= ivs[t.active[p]].end && (ivs[j].end == ivs[t.active[p]].end ==> t.active[p] <= j)
  {
    p := FarthestOf(ivs, t.active, |t.active|);
    FarthestIs(ivs, t.active, |t.active|);
    var far := t.active[p];
    assert far in t.active;
    forall j: nat | Busy(ivs, b, k, j)
      ensures ivs[j].end <= ivs[far].end && (ivs[j].end == ivs[far].end ==> far <= j)
    {
      assert j in t.active;
      var q :| 0 <= q < |t.active| && t.active[q] == j;
    }
  }

  lemma FullYields(ivs: seq<Interval>, count: nat, b: Scan, t: Scan, k: nat)
    requires VregsFit(ivs, count) && k < |ivs| && InTables(ivs, count, t) && |t.active| >= |REGS|
    requires t.phys == b.phys && t.stack == b.stack && t.slots == b.slots && Ascends(t.active, k)
    requires forall j: nat :: j in t.active <==> Busy(ivs, b, k, j)
    ensures |b.phys| == |b.stack| == count + 1 && SomeoneYields(ivs, count, b, PlacedNext(ivs, count, t, k), k)
  {
    var p := FarthestBusy(ivs, b, t, k);
    var far := t.active[p];
    var w := if ivs[far].end > ivs[k].end then far else k;
    assert EndsLast(ivs, b, k, w) && Yields(ivs, b, PlacedNext(ivs, count, t, k), k, w);
  }

  /** Every interval in turn: if one of the ten registers is not taken, it gets the first such; otherwise the interval
      that ends last goes to memory. */
  lemma NextChoice(ivs: seq<Interval>, count: nat, k: nat, order: seq<int>)
    requires InOrder(ivs) && VregsFit(ivs, count) && k < |ivs| && order == [3, 6, 7, 8, 9, 10, 11, 13, 14, 15]
    ensures var b, a := ScanTo(ivs, count, k), ScanTo(ivs, count, k + 1);
      && |b.phys| == |b.stack| == count + 1
      && if exists r :: r in order && !IsTaken(ivs, b, k, r) then TakesFirst(ivs, b, a, k, order)
         else SomeoneYields(ivs, count, b, a, k)
  {
    var b, t := ScanTo(ivs, count, k), Ready(ivs, count, k);
    assert order == REGS;
    ActiveAreBusy(ivs, count, k);
    if |t.active| < |REGS| {
      FirstFree(ivs, count, k);
      assert exists r :: r in order && !IsTaken(ivs, b, k, r);
    } else {
      LastYields(ivs, count, k);
      AllTaken(ivs, count, k);
    }
  }

  /** Ten active intervals hold ten different registers. */
  lemma AllTaken(ivs: seq<Interval>, count: nat, k: nat)
    requires InOrder(ivs) && VregsFit(ivs, count) && k < |ivs| && |Ready(ivs, count, k).active| >= |REGS|
    ensures forall r :: r in REGS ==> IsTaken(ivs, ScanTo(ivs, count, k), k, r)
  {
    var b, t := ScanTo(ivs, count, k), Ready(ivs, count, k);
    ActiveAreBusy(ivs, count, k);
    var held := set x | x in t.active :: t.RegOf(ivs, x);
    HeldSize(ivs, t, |t.active|);
    assert held == set p | 0 <= p < |t.active| :: t.RegOf(ivs, t.active[p]);
    var ten := set r | r in REGS;
    SeqImageBound(REGS);
    assert held <= ten;
    SubsetSize(held, ten);
    forall r | r in REGS ensures IsTaken(ivs, b, k, r) {
      assert r in held;
      var x :| x in t.active && t.RegOf(ivs, x) == r;
      assert Busy(ivs, b, k, x);
    }
  }

  lemma SubsetSize(a: set<int>, b: set<int>)
    requires a <= b && |a| >= |b|
    ensures a == b
  {
    assert |b - a| + |a| == |b|;
    assert b - a == {};
  }

  lemma {:induction false} HeldSize(ivs: seq<Interval>, t: Scan, n: nat)
    requires n <= |t.active|
    requires forall x, y :: x in t.active && y in t.active && x != y ==> t.RegOf(ivs, x) != t.RegOf(ivs, y)
    requires forall p, q :: 0 <= p < q < |t.active| ==> t.active[p] != t.active[q]
    ensures |set p | 0 <= p < n :: t.RegOf(ivs, t.active[p])| == n
  {
    if n > 0 {
      HeldSize(ivs, t, n - 1);
      var before := set p | 0 <= p < n - 1 :: t.RegOf(ivs, t.active[p]);
      var r := t.RegOf(ivs, t.active[n - 1]);
      assert (set p | 0 <= p < n :: t.RegOf(ivs, t.active[p])) == before + {r};
      assert r !in before;
    }
  }

  // ----- the whole allocation -----

  /** No register, or one of the ten. */
  predicate IsAllowed(r: int) { r in {-1, 3, 6, 7, 8, 9, 10, 11, 13, 14, 15} }

  ghost predicate AllAllowed(phys: seq<int>) {
    forall v {:trigger phys[v]} :: 0 <= v < |phys| ==> IsAllowed(phys[v])
  }

  lemma NextAllowed(ivs: seq<Interval>, count: nat, k: nat)
    requires InOrder(ivs) && VregsFit(ivs, count) && k < |ivs| && AllAllowed(ScanTo(ivs, count, k).phys)
    ensures AllAllowed(ScanTo(ivs, count, k + 1).phys)
  {
    var order := [3, 6, 7, 8, 9, 10, 11, 13, 14, 15];
    var b, a := ScanTo(ivs, count, k), ScanTo(ivs, count, k + 1);
    NextChoice(ivs, count, k, order);
    if exists r :: r in order && !IsTaken(ivs, b, k, r) {
      var i: nat :| FirstAt(ivs, b, a, k, order, i);
      UpdateAllowed(b.phys, ivs[k].vreg, order[i]);
    } else {
      var w: nat :| EndsLast(ivs, b, k, w) && Yields(ivs, b, a, k, w);
      if w != k {
        UpdateAllowed(b.phys, ivs[k].vreg, b.phys[ivs[w].vreg]);
        UpdateAllowed(b.phys[ivs[k].vreg := b.phys[ivs[w].vreg]], ivs[w].vreg, -1);
      }
    }
  }

  lemma UpdateAllowed(phys: seq<int>, v: nat, r: int)
    requires AllAllowed(phys) && v < |phys| && IsAllowed(r)
    ensures AllAllowed(phys[v := r])
  {
  }

  lemma FreshAllowed(count: nat)
    ensures AllAllowed(FreshScan(count).phys)
  {
  }

  lemma {:induction false} OnlyThose(ivs: seq<Interval>, count: nat, k: nat)
    requires InOrder(ivs) && VregsFit(ivs, count) && k <= |ivs|
    ensures AllAllowed(ScanTo(ivs, count, k).phys)
  {
    if k == 0 {
      FreshAllowed(count);
    } else {
      OnlyThose(ivs, count, k - 1);
      NextAllowed(ivs, count, k - 1);
    }
  }

  /** At first nothing is placed, and the allocation is what stands in the tables after the last interval. */
  lemma AllocationIs(f: Function)
    requires |f.insts| < NEVER
    ensures var ivs := Intervals(f);
      && InOrder(ivs) && VregsFit(ivs, f.vregCount)
      && var first, last := ScanTo(ivs, f.vregCount, 0), ScanTo(ivs, f.vregCount, |ivs|);
         && |first.phys| == |first.stack| == f.vregCount + 1 && first.slots == 0
         && (forall v :: 0 <= v <= f.vregCount ==> first.phys[v] == first.stack[v] == -1)
         && ScanOf(f) == Allocated(last.phys, last.stack, last.slots)
  {
    IntervalsFit(f);
  }

  /** Never rax, rcx, rdx, rsp, rbp or r12. */
  lemma OnlyTheseRegisters(f: Function, v: nat)
    requires |f.insts| < NEVER && v <= f.vregCount
    ensures v < |ScanOf(f).phys| && ScanOf(f).phys[v] in {-1, 3, 6, 7, 8, 9, 10, 11, 13, 14, 15}
  {
    IntervalsFit(f);
    ScanToOk(Intervals(f), f.vregCount, |Intervals(f)|);
    OnlyThose(Intervals(f), f.vregCount, |Intervals(f)|);
    assert IsAllowed(ScanOf(f).phys[v]);
  }
}
