/** The last phase of raising: what depends on loads is emitted after all blocks, in the order of the node ids.
    Exactly when that emits every operand before its use, and what it computes if it does not. */
module LateEmission {
  import opened SeaOfNodes
  import opened Int64
  import opened Valuation
  import opened PassCore
  import opened StraightLine
  import opened Emission
  import T = Tier1

  /** After the nodes below i. */
  ghost function EmitTo(s: Sea, st: Raised, i: nat): Raised
    requires s.WellFormed() && i <= |s.nodes|
  {
    if i == 0 then st
    else
      var t := EmitTo(s, st, i - 1);
      if IsPure(s, i - 1) && i - 1 !in t.vregOf then Emit(s, t, i - 1) else t
  }

  // ----- when the order is right -----

  /** The operands of late nodes have registers before the phase, or are late nodes with smaller ids. */
  ghost predicate LateInOrder(s: Sea, vregOf: map<nat, nat>, i: nat)
    requires s.WellFormed() && i <= |s.nodes|
  {
    forall n {:trigger OrderedAt(s, vregOf, n)} :: 0 <= n < i && IsPure(s, n) && n !in vregOf ==>
        OrderedAt(s, vregOf, n)
  }

  predicate OrderedAt(s: Sea, vregOf: map<nat, nat>, n: nat)
    requires s.HasSlice(n)
  {
    forall j :: 0 <= j < |DataOf(s, n)| ==>
        DataOf(s, n)[j] in vregOf
        || (DataOf(s, n)[j] < n && IsPure(s, DataOf(s, n)[j]))
  }

  /** Some operand of node n has no register when its turn comes. */
  ghost predicate Misses(s: Sea, st: Raised, n: nat)
    requires s.WellFormed() && n < |s.nodes|
  {
    IsPure(s, n) && n !in EmitTo(s, st, n).vregOf
    && exists j :: 0 <= j < |DataOf(s, n)| && DataOf(s, n)[j] !in EmitTo(s, st, n).vregOf
  }

  /** As long as the order is right, exactly the late nodes get registers, and nothing is synthesized. */
  lemma {:induction false} OrderedKeys(s: Sea, st: Raised, i: nat)
    requires s.WellFormed() && i <= |s.nodes| && LateInOrder(s, st.vregOf, i)
    ensures forall n: nat :: n in EmitTo(s, st, i).vregOf <==> n in st.vregOf || (n < i && IsPure(s, n))
  {
    if i > 0 {
      OrderedKeys(s, st, i - 1);
      OrderedKey(s, st, EmitTo(s, st, i - 1), i - 1);
    }
  }

  lemma OrderedKey(s: Sea, st: Raised, t: Raised, n: nat)
    requires s.WellFormed() && n < |s.nodes| && LateInOrder(s, st.vregOf, n + 1)
    requires forall m: nat :: m in t.vregOf <==> m in st.vregOf || (m < n && IsPure(s, m))
    ensures IsPure(s, n) && n !in t.vregOf ==> forall m: nat :: m in Emit(s, t, n).vregOf <==> m == n || m in t.vregOf
  {
    if IsPure(s, n) && n !in t.vregOf {
      assert OrderedAt(s, st.vregOf, n);
      EmitWhole(s, t, n);
    }
  }

  /** No operand is ever missing if and only if the order is right. */
  lemma MissesIff(s: Sea, st: Raised)
    requires s.WellFormed()
    ensures (forall n {:trigger Misses(s, st, n)} :: 0 <= n < |s.nodes| ==> !Misses(s, st, n)) <==>
        LateInOrder(s, st.vregOf, |s.nodes|)
  {
    if LateInOrder(s, st.vregOf, |s.nodes|) {
      forall n | 0 <= n < |s.nodes| ensures !Misses(s, st, n) {
        OrderedKeys(s, st, n);
        if IsPure(s, n) && n !in st.vregOf { assert OrderedAt(s, st.vregOf, n); }
      }
    } else {
      var n := FirstOutOfOrder(s, st.vregOf, |s.nodes|);
      OrderedKeys(s, st, n);
      assert Misses(s, st, n);
    }
  }

  lemma {:induction false} FirstOutOfOrder(s: Sea, vregOf: map<nat, nat>, i: nat) returns (n: nat)
    requires s.WellFormed() && i <= |s.nodes| && !LateInOrder(s, vregOf, i)
    ensures n < i && LateInOrder(s, vregOf, n) && IsPure(s, n) && n !in vregOf && !OrderedAt(s, vregOf, n)
  {
    n := i - 1;
    if !LateInOrder(s, vregOf, n) { n := FirstOutOfOrder(s, vregOf, n); }
  }

  // ----- what the emitted code computes -----

  /** In the right order the code stays right, so that every late node's register holds its value in the end. */
  lemma {:induction false} OrderedComputes(ext: Ext, s: Sea, st: Raised, i: nat)
    requires PureComputes(s) && Right(ext, s, st) && i <= |s.nodes| && LateInOrder(s, st.vregOf, i)
    ensures Right(ext, s, EmitTo(s, st, i))
  {
    if i > 0 {
      OrderedComputes(ext, s, st, i - 1);
      OrderedKeys(s, st, i - 1);
      NextComputes(ext, s, st, EmitTo(s, st, i - 1), i - 1);
    }
  }

  lemma NextComputes(ext: Ext, s: Sea, st: Raised, t: Raised, n: nat)
    requires PureComputes(s) && Right(ext, s, t) && n < |s.nodes| && LateInOrder(s, st.vregOf, n + 1)
    requires forall m: nat :: m in t.vregOf <==> m in st.vregOf || (m < n && IsPure(s, m))
    ensures IsPure(s, n) && n !in t.vregOf ==> Right(ext, s, Emit(s, t, n))
  {
    if IsPure(s, n) && n !in t.vregOf {
      assert OrderedAt(s, st.vregOf, n);
      assert Fetched(t, DataOf(s, n));
      EmitRight(ext, s, t, n);
    }
  }

  /** In any order it keeps its shape. */
  lemma {:induction false} LateShapely(s: Sea, st: Raised, i: nat, labels: nat)
    requires PureComputes(s) && i <= |s.nodes| && Shapely(st, |s.nodes|, labels)
    requires forall n {:trigger IsPure(s, n)} :: 0 <= n < |s.nodes| && IsPure(s, n) ==> n !in DataOf(s, n)
    ensures Shapely(EmitTo(s, st, i), |s.nodes|, labels)
  {
    if i > 0 {
      LateShapely(s, st, i - 1, labels);
      var t, n := EmitTo(s, st, i - 1), i - 1;
      if IsPure(s, n) && n !in t.vregOf { EmitShapely(s, t, n, |s.nodes|, labels); }
    }
  }

  // ----- what it computes in the wrong order -----

  /** What a run of the code makes of the registers; a label does nothing. */
  function Run(alu: T.Alu, code: seq<T.Inst>, locals: seq<i64>, regs: map<nat, i64>): map<nat, i64> {
    if |code| == 0 then regs
    else
      var before, i := Run(alu, code[..|code| - 1], locals, regs), code[|code| - 1];
      if i.op == T.Label then before else Advanced(alu, i, locals, before)
  }

  lemma RunMore(alu: T.Alu, code: seq<T.Inst>, i: T.Inst, locals: seq<i64>, regs: map<nat, i64>)
    requires i.op != T.Label
    ensures Run(alu, code + [i], locals, regs) == Advanced(alu, i, locals, Run(alu, code, locals, regs))
  {
    assert (code + [i])[..|code|] == code;
  }

  /** Emission hands out new registers only: nodes keep theirs, and the code writes no others. */
  ghost predicate Later(alu: T.Alu, locals: seq<i64>, regs: map<nat, i64>, t: Raised, u: Raised) {
    && t.vregs <= u.vregs && (forall n :: n in t.vregOf ==> n in u.vregOf && u.vregOf[n] == t.vregOf[n])
    && (forall r :: r in Run(alu, t.code, locals, regs) && r <= t.vregs ==>
          r in Run(alu, u.code, locals, regs) && Run(alu, u.code, locals, regs)[r] == Run(alu, t.code, locals, regs)[r])
  }

  /** The nodes' registers have been handed out. */
  ghost predicate Bounded(t: Raised) { forall n :: n in t.vregOf ==> t.vregOf[n] <= t.vregs }

  lemma WithVregLater(alu: T.Alu, locals: seq<i64>, regs: map<nat, i64>, t: Raised, n: nat)
    requires Bounded(t)
    ensures Later(alu, locals, regs, t, WithVreg(t, n)) && Bounded(WithVreg(t, n)) && n in WithVreg(t, n).vregOf
  {
    if n !in t.vregOf { RunMore(alu, t.code, T.Inst(T.LoadConstImm, t.vregs + 1, 0, 0, 0), locals, regs); }
  }

  /** The synthesized register holds 0. */
  lemma WithVregZero(ext: Ext, locals: seq<i64>, regs: map<nat, i64>, t: Raised, n: nat)
    requires n !in t.vregOf
    ensures var u := WithVreg(t, n);
      u.vregOf[n] in Run(T.Meaning(ext), u.code, locals, regs)
      && Run(T.Meaning(ext), u.code, locals, regs)[u.vregOf[n]] == 0
  {
    RunMore(T.Meaning(ext), t.code, T.Inst(T.LoadConstImm, t.vregs + 1, 0, 0, 0), locals, regs);
  }

  lemma LaterTransitive(alu: T.Alu, locals: seq<i64>, regs: map<nat, i64>, t: Raised, u: Raised, w: Raised)
    requires Later(alu, locals, regs, t, u) && Later(alu, locals, regs, u, w)
    ensures Later(alu, locals, regs, t, w)
  {
  }

  lemma {:induction false} WithVregsLater(alu: T.Alu, locals: seq<i64>, regs: map<nat, i64>, t: Raised, data: seq<nat>)
    requires Bounded(t)
    ensures Later(alu, locals, regs, t, WithVregs(t, data)) && Bounded(WithVregs(t, data))
  {
    if |data| > 0 {
      var u := WithVregs(t, data[..|data| - 1]);
      WithVregsLater(alu, locals, regs, t, data[..|data| - 1]);
      WithVregLater(alu, locals, regs, u, data[|data| - 1]);
      LaterTransitive(alu, locals, regs, t, u, WithVregs(t, data));
    }
  }

  /** Node d has a register, and it holds 0. */
  ghost predicate Zeroed(ext: Ext, locals: seq<i64>, regs: map<nat, i64>, t: Raised, d: nat) {
    d in t.vregOf && t.vregOf[d] <= t.vregs
    && t.vregOf[d] in Run(T.Meaning(ext), t.code, locals, regs)
    && Run(T.Meaning(ext), t.code, locals, regs)[t.vregOf[d]] == 0
  }

  lemma {:induction false} MissedZeroed(ext: Ext, locals: seq<i64>, regs: map<nat, i64>, t: Raised, data: seq<nat>,
      j: nat)
    requires Bounded(t) && j < |data| && data[j] !in t.vregOf
    ensures Zeroed(ext, locals, regs, WithVregs(t, data), data[j]) && t.vregs < WithVregs(t, data).vregOf[data[j]]
  {
    var u, last := WithVregs(t, data[..|data| - 1]), |data| - 1;
    WithVregsLater(T.Meaning(ext), locals, regs, t, data[..last]);
    WithVregLater(T.Meaning(ext), locals, regs, u, data[last]);
    if data[j] in u.vregOf {
      var k := WhereFetched(t, data[..last], data[j]);
      MissedZeroed(ext, locals, regs, t, data[..last], k);
    } else if j < last {
      FetchedAt(t, data[..last], j);
    } else {
      WithVregZero(ext, locals, regs, u, data[last]);
    }
  }

  lemma {:induction false} FetchedAt(t: Raised, data: seq<nat>, j: nat)
    requires j < |data|
    ensures data[j] in WithVregs(t, data).vregOf
  {
    if j < |data| - 1 { FetchedAt(t, data[..|data| - 1], j); }
  }

  lemma {:induction false} WhereFetched(t: Raised, data: seq<nat>, d: nat) returns (k: nat)
    requires d !in t.vregOf && d in WithVregs(t, data).vregOf
    ensures k < |data| && data[k] == d
  {
    k := |data| - 1;
    if data[k] != d { k := WhereFetched(t, data[..k], d); }
  }

  lemma EmitPlaces(s: Sea, t: Raised, n: nat) returns (i: T.Inst)
    requires s.HasSlice(n)
    ensures i.dst == t.vregs + 1 && i.op != T.Label
    ensures Emit(s, t, n) == Placed(WithVregs(t.(vregs := t.vregs + 1), DataOf(s, n)), n, i)
  {
    i := InstFor(s, n, WithVregs(t.(vregs := t.vregs + 1), DataOf(s, n)).vregOf, t.vregs + 1);
  }

  lemma PlacedLater(alu: T.Alu, locals: seq<i64>, regs: map<nat, i64>, t: Raised, u: Raised, n: nat, i: T.Inst)
    requires Later(alu, locals, regs, t.(vregs := t.vregs + 1), u) && Bounded(u) && n !in t.vregOf
    requires i.dst == t.vregs + 1 && i.op != T.Label
    ensures Later(alu, locals, regs, t, Placed(u, n, i)) && Bounded(Placed(u, n, i))
  {
    RunMore(alu, u.code, i, locals, regs);
  }

  lemma EmitLater(alu: T.Alu, locals: seq<i64>, regs: map<nat, i64>, s: Sea, t: Raised, n: nat)
    requires s.HasSlice(n) && Bounded(t) && n !in t.vregOf
    ensures Later(alu, locals, regs, t, Emit(s, t, n)) && Bounded(Emit(s, t, n))
  {
    var i := EmitPlaces(s, t, n);
    WithVregsLater(alu, locals, regs, t.(vregs := t.vregs + 1), DataOf(s, n));
    PlacedLater(alu, locals, regs, t, WithVregs(t.(vregs := t.vregs + 1), DataOf(s, n)), n, i);
  }

  lemma {:induction false} EmitToLater(alu: T.Alu, locals: seq<i64>, regs: map<nat, i64>, s: Sea, st: Raised, k: nat,
      i: nat)
    requires s.WellFormed() && k <= i <= |s.nodes| && Bounded(st)
    ensures Bounded(EmitTo(s, st, k)) && Later(alu, locals, regs, EmitTo(s, st, k), EmitTo(s, st, i))
    decreases i, k
  {
    if k < i {
      EmitToLater(alu, locals, regs, s, st, k, i - 1);
      EmitToLater(alu, locals, regs, s, st, i - 1, i - 1);
      NextLater(alu, locals, regs, s, st, i);
      LaterTransitive(alu, locals, regs, EmitTo(s, st, k), EmitTo(s, st, i - 1), EmitTo(s, st, i));
    } else if i > 0 {
      EmitToLater(alu, locals, regs, s, st, i - 1, i - 1);
      NextLater(alu, locals, regs, s, st, i);
    }
  }

  lemma NextLater(alu: T.Alu, locals: seq<i64>, regs: map<nat, i64>, s: Sea, st: Raised, i: nat)
    requires s.WellFormed() && 0 < i <= |s.nodes| && Bounded(EmitTo(s, st, i - 1))
    ensures Bounded(EmitTo(s, st, i)) && Later(alu, locals, regs, EmitTo(s, st, i - 1), EmitTo(s, st, i))
  {
    var t, n := EmitTo(s, st, i - 1), i - 1;
    if IsPure(s, n) && n !in t.vregOf { EmitLater(alu, locals, regs, s, t, n); }
  }

  lemma LaterZeroed(ext: Ext, locals: seq<i64>, regs: map<nat, i64>, t: Raised, u: Raised, d: nat)
    requires Zeroed(ext, locals, regs, t, d) && Later(T.Meaning(ext), locals, regs, t, u)
    ensures Zeroed(ext, locals, regs, u, d)
  {
  }

  lemma PlacedZeroed(ext: Ext, locals: seq<i64>, regs: map<nat, i64>, u: Raised, n: nat, i: T.Inst, d: nat)
    requires Zeroed(ext, locals, regs, u, d) && d != n && i.dst != u.vregOf[d] && i.op != T.Label
    ensures Zeroed(ext, locals, regs, Placed(u, n, i), d)
  {
    RunMore(T.Meaning(ext), u.code, i, locals, regs);
  }

  lemma EmitZeroes(ext: Ext, locals: seq<i64>, regs: map<nat, i64>, s: Sea, t: Raised, n: nat, j: nat)
    requires s.HasSlice(n) && Bounded(t) && j < |DataOf(s, n)| && DataOf(s, n)[j] !in t.vregOf && DataOf(s, n)[j] != n
    ensures Zeroed(ext, locals, regs, Emit(s, t, n), DataOf(s, n)[j])
  {
    var i := EmitPlaces(s, t, n);
    MissedZeroed(ext, locals, regs, t.(vregs := t.vregs + 1), DataOf(s, n), j);
    PlacedZeroed(ext, locals, regs, WithVregs(t.(vregs := t.vregs + 1), DataOf(s, n)), n, i, DataOf(s, n)[j]);
  }

  /** In the wrong order, a missed operand counts as 0 from then on, whatever its value: being taken for emitted, it is
      never computed. */
  lemma MissedStaysZero(ext: Ext, locals: seq<i64>, regs: map<nat, i64>, s: Sea, st: Raised, n: nat, j: nat)
    requires s.WellFormed() && n < |s.nodes| && Bounded(st) && Misses(s, st, n)
    requires j < |DataOf(s, n)| && DataOf(s, n)[j] !in EmitTo(s, st, n).vregOf && DataOf(s, n)[j] != n
    ensures Zeroed(ext, locals, regs, EmitTo(s, st, |s.nodes|), DataOf(s, n)[j])
  {
    EmitToLater(T.Meaning(ext), locals, regs, s, st, n, n);
    EmitZeroes(ext, locals, regs, s, EmitTo(s, st, n), n, j);
    EmitToLater(T.Meaning(ext), locals, regs, s, st, n + 1, |s.nodes|);
    LaterZeroed(ext, locals, regs, EmitTo(s, st, n + 1), EmitTo(s, st, |s.nodes|), DataOf(s, n)[j]);
  }
}
