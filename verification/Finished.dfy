/** What a graph looks like in which the pipeline finds nothing more to do, in terms of kinds, flags, inputs and
    payloads. */
module Finished {
  import opened SeaOfNodes
  import opened UsePool
  import opened UseLists
  import opened Int64
  import opened Valuation
  import opened Rewrites
  import opened PassCore
  import opened DeadNodes
  import opened FoldPasses
  import opened StrengthReduction
  import opened ScanBudget
  import opened ValueNumbers
  import opened Reachability
  import opened CleanupPasses
  import opened NumberingScans
  import opened Ascending
  import opened Pipeline
  import opened FoldRules
  import P = Powers

  // ----- nothing to fold -----

  /** 1, 2, 4 and so on. */
  predicate PowerOfTwo(c: int) {
    c == 1 || (c > 1 && c % 2 == 0 && PowerOfTwo(c / 2))
  }

  /** A product or quotient by a positive power of two below 2^63. */
  ghost predicate Shifts(s: Sea, n: nat, x: nat, y: nat, c: int)
    requires s.HasSlice(n)
  {
    && s.nodes[n].kind in {Mul, Div} && HasOperands(s.Inputs(n), x, y) && x < |s.nodes|
    && PowerOfTwo(c) && c < 0x8000_0000_0000_0000 && ConstantOf(s, y, c)
  }

  /** Some rule has an answer to the node. */
  ghost predicate Foldable(s: Sea, n: nat)
    requires s.WellFormed() && n < |s.nodes|
  {
    || (exists x: nat, y: nat :: FoldsConstants(s, n, x, y))
    || (exists x: nat, y: nat :: Simplifies(s, n, x, y))
    || ComparisonFolds(s, n)
    || exists x: nat, y: nat, c: int :: Shifts(s, n, x, y, c)
  }

  lemma {:induction false} ExponentOf(c: int) returns (k: nat)
    requires PowerOfTwo(c)
    ensures c == Pow2(k)
  {
    if c == 1 {
      k := 0;
    } else {
      k := ExponentOf(c / 2);
      k := k + 1;
    }
  }

  lemma ExponentBelow63(k: nat)
    requires Pow2(k) < 0x8000_0000_0000_0000
    ensures k < 63
  {
    if k >= 63 {
      P.Pow2Monotone(63, k);
      P.Pow2Of63();
    }
  }

  lemma NoShift(s: Sea, n: nat, x: nat, y: nat, c: int)
    requires s.WellFormed() && n < |s.nodes| && s.Live(n) && PlanFor(ReduceStrength, s, n).Keep?
    ensures !Shifts(s, n, x, y, c)
  {
    ReduceStrengthFires(s, n);
    if PowerOfTwo(c) && c < 0x8000_0000_0000_0000 {
      var k := ExponentOf(c);
      ExponentBelow63(k);
      TwoOperandsAre(s.Inputs(n), x, y);
      ConstantIs(s, y, c);
      assert !Shiftable(s, n, x, k);
    }
  }

  lemma NotFoldable(s: Sea, n: nat)
    requires s.WellFormed() && n < |s.nodes| && s.Live(n)
    requires forall rule: Rule :: PlanFor(rule, s, n).Keep?
    ensures !Foldable(s, n)
  {
    ConstantsFold(s, n);
    AlgebraSimplifies(s, n);
    ComparisonsFold(s, n);
    forall x: nat, y: nat, c: int ensures !Shifts(s, n, x, y, c) { NoShift(s, n, x, y, c); }
  }

  lemma RulesIdle(s: Sea, n: nat)
    requires s.WellFormed() && AllIdle(PASSES, s) && 0 < n < |s.nodes|
    ensures forall rule: Rule :: PlanFor(rule, s, n).Keep?
  {
    assert IdleAt(PASSES, s, 1) && IdleAt(PASSES, s, 2) && IdleAt(PASSES, s, 3) && IdleAt(PASSES, s, 4);
    assert !FiresAt(FoldConstants, s, n) && !FiresAt(SimplifyAlgebra, s, n);
    assert !FiresAt(FoldComparisons, s, n) && !FiresAt(ReduceStrength, s, n);
    forall rule: Rule ensures PlanFor(rule, s, n).Keep? {
      match rule case FoldConstants => case SimplifyAlgebra => case FoldComparisons => case ReduceStrength =>
    }
  }

  // ----- nothing computed twice -----

  /** The same inputs, effects and frame states aside. */
  predicate SameOperands(es: seq<Edge>, fs: seq<Edge>) {
    && |es| == |fs|
    && forall i :: 0 <= i < |es| ==> es[i] == fs[i] || (es[i].kind in {Effect, Frame} && fs[i].kind in {Effect, Frame})
  }

  predicate Swapped(es: seq<Edge>, fs: seq<Edge>) {
    && |es| == |fs| == 2 && es[0] == fs[1] && es[1] == fs[0] && es[0].kind == es[1].kind == Data
  }

  /** Two live nodes open to value numbering, of one kind and payload, with the same operands, or, both flagged
      commutative, with the same two operands in either order. */
  ghost predicate Twins(s: Sea, m: nat, n: nat)
    requires s.HasSlice(m) && s.HasSlice(n)
  {
    var a, b := s.nodes[m], s.nodes[n];
    && s.Live(m) && s.Live(n) && GVNable in a.flags && GVNable in b.flags && a.kind == b.kind && a.payload == b.payload
    && ((SameOperands(s.Inputs(m), s.Inputs(n)) && (Commutative in a.flags <==> Commutative in b.flags))
        || (Swapped(s.Inputs(m), s.Inputs(n)) && Commutative in a.flags && Commutative in b.flags))
  }

  lemma {:induction false} SameIds(es: seq<Edge>, fs: seq<Edge>)
    requires SameOperands(es, fs)
    ensures IdsOf(es) == IdsOf(fs)
  {
    if |es| > 0 {
      assert es[0] == fs[0] || (es[0].kind in {Effect, Frame} && fs[0].kind in {Effect, Frame});
      SameIds(es[1..], fs[1..]);
    }
  }

  lemma TwinsShareKey(s: Sea, m: nat, n: nat)
    requires s.HasSlice(m) && s.HasSlice(n) && Twins(s, m, n)
    ensures KeyOf(s, m) == KeyOf(s, n)
  {
    var es, fs := s.Inputs(m), s.Inputs(n);
    if SameOperands(es, fs) { SameIds(es, fs); }
    if Swapped(es, fs) && Commutative in s.nodes[m].flags && Commutative in s.nodes[n].flags {
      assert es == [es[0], es[1]] && fs == [es[1], es[0]];
      TwoIds(es[0].target, es[1].target);
      TwoIds(es[1].target, es[0].target);
      assert multiset([es[0].target, es[1].target]) == multiset([es[1].target, es[0].target]);
      CommutativeKeys(s, m, n);
    }
  }

  lemma TwoIds(a: nat, b: nat)
    ensures IdsOf([Edge(a, Data), Edge(b, Data)]) == [a, b]
  {
    assert [Edge(b, Data)][1..] == [];
    assert IdsOf([Edge(b, Data)]) == [b] + IdsOf([]);
    assert [Edge(a, Data), Edge(b, Data)][1..] == [Edge(b, Data)];
  }

  lemma NoTwins(s: Sea, m: nat, n: nat)
    requires s.WellFormed() && NoDuplicates(s) && 0 < m < n < |s.nodes|
    ensures !Twins(s, m, n)
  {
    if Twins(s, m, n) { TwinsShareKey(s, m, n); }
  }

  // ----- nothing unused, nothing unreachable -----

  ghost predicate IsUsed(s: Sea, n: nat) {
    exists e :: 0 <= e < |s.edges| && s.edges[e].target == n
  }

  /** Dead code is a live node flagged pure to which no edge leads, as far as 16 bits can tell. */
  lemma UnusedIff(s: Sea, n: nat)
    ensures n in Unused(s) <==>
      0 < n < |s.nodes| && s.Live(n) && Pure in s.nodes[n].flags && EdgeCount(s.edges, n) % 65536 == 0
    ensures EdgeCount(s.edges, n) == 0 <==> !IsUsed(s, n)
  {
    Low16IsMod(EdgeCount(s.edges, n));
    EdgeCountZero(s.edges, n);
  }

  lemma PureUsed(s: Sea, n: nat)
    requires Unused(s) == {} && 0 < n < |s.nodes| && s.Live(n) && Pure in s.nodes[n].flags
    ensures IsUsed(s, n)
  {
    assert n !in Unused(s);
    EdgeCountZero(s.edges, n);
  }

  /** Live nodes from Start to n, each of them a control input of the next. */
  ghost predicate IsControlChain(s: Sea, p: seq<nat>, n: nat) {
    && |p| > 0 && p[0] == s.start && p[|p| - 1] == n
    && forall i :: 0 < i < |p| ==>
         0 < p[i] && s.HasSlice(p[i]) && s.Live(p[i]) && Edge(p[i - 1], Control) in s.Inputs(p[i])
  }

  /** From Stop to n, each of them a data or effect input of the one before. */
  ghost predicate IsFeedChain(s: Sea, p: seq<nat>, n: nat) {
    && |p| > 1 && p[0] == s.stop && p[|p| - 1] == n
    && forall i :: 0 < i < |p| ==> FeedsInto(s, p[i], p[i - 1])
  }

  predicate FeedsInto(s: Sea, y: nat, x: nat) {
    s.HasSlice(x) && y != 4294967295 && (Edge(y, Data) in s.Inputs(x) || Edge(y, Effect) in s.Inputs(x))
  }

  /** Control and effect nodes are reached from Start; from the others, Stop is reached. */
  ghost predicate IsNeeded(s: Sea, n: nat)
    requires n < |s.nodes|
  {
    if IsControl in s.nodes[n].flags || IsEffect in s.nodes[n].flags then exists p :: IsControlChain(s, p, n)
    else exists p :: IsFeedChain(s, p, n)
  }

  lemma KeptNeeded(s: Sea, n: nat)
    requires n < |s.nodes| && Kept(s, n) && n != s.start && n != s.stop
    ensures IsNeeded(s, n)
  {
    if IsControl in s.nodes[n].flags || IsEffect in s.nodes[n].flags {
      var p :| LeadsTo(ControlStep(s), {s.start}, p, n);
      forall i | 0 < i < |p|
        ensures 0 < p[i] && s.HasSlice(p[i]) && s.Live(p[i]) && Edge(p[i - 1], Control) in s.Inputs(p[i])
      {
        assert ControlStep(s)(p[i - 1], p[i]);
      }
      assert IsControlChain(s, p, n);
    } else {
      var p :| LeadsTo(FeedStep(s), Feeds(s, s.stop), p, n);
      var q := [s.stop] + p;
      forall i | 0 < i < |q| ensures FeedsInto(s, q[i], q[i - 1]) {
        if i > 1 { assert FeedStep(s)(p[i - 2], p[i - 1]); }
      }
      assert IsFeedChain(s, q, n);
    }
  }

  lemma ChainExecutes(s: Sea, p: seq<nat>, n: nat)
    requires IsControlChain(s, p, n)
    ensures Executed(s, n)
  {
    forall i | 0 < i < |p| ensures ControlStep(s)(p[i - 1], p[i]) {}
    assert LeadsTo(ControlStep(s), {s.start}, p, n);
  }

  lemma ChainContributes(s: Sea, p: seq<nat>, n: nat)
    requires IsFeedChain(s, p, n)
    ensures Contributes(s, n)
  {
    assert FeedsInto(s, p[1], p[0]);
    var q := p[1..];
    forall i | 0 < i < |q| ensures FeedStep(s)(q[i - 1], q[i]) { assert FeedsInto(s, p[i + 1], p[i]); }
    assert FeedStep(s)(s.stop, p[1]);
    assert p[1] in Feeds(s, s.stop);
    assert LeadsTo(FeedStep(s), Feeds(s, s.stop), q, n);
  }

  /** Pruning removes exactly the live nodes that are not needed, Start and Stop aside. */
  lemma PrunedIff(s: Sea, n: nat)
    ensures n in Pruned(s) <==>
      0 < n < |s.nodes| && s.Live(n) && n != s.start && n != s.stop && !IsNeeded(s, n)
  {
    if 0 < n < |s.nodes| && s.Live(n) && n != s.start && n != s.stop {
      if IsNeeded(s, n) {
        if IsControl in s.nodes[n].flags || IsEffect in s.nodes[n].flags {
          var p :| IsControlChain(s, p, n);
          ChainExecutes(s, p, n);
        } else {
          var p :| IsFeedChain(s, p, n);
          ChainContributes(s, p, n);
        }
      } else if Kept(s, n) {
        KeptNeeded(s, n);
      }
    }
  }

  // ----- all of it -----

  /** No live node has a form that a rule folds; nothing is computed twice; pure nodes are used; and every
      node is needed. */
  ghost predicate NothingLeft(s: Sea)
    requires s.WellFormed()
  {
    && (forall n {:trigger Foldable(s, n)} :: 0 < n < |s.nodes| && s.Live(n) ==> !Foldable(s, n))
    && (forall m, n {:trigger Twins(s, m, n)} :: 0 < m < n < |s.nodes| ==> !Twins(s, m, n))
    && (forall n {:trigger IsUsed(s, n)} :: 0 < n < |s.nodes| && s.Live(n) && Pure in s.nodes[n].flags ==> IsUsed(s, n))
    && (s.start != NO_NODE ==> forall n {:trigger IsNeeded(s, n)} ::
          0 < n < |s.nodes| && s.Live(n) && n != s.start && n != s.stop ==> IsNeeded(s, n))
  }

  /** That is what the pipeline leaves when it stops by itself. */
  lemma IdleFinishes(s: Sea)
    requires s.WellFormed() && AllIdle(PASSES, s)
    ensures NothingLeft(s)
  {
    assert IdleAt(PASSES, s, 0) && IdleAt(PASSES, s, 5) && IdleAt(PASSES, s, 6);
    forall n | 0 < n < |s.nodes| && s.Live(n) ensures !Foldable(s, n) {
      RulesIdle(s, n);
      NotFoldable(s, n);
    }
    forall m, n | 0 < m < n < |s.nodes| ensures !Twins(s, m, n) { NoTwins(s, m, n); }
    forall n | 0 < n < |s.nodes| && s.Live(n) && Pure in s.nodes[n].flags ensures IsUsed(s, n) { PureUsed(s, n); }
    if s.start != NO_NODE {
      forall n | 0 < n < |s.nodes| && s.Live(n) && n != s.start && n != s.stop ensures IsNeeded(s, n) {
        assert n !in Pruned(s);
        KeptNeeded(s, n);
      }
    }
  }

  /** What a pass makes of a graph. */
  ghost predicate Makes(pass: PassId, s: Sea, t: Sea) {
    s.WellFormed() && t.WellFormed() && PassDoes(pass, s, t)
  }

  lemma RoundMakes(passes: seq<PassId>, g: seq<Sea>, s: Sea, t: Sea, k: nat)
    requires IsRound(passes, g, s, t) && k < |passes| && k + 1 < |g|
    ensures Makes(passes[k], g[k], g[k + 1])
  {
    assert RoundMove(passes, g, k);
  }

  /** One round is numbering, the four rules in this order, pruning and dead code elimination. */
  lemma RoundInOrder(s: Sea, t: Sea) returns (g: seq<Sea>)
    requires RoundTo(PASSES, s, t)
    ensures |g| == 8 && g[0] == s && g[7] == t
    ensures var order := [Numbering, Folding(FoldConstants), Folding(SimplifyAlgebra), Folding(FoldComparisons),
        Folding(ReduceStrength), Pruning, DeadCode];
      forall k {:trigger Makes(order[k], g[k], g[k + 1])} :: 0 <= k < 7 ==> Makes(order[k], g[k], g[k + 1])
  {
    var passes := PASSES;
    assert passes == [Numbering, Folding(FoldConstants), Folding(SimplifyAlgebra), Folding(FoldComparisons),
                      Folding(ReduceStrength), Pruning, DeadCode];
    g :| IsRound(passes, g, s, t) && |g| == |passes| + 1;
    forall k | 0 <= k < 7 ensures Makes(passes[k], g[k], g[k + 1]) { RoundMakes(passes, g, s, t, k); }
  }

  /** The optimizing compiler's pipeline: at most eight rounds, and nothing left to do if fewer were enough. */
  method RunTier2Pipeline(g: Graph, ghost ext: Ext, ghost rank0: seq<nat>)
    returns (total: PassResult, ghost rank: seq<nat>, ghost rounds: seq<Sea>)
    requires g.Valid() && Ready(g.View(), |g.uses|, rank0)
    modifies g
    ensures g.Valid() && Advances(ext, old(g.View()), g.View(), rank) && |g.nodes| <= 3 * old(|g.nodes|)
    ensures old(IsCalm(g.View())) ==> IsCalm(g.View())
    ensures Settles(PASSES, 8, old(g.View()), g.View())
    ensures AreRounds(PASSES, rounds, old(g.View()), g.View()) && |rounds| <= 9
    ensures |rounds| < 9 ==> NothingLeft(g.View())
    ensures total.changed <==> |rounds| > 1
    ensures Tallies(old(g.View()), g.View(), total)
  {
    ghost var s := g.View();
    total, rank, rounds := RunToFixpoint(g, PASSES, ROUNDS, ext, rank0);
    if |rounds| < 9 { IdleFinishes(g.View()); }
  }
}
