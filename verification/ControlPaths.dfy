/** Control paths of a graph, in terms of its nodes and edges, and climbing an array of immediate dominators. */
module ControlPaths {
  import opened SeaOfNodes
  import opened Dominators

  /** A chain from Start to n: after Start come live control nodes, each with its predecessor as a control input. */
  ghost predicate IsControlPath(s: Sea, p: seq<nat>, n: nat) {
    && |p| > 0 && p[0] == s.start && p[|p| - 1] == n
    && forall i :: 0 < i < |p| ==> IsControlLink(s, p[i - 1], p[i])
  }

  predicate IsControlLink(s: Sea, m: nat, n: nat) {
    && s.HasSlice(n) && IsDead !in s.nodes[n].flags
    && s.nodes[n].kind in {Start, Region, If, IfTrue, IfFalse, Loop, LoopExit, Stop, Jump, Return, Unreachable}
    && Edge(m, Control) in s.Inputs(n)
  }

  /** Some control path leads to n. */
  ghost predicate IsReached(s: Sea, n: nat) {
    exists p :: IsControlPath(s, p, n)
  }

  /** Every control path to n goes through d. */
  ghost predicate IsDominated(s: Sea, d: nat, n: nat) {
    forall p :: IsControlPath(s, p, n) ==> d in p
  }

  /** The entry of the entry of ... of n, k times. */
  function Up(idom: seq<nat>, n: nat, k: nat): nat
    decreases k
  {
    if k == 0 || n >= |idom| then n else Up(idom, idom[n], k - 1)
  }

  ghost predicate IsAbove(idom: seq<nat>, d: nat, n: nat) {
    exists k: nat :: Up(idom, n, k) == d
  }

  /** d is on the chain of n if climbing from n leads to it. */
  lemma {:induction false} ChainIsUp(c: Cfg, o: Order, idom: seq<nat>, d: nat, n: nat, k: nat)
    requires Tree(c, o, idom) && Known(idom, n) && Up(idom, n, k) == d
    ensures OnChain(c, o, idom, d, n)
    decreases k
  {
    if k > 0 {
      if n == c.start {
        ChainIsUp(c, o, idom, d, n, k - 1);
      } else {
        assert Climbs(o, idom, n);
        ChainIsUp(c, o, idom, d, idom[n], k - 1);
      }
    }
  }

  lemma {:induction false} UpTheChain(c: Cfg, o: Order, idom: seq<nat>, d: nat, n: nat) returns (k: nat)
    requires Tree(c, o, idom) && Known(idom, n) && OnChain(c, o, idom, d, n)
    ensures Up(idom, n, k) == d
    decreases o.index[n]
  {
    k := 0;
    if d != n {
      assert Climbs(o, idom, n);
      k := UpTheChain(c, o, idom, d, idom[n]);
      k := k + 1;
    }
  }

  lemma AboveIff(c: Cfg, o: Order, idom: seq<nat>, d: nat, n: nat)
    requires Tree(c, o, idom) && Known(idom, n)
    ensures IsAbove(idom, d, n) <==> OnChain(c, o, idom, d, n)
  {
    if k: nat :| Up(idom, n, k) == d { ChainIsUp(c, o, idom, d, n, k); }
    if OnChain(c, o, idom, d, n) { var k := UpTheChain(c, o, idom, d, n); }
  }

  /** Start is first met after k steps. */
  predicate IsDepth(idom: seq<nat>, start: nat, n: nat, k: nat) {
    Up(idom, n, k) == start && forall j :: 0 <= j < k ==> Up(idom, n, j) != start
  }

  lemma DepthNext(idom: seq<nat>, start: nat, n: nat, k: nat)
    requires n < |idom| && n != start && IsDepth(idom, start, idom[n], k)
    ensures IsDepth(idom, start, n, k + 1)
  {
    forall j | 0 <= j < k + 1 ensures Up(idom, n, j) != start {
      if j > 0 { assert Up(idom, n, j) == Up(idom, idom[n], j - 1); }
    }
  }
}
