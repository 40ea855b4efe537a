/** How many nodes a pass removes: what it reports is how many more are dead afterwards. */
module DeadNodes {
  import opened SeaOfNodes
  import opened Valuation
  import opened Rewrites
  import opened PassCore

  function DeadCount(ns: seq<Node>): nat {
    if |ns| == 0 then 0 else DeadCount(ns[..|ns| - 1]) + if IsDead in ns[|ns| - 1].flags then 1 else 0
  }

  /** From s to t so many nodes died, and at least so many were added. */
  ghost predicate Tallies(s: Sea, t: Sea, r: PassResult) {
    DeadCount(t.nodes) == DeadCount(s.nodes) + r.removed && |t.nodes| >= |s.nodes| + r.added
  }

  lemma DeadAppended(ns: seq<Node>, n: Node)
    ensures DeadCount(ns + [n]) == DeadCount(ns) + if IsDead in n.flags then 1 else 0
  {
    assert (ns + [n])[..|ns|] == ns;
  }

  lemma {:induction false} DeadKilled(ns: seq<Node>, i: nat, n: Node)
    requires i < |ns| && IsDead !in ns[i].flags && IsDead in n.flags
    ensures DeadCount(ns[i := n]) == DeadCount(ns) + 1
  {
    var last := |ns| - 1;
    if i == last {
      assert ns[i := n][..last] == ns[..last];
    } else {
      assert ns[i := n][..last] == ns[..last][i := n];
      DeadKilled(ns[..last], i, n);
    }
  }

  lemma KillTallied(s: Sea, i: nat)
    requires i < |s.nodes| && s.Live(i)
    ensures DeadCount(s.Kill(i).nodes) == DeadCount(s.nodes) + 1
  {
    DeadKilled(s.nodes, i, s.Kill(i).nodes[i]);
  }

  lemma {:induction false} AppendAllTallied(s: Sea, extra: seq<NewNode>)
    requires forall k :: 0 <= k < |extra| ==> IsDead !in extra[k].flags
    ensures DeadCount(AppendAll(s, extra).nodes) == DeadCount(s.nodes)
    decreases |extra|
  {
    if |extra| > 0 {
      var f := extra[0];
      DeadAppended(s.nodes, Node(f.kind, f.flags, f.ty, f.payload, |s.edges|, |f.inputs|));
      AppendAllTallied(Appended(s, f), extra[1..]);
    }
  }

  /** A live node that gives way is one dead node more. */
  lemma AppliedTallied(s: Sea, i: nat, plan: Plan)
    requires i < |s.nodes| && (plan.Rewrite? ==> s.Live(i) && forall k :: 0 <= k < |plan.extra| ==>
        IsDead !in plan.extra[k].flags)
    ensures DeadCount(Applied(s, i, plan).nodes) == DeadCount(s.nodes) + if plan.Rewrite? then 1 else 0
    ensures |Applied(s, i, plan).nodes| == |s.nodes| + if plan.Rewrite? then |plan.extra| else 0
  {
    if plan.Rewrite? {
      AppendAllTallied(s, plan.extra);
      KillTallied(AppendAll(s, plan.extra).Redirect(i, plan.to), i);
    }
  }

  lemma TallyStart(s: Sea)
    ensures Tallies(s, s, PassResult(false, 0, 0))
  {
  }

  lemma TallyJoins(s: Sea, t: Sea, u: Sea, a: PassResult, b: PassResult, c: PassResult)
    requires Tallies(s, t, a) && Tallies(t, u, b) && c.removed == a.removed + b.removed && c.added == a.added + b.added
    ensures Tallies(s, u, c)
  {
  }

  lemma TallyNext(s: Sea, t: Sea, u: Sea, a: PassResult, c: PassResult, plan: Plan)
    requires Tallies(s, t, a)
    requires plan.Rewrite? ==> c.removed == a.removed + 1 && c.added == a.added + plan.reported
    requires plan.Rewrite? ==> plan.reported <= |plan.extra|
    requires plan.Keep? ==> c == a
    requires DeadCount(u.nodes) == DeadCount(t.nodes) + if plan.Rewrite? then 1 else 0
    requires |u.nodes| == |t.nodes| + if plan.Rewrite? then |plan.extra| else 0
    ensures Tallies(s, u, c)
  {
  }

  lemma SweptOne(s: Sea, victims: set<nat>, n: nat)
    requires n !in victims && n < |s.nodes|
    ensures Swept(s, victims + {n}) == Swept(s, victims).Kill(n)
  {
    assert Swept(s, victims + {n}).nodes == Swept(s, victims).Kill(n).nodes;
  }

  /** Sweeping kills each victim once. */
  lemma {:induction false} SweptTallied(s: Sea, victims: set<nat>)
    requires forall n :: n in victims ==> n < |s.nodes| && s.Live(n)
    ensures DeadCount(Swept(s, victims).nodes) == DeadCount(s.nodes) + |victims|
    decreases |victims|
  {
    if victims == {} {
      assert Swept(s, victims).nodes == s.nodes;
    } else {
      var n :| n in victims;
      var others := victims - {n};
      SweptTallied(s, others);
      assert others + {n} == victims;
      SweptOne(s, others, n);
      KillTallied(Swept(s, others), n);
    }
  }

  // ----- sweeping in node order -----

  function Upto(victims: set<nat>, i: nat): set<nat> {
    set n | n in victims && n < i
  }

  /** The first i nodes were swept, and n of them were victims. */
  ghost predicate SweptTo(s: Sea, victims: set<nat>, t: Sea, i: nat, n: nat) {
    t == Swept(s, Upto(victims, i)) && n == |Upto(victims, i)|
  }

  ghost predicate Sweeping(s: Sea, victims: set<nat>, t: Sea, i: nat, r: PassResult) {
    SweptTo(s, victims, t, i, r.removed) && r.added == 0 && (r.changed <==> r.removed > 0)
  }

  lemma SweepStart(s: Sea, victims: set<nat>)
    requires 0 !in victims
    ensures Sweeping(s, victims, s, 1, PassResult(false, 0, 0))
  {
    assert Upto(victims, 1) == {};
    assert Swept(s, {}).nodes == s.nodes;
  }

  /** The sweep of the first i nodes, extended by one. */
  lemma SweepNext(s: Sea, victims: set<nat>, t: Sea, i: nat, n: nat)
    requires i < |s.nodes| && SweptTo(s, victims, t, i, n)
    ensures if i in victims then SweptTo(s, victims, t.Kill(i), i + 1, n + 1) else SweptTo(s, victims, t, i + 1, n)
  {
    if i in victims {
      assert Upto(victims, i + 1) == Upto(victims, i) + {i};
      SweptOne(s, Upto(victims, i), i);
    } else {
      assert Upto(victims, i + 1) == Upto(victims, i);
    }
  }

  lemma SweepEnd(s: Sea, victims: set<nat>, t: Sea, r: PassResult)
    requires Sweeping(s, victims, t, |s.nodes|, r) && forall n :: n in victims ==> n < |s.nodes|
    ensures t == Swept(s, victims) && r == PassResult(victims != {}, |victims|, 0)
  {
    assert Upto(victims, |s.nodes|) == victims;
  }
}
