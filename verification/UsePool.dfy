/** The intrusive use lists of the graph container, as values: the invariant they keep although stale entries
    are left behind on purpose, and what each list operation does to it. */
module UsePool {
  import opened SeaOfNodes

  /** End of a use list. */
  const NIL: nat := 0xFFFF_FFFF

  /** Use counts are 16-bit counters. */
  const COUNT_MOD: nat := 0x1_0000

  /** The value a 16-bit counter shows after counting to n. */
  function Low16(n: nat): nat { if n < COUNT_MOD then n else Low16(n - COUNT_MOD) }

  function Inc(c: nat): nat { if c == COUNT_MOD - 1 then 0 else c + 1 }

  function Dec(c: nat): nat { if c == 0 then COUNT_MOD - 1 else c - 1 }

  lemma {:induction false} Low16IsMod(n: nat)
    ensures Low16(n) == n % COUNT_MOD
  {
    if n >= COUNT_MOD { Low16IsMod(n - COUNT_MOD); }
  }

  lemma {:induction false} BumpCounter(n: nat)
    ensures Inc(Low16(n)) == Low16(n + 1)
  {
    if n >= COUNT_MOD { BumpCounter(n - COUNT_MOD); }
  }

  lemma DropCounter(n: nat)
    requires n > 0
    ensures Dec(Low16(n)) == Low16(n - 1)
  {
    BumpCounter(n - 1);
    Low16IsMod(n - 1);
  }

  lemma AddCounters(n: nat, m: nat)
    ensures Low16(Low16(n) + m) == Low16(n + m)
  {
    Low16IsMod(n);
    Low16IsMod(n + m);
    Low16IsMod(Low16(n) + m);
  }

  datatype Use = Use(user: nat, edgeIdx: nat, kind: EdgeKind, next: nat)

  datatype UseRef = UseRef(user: nat, kind: EdgeKind)

  /** `chain` lists, in order, the use entries reached from `head` through the next links. */
  ghost predicate Linked(uses: seq<Use>, head: nat, chain: seq<nat>)
    decreases |chain|
  {
    if chain == [] then head == NIL
    else head == chain[0] && head < |uses| && Linked(uses, uses[head].next, chain[1..])
  }

  /** Every entry of the chain was last put on node v's list. */
  ghost predicate AllHome(chain: seq<nat>, listOf: seq<nat>, v: nat) {
    forall i :: 0 <= i < |chain| ==> chain[i] < |listOf| && listOf[chain[i]] == v
  }

  ghost predicate NoRepeats(chain: seq<nat>) {
    forall i, j :: 0 <= i < j < |chain| ==> chain[i] != chain[j]
  }

  /** A use entry speaks of a real edge, with that edge's kind and the node that owns it. */
  ghost predicate UseOk(u: Use, edges: seq<Edge>, edgeUser: seq<nat>) {
    u.edgeIdx < |edges| && |edgeUser| == |edges| && u.user == edgeUser[u.edgeIdx] && u.kind == edges[u.edgeIdx].kind
  }

  /** Some entry of the chain records edge e. */
  ghost predicate Records(uses: seq<Use>, chain: seq<nat>, e: nat) {
    exists i :: 0 <= i < |chain| && chain[i] < |uses| && uses[chain[i]].edgeIdx == e
  }

  /** A snapshot of the container, with the ghost facts that explain it: per node the entries on its
      list, per entry the node whose list it was last put on, per edge the node it is an input of. */
  datatype Pool = Pool(
    nodes: seq<Node>, useCounts: seq<nat>, edges: seq<Edge>, uses: seq<Use>, heads: seq<nat>,
    chains: seq<seq<nat>>, listOf: seq<nat>, edgeUser: seq<nat>)
  {
    /** Parallel tables, in 32-bit range. */
    ghost predicate Tables() {
      && |useCounts| == |heads| == |chains| == |nodes|
      && |listOf| == |uses|
      && |edgeUser| == |edges|
      && 0 < |nodes| < NO_NODE && |uses| < NIL
    }

    /** Lists are acyclic (each is a finite chain) and pairwise disjoint (each entry names its list). */
    ghost predicate Lists()
      requires Tables()
    {
      && (forall v {:trigger Linked(uses, heads[v], chains[v])} :: 0 <= v < |nodes| ==>
            Linked(uses, heads[v], chains[v]) && NoRepeats(chains[v]))
      && (forall v {:trigger AllHome(chains[v], listOf, v)} :: 0 <= v < |nodes| ==> AllHome(chains[v], listOf, v))
      && (forall u {:trigger UseOk(uses[u], edges, edgeUser)} :: 0 <= u < |uses| ==> UseOk(uses[u], edges, edgeUser))
    }

    /** Each edge lies in the input slice of exactly the node recorded as its user. */
    ghost predicate Owners()
      requires Tables()
    {
      && (forall e :: 0 <= e < |edges| ==> edgeUser[e] < |nodes| && InSlice(edgeUser[e], e))
      && (forall n: nat, e: nat :: n < |nodes| && InSlice(n, e) ==> e < |edges| && edgeUser[e] == n)
    }

    ghost predicate InSlice(n: nat, e: nat)
      requires n < |nodes|
    {
      nodes[n].firstInput <= e < nodes[n].firstInput + nodes[n].inputCount
    }

    /** Every edge is recorded on its target's list. */
    ghost predicate Covered()
      requires Tables()
    {
      forall e {:trigger Records(uses, chains[edges[e].target], e)} ::
        0 <= e < |edges| && edges[e].target < |nodes| ==> Records(uses, chains[edges[e].target], e)
    }

    /** The counters are exact up to their 16-bit width. */
    ghost predicate Counted()
      requires Tables()
    {
      forall v :: 0 <= v < |nodes| ==> useCounts[v] == Low16(EdgeCount(edges, v))
    }

    ghost predicate Consistent() {
      Tables() && Lists() && Covered() && Counted()
    }

    ghost predicate Valid() {
      Consistent() && Owners() && AsSea().WellFormed()
    }

    ghost function AsSea(): Sea {
      Sea(nodes, edges, 0, 0)
    }

    /** Puts entry u at the head of node v's list. */
    ghost function Pushed(v: nat, u: Use): Pool
      requires Tables() && v < |nodes|
    {
      this.(uses := uses + [u], listOf := listOf + [v], heads := heads[v := |uses|],
            chains := chains[v := [|uses|] + chains[v]],
            useCounts := useCounts[v := Inc(useCounts[v])])
    }
  }

  /** A list depends on its own entries only. */
  lemma {:induction false} LinkedFrame(before: seq<Use>, after: seq<Use>, head: nat, chain: seq<nat>)
    requires Linked(before, head, chain)
    requires forall i :: 0 <= i < |chain| && chain[i] < |before| ==>
        chain[i] < |after| && after[chain[i]] == before[chain[i]]
    ensures Linked(after, head, chain)
    decreases |chain|
  {
    if chain != [] {
      LinkedFrame(before, after, before[head].next, chain[1..]);
    }
  }

  lemma {:induction false} LinkedInTable(uses: seq<Use>, head: nat, chain: seq<nat>)
    requires Linked(uses, head, chain)
    ensures forall i :: 0 <= i < |chain| ==> chain[i] < |uses|
    decreases |chain|
  {
    if chain != [] {
      LinkedInTable(uses, uses[head].next, chain[1..]);
    }
  }

  lemma PushKeepsLists(p: Pool, v: nat, u: Use)
    requires p.Tables() && p.Lists() && v < |p.nodes| && |p.uses| + 1 < NIL
    requires UseOk(u, p.edges, p.edgeUser) && u.next == p.heads[v]
    ensures p.Pushed(v, u).Tables() && p.Pushed(v, u).Lists()
  {
    var q := p.Pushed(v, u);
    forall w | 0 <= w < |q.nodes|
      ensures Linked(q.uses, q.heads[w], q.chains[w]) && NoRepeats(q.chains[w])
      ensures AllHome(q.chains[w], q.listOf, w)
    {
      var c := p.chains[w];
      assert AllHome(p.chains[w], p.listOf, w) && Linked(p.uses, p.heads[w], c) && NoRepeats(c);
      LinkedInTable(p.uses, p.heads[w], c);
      LinkedFrame(p.uses, q.uses, p.heads[w], c);
      if w == v {
        assert q.chains[w][1..] == c;
      }
    }
  }

  lemma PushRecords(p: Pool, v: nat, u: Use, w: nat, e: nat)
    requires p.Tables() && v < |p.nodes| && w < |p.nodes|
    requires Records(p.uses, p.chains[w], e) || (w == v && u.edgeIdx == e)
    ensures Records(p.Pushed(v, u).uses, p.Pushed(v, u).chains[w], e)
  {
    var q := p.Pushed(v, u);
    if w == v && u.edgeIdx == e {
      assert q.chains[w][0] == |p.uses| && q.uses[|p.uses|] == u;
    } else {
      var i :| 0 <= i < |p.chains[w]| && p.chains[w][i] < |p.uses| && p.uses[p.chains[w][i]].edgeIdx == e;
      assert q.chains[w][if w == v then i + 1 else i] == p.chains[w][i];
    }
  }

  ghost function WithEdge(p: Pool, user: nat, e: Edge): Pool {
    p.(edges := p.edges + [e], edgeUser := p.edgeUser + [user])
  }

  /** One more input edge for node `user`, with its use at the head of the producer's list. */
  ghost function EdgePushed(p: Pool, user: nat, e: Edge): Pool
    requires p.Tables() && InGraph(e.target, |p.nodes|)
  {
    if e.target == NO_NODE then WithEdge(p, user, e)
    else WithEdge(p, user, e).Pushed(e.target, Use(user, |p.edges|, e.kind, p.heads[e.target]))
  }

  /** All the input edges of a new node, one after the other. */
  ghost function EdgesPushed(p: Pool, user: nat, es: seq<Edge>): (q: Pool)
    requires p.Tables() && |p.uses| + |es| < NIL
    requires forall i :: 0 <= i < |es| ==> InGraph(es[i].target, |p.nodes|)
    ensures q.Tables() && q.nodes == p.nodes && |q.uses| <= |p.uses| + |es|
    ensures q.edges == p.edges + es && q.edgeUser == p.edgeUser + seq(|es|, _ => user)
  {
    if |es| == 0 then p else EdgePushed(EdgesPushed(p, user, es[..|es| - 1]), user, es[|es| - 1])
  }

  lemma WithEdgeLists(p: Pool, user: nat, e: Edge)
    requires p.Tables() && p.Lists()
    ensures WithEdge(p, user, e).Tables() && WithEdge(p, user, e).Lists()
  {
    var m := WithEdge(p, user, e);
    forall k | 0 <= k < |m.uses| ensures UseOk(m.uses[k], m.edges, m.edgeUser) {
      assert UseOk(p.uses[k], p.edges, p.edgeUser);
    }
  }

  lemma PushEdgeCovered(p: Pool, user: nat, e: Edge)
    requires p.Tables() && p.Covered() && e.target < |p.nodes|
    ensures WithEdge(p, user, e).Pushed(e.target, Use(user, |p.edges|, e.kind, p.heads[e.target])).Tables() ==>
            WithEdge(p, user, e).Pushed(e.target, Use(user, |p.edges|, e.kind, p.heads[e.target])).Covered()
  {
    var m := WithEdge(p, user, e);
    var u := Use(user, |p.edges|, e.kind, p.heads[e.target]);
    var q := m.Pushed(e.target, u);
    forall x | 0 <= x < |q.edges| && q.edges[x].target < |q.nodes|
      ensures Records(q.uses, q.chains[q.edges[x].target], x)
    {
      if x < |p.edges| { assert Records(p.uses, p.chains[p.edges[x].target], x); }
      PushRecords(m, e.target, u, q.edges[x].target, x);
    }
  }

  lemma PushEdgeCounted(p: Pool, user: nat, e: Edge)
    requires p.Tables() && p.Counted() && e.target < |p.nodes|
    ensures WithEdge(p, user, e).Pushed(e.target, Use(user, |p.edges|, e.kind, p.heads[e.target])).Tables() ==>
            WithEdge(p, user, e).Pushed(e.target, Use(user, |p.edges|, e.kind, p.heads[e.target])).Counted()
  {
    forall v | 0 <= v < |p.nodes|
      ensures EdgeCount(p.edges + [e], v) == EdgeCount(p.edges, v) + (if e.target == v then 1 else 0)
    {
      EdgeCountAppend(p.edges, e, v);
    }
    BumpCounter(EdgeCount(p.edges, e.target));
  }

  /** Adding an input edge to the pool together with its use keeps the lists and counters consistent. */
  lemma PushEdgeConsistent(p: Pool, user: nat, e: Edge)
    requires p.Consistent() && e.target < |p.nodes| && |p.uses| + 1 < NIL
    ensures WithEdge(p, user, e).Pushed(e.target, Use(user, |p.edges|, e.kind, p.heads[e.target])).Consistent()
  {
    WithEdgeLists(p, user, e);
    PushKeepsLists(WithEdge(p, user, e), e.target, Use(user, |p.edges|, e.kind, p.heads[e.target]));
    PushEdgeCovered(p, user, e);
    PushEdgeCounted(p, user, e);
  }

  /** An edge to no node needs no use entry. */
  lemma PushDanglingConsistent(p: Pool, user: nat, kind: EdgeKind)
    requires p.Consistent()
    ensures p.(edges := p.edges + [Edge(NO_NODE, kind)], edgeUser := p.edgeUser + [user]).Consistent()
  {
    var q := p.(edges := p.edges + [Edge(NO_NODE, kind)], edgeUser := p.edgeUser + [user]);
    forall k | 0 <= k < |q.uses| ensures UseOk(q.uses[k], q.edges, q.edgeUser) {
      assert UseOk(p.uses[k], p.edges, p.edgeUser);
    }
    forall v | 0 <= v < |q.nodes| ensures q.useCounts[v] == Low16(EdgeCount(q.edges, v)) {
      EdgeCountAppend(p.edges, Edge(NO_NODE, kind), v);
    }
  }

  lemma EdgePushedConsistent(p: Pool, user: nat, e: Edge)
    requires p.Consistent() && InGraph(e.target, |p.nodes|) && |p.uses| + 1 < NIL
    ensures EdgePushed(p, user, e).Consistent()
  {
    if e.target == NO_NODE {
      PushDanglingConsistent(p, user, e.kind);
    } else {
      PushEdgeConsistent(p, user, e);
    }
  }

  lemma {:induction false} EdgesPushedConsistent(p: Pool, user: nat, es: seq<Edge>)
    requires p.Consistent() && |p.uses| + |es| < NIL
    requires forall i :: 0 <= i < |es| ==> InGraph(es[i].target, |p.nodes|)
    ensures EdgesPushed(p, user, es).Consistent()
  {
    if |es| > 0 {
      EdgesPushedConsistent(p, user, es[..|es| - 1]);
      EdgePushedConsistent(EdgesPushed(p, user, es[..|es| - 1]), user, es[|es| - 1]);
    }
  }

  ghost function WithNode(p: Pool, n: Node): Pool {
    p.(nodes := p.nodes + [n], useCounts := p.useCounts + [0], heads := p.heads + [NIL], chains := p.chains + [[]])
  }

  lemma NewNodeLists(p: Pool, n: Node)
    requires p.Tables() && p.Lists() && |p.nodes| + 1 < NO_NODE
    ensures WithNode(p, n).Tables() && WithNode(p, n).Lists()
  {
    var q := WithNode(p, n);
    forall v | 0 <= v < |q.nodes|
      ensures Linked(q.uses, q.heads[v], q.chains[v]) && NoRepeats(q.chains[v]) && AllHome(q.chains[v], q.listOf, v)
    {
      if v < |p.nodes| {
        assert Linked(p.uses, p.heads[v], p.chains[v]) && AllHome(p.chains[v], p.listOf, v);
      }
    }
  }

  lemma NewNodeCounted(p: Pool, n: Node)
    requires p.Tables() && p.Counted() && |p.nodes| + 1 < NO_NODE
    requires forall e :: 0 <= e < |p.edges| ==> InGraph(p.edges[e].target, |p.nodes|)
    ensures WithNode(p, n).Tables() && WithNode(p, n).Counted()
  {
    EdgeCountZero(p.edges, |p.nodes|);
  }

  lemma NewNodeCovered(p: Pool, n: Node)
    requires p.Tables() && p.Covered() && |p.nodes| + 1 < NO_NODE
    requires forall e :: 0 <= e < |p.edges| ==> InGraph(p.edges[e].target, |p.nodes|)
    ensures WithNode(p, n).Tables() && WithNode(p, n).Covered()
  {
  }

  lemma NewNodeConsistent(p: Pool, n: Node)
    requires p.Consistent() && |p.nodes| + 1 < NO_NODE
    requires forall e :: 0 <= e < |p.edges| ==> InGraph(p.edges[e].target, |p.nodes|)
    ensures WithNode(p, n).Consistent()
  {
    NewNodeLists(p, n);
    NewNodeCovered(p, n);
    NewNodeCounted(p, n);
  }

  /** The container after add_node. */
  ghost function NodeAdded(p: Pool, n: Node, inputs: seq<Edge>): Pool
    requires p.Tables() && |p.nodes| + 1 < NO_NODE && |p.uses| + |inputs| < NIL
    requires forall i :: 0 <= i < |inputs| ==> InGraph(inputs[i].target, |p.nodes| + 1)
  {
    EdgesPushed(WithNode(p, n), |p.nodes|, inputs)
  }

  lemma NodeAddedOwners(p: Pool, n: Node, inputs: seq<Edge>)
    requires p.Tables() && p.Owners() && |p.nodes| + 1 < NO_NODE && |p.uses| + |inputs| < NIL
    requires n.firstInput == |p.edges| && n.inputCount == |inputs|
    requires forall i :: 0 <= i < |inputs| ==> InGraph(inputs[i].target, |p.nodes| + 1)
    ensures NodeAdded(p, n, inputs).Owners()
  {
    var q := NodeAdded(p, n, inputs);
    forall e | 0 <= e < |q.edges| ensures q.edgeUser[e] < |q.nodes| && q.InSlice(q.edgeUser[e], e) {
      if e < |p.edges| { assert p.InSlice(p.edgeUser[e], e); }
    }
    forall m: nat, e: nat | m < |q.nodes| && q.InSlice(m, e) ensures e < |q.edges| && q.edgeUser[e] == m {
      if m < |p.nodes| { assert p.InSlice(m, e); }
    }
  }

  lemma NodeAddedWellFormed(p: Pool, n: Node, inputs: seq<Edge>)
    requires p.Tables() && p.AsSea().WellFormed() && |p.nodes| + 1 < NO_NODE && |p.uses| + |inputs| < NIL
    requires n.firstInput == |p.edges| && n.inputCount == |inputs|
    requires forall i :: 0 <= i < |inputs| ==> InGraph(inputs[i].target, |p.nodes| + 1)
    ensures NodeAdded(p, n, inputs).AsSea().WellFormed()
  {
    var s, t := p.AsSea(), NodeAdded(p, n, inputs).AsSea();
    forall e | 0 <= e < |t.edges| ensures InGraph(t.edges[e].target, |t.nodes|) {
      if e < |s.edges| { assert InGraph(s.edges[e].target, |s.nodes|); }
    }
  }

  lemma NodeAddedValid(p: Pool, n: Node, inputs: seq<Edge>)
    requires p.Valid() && |p.nodes| + 1 < NO_NODE && |p.uses| + |inputs| < NIL
    requires n.firstInput == |p.edges| && n.inputCount == |inputs|
    requires forall i :: 0 <= i < |inputs| ==> InGraph(inputs[i].target, |p.nodes| + 1)
    ensures NodeAdded(p, n, inputs).Valid()
  {
    assert forall e :: 0 <= e < |p.edges| ==> InGraph(p.AsSea().edges[e].target, |p.nodes|);
    NewNodeConsistent(p, n);
    EdgesPushedConsistent(WithNode(p, n), |p.nodes|, inputs);
    NodeAddedOwners(p, n, inputs);
    NodeAddedWellFormed(p, n, inputs);
  }

  /** The container after replace_input on edge `eid`: the edge's old use stays behind, stale. */
  ghost function EdgeRepointed(p: Pool, eid: nat, t: nat): Pool
    requires p.Tables() && eid < |p.edges| && InGraph(t, |p.nodes|) && InGraph(p.edges[eid].target, |p.nodes|)
  {
    var from := p.edges[eid].target;
    var m := p.(edges := p.edges[eid := Edge(t, p.edges[eid].kind)],
                useCounts := if from == NO_NODE then p.useCounts
                             else p.useCounts[from := Dec(p.useCounts[from])]);
    if t == NO_NODE then m
    else m.Pushed(t, Use(p.edgeUser[eid], eid, p.edges[eid].kind, p.heads[t]))
  }

  /** Repointing an edge leaves lists and entries as they are. */
  lemma SameLists(p: Pool, m: Pool, eid: nat, e: Edge)
    requires p.Tables() && m.Tables() && p.Lists() && eid < |p.edges|
    requires m.nodes == p.nodes && m.edges == p.edges[eid := e] && m.edgeUser == p.edgeUser
        && e.kind == p.edges[eid].kind
    requires m.uses == p.uses && m.heads == p.heads && m.chains == p.chains && m.listOf == p.listOf
    ensures m.Lists()
  {
    forall v | 0 <= v < |m.nodes|
      ensures Linked(m.uses, m.heads[v], m.chains[v]) && NoRepeats(m.chains[v]) && AllHome(m.chains[v], m.listOf, v)
    {
      assert Linked(p.uses, p.heads[v], p.chains[v]) && AllHome(p.chains[v], p.listOf, v);
    }
    forall k | 0 <= k < |m.uses| ensures UseOk(m.uses[k], m.edges, m.edgeUser) {
      assert UseOk(p.uses[k], p.edges, p.edgeUser);
    }
  }

  lemma RepointedLists(p: Pool, eid: nat, t: nat)
    requires p.Tables() && p.Lists() && |p.uses| + 1 < NIL
    requires eid < |p.edges| && InGraph(t, |p.nodes|) && InGraph(p.edges[eid].target, |p.nodes|)
    ensures EdgeRepointed(p, eid, t).Tables() && EdgeRepointed(p, eid, t).Lists()
  {
    var m := EdgeRepointed(p, eid, NO_NODE).(edges := p.edges[eid := Edge(t, p.edges[eid].kind)]);
    SameLists(p, m, eid, Edge(t, p.edges[eid].kind));
    if t != NO_NODE {
      var u := Use(p.edgeUser[eid], eid, p.edges[eid].kind, p.heads[t]);
      PushKeepsLists(m, t, u);
      assert EdgeRepointed(p, eid, t) == m.Pushed(t, u);
    }
  }

  lemma RepointedCovered(p: Pool, eid: nat, t: nat)
    requires p.Tables() && p.Covered()
    requires eid < |p.edges| && InGraph(t, |p.nodes|) && InGraph(p.edges[eid].target, |p.nodes|)
    requires EdgeRepointed(p, eid, t).Tables()
    ensures EdgeRepointed(p, eid, t).Covered()
  {
    var q := EdgeRepointed(p, eid, t);
    var m := EdgeRepointed(p, eid, NO_NODE).(edges := p.edges[eid := Edge(t, p.edges[eid].kind)]);
    forall x | 0 <= x < |q.edges| && q.edges[x].target < |q.nodes|
      ensures Records(q.uses, q.chains[q.edges[x].target], x)
    {
      if x != eid { assert Records(p.uses, p.chains[p.edges[x].target], x); }
      if t != NO_NODE {
        PushRecords(m, t, Use(p.edgeUser[eid], eid, p.edges[eid].kind, p.heads[t]), q.edges[x].target, x);
      }
    }
  }

  lemma RepointedCounted(p: Pool, eid: nat, t: nat)
    requires p.Tables() && p.Counted() && EdgeRepointed.requires(p, eid, t) && EdgeRepointed(p, eid, t).Tables()
    requires t != p.edges[eid].target
    ensures EdgeRepointed(p, eid, t).Counted()
  {
    var q := EdgeRepointed(p, eid, t);
    var from := p.edges[eid].target;
    EdgeCountZero(p.edges, from);
    forall v | 0 <= v < |q.nodes| ensures q.useCounts[v] == Low16(EdgeCount(q.edges, v)) {
      EdgeCountUpdate(p.edges, eid, Edge(t, p.edges[eid].kind), v);
      if v == from {
        DropCounter(EdgeCount(p.edges, v));
      } else if v == t {
        BumpCounter(EdgeCount(p.edges, v));
      }
    }
  }

  lemma EdgeRepointedValid(p: Pool, q: Pool, eid: nat, t: nat)
    requires p.Valid() && |p.uses| + 1 < NIL && EdgeRepointed.requires(p, eid, t) && t != p.edges[eid].target
    requires q == EdgeRepointed(p, eid, t)
    ensures q.Valid()
  {
    RepointedLists(p, eid, t);
    RepointedCovered(p, eid, t);
    RepointedCounted(p, eid, t);
    NodeTableOwners(p, q);
    assert p.nodes[0].inputCount == 0;
    assert forall e :: 0 <= e < |p.edges| ==> InGraph(p.AsSea().edges[e].target, |p.nodes|);
  }

  /** Where the walk over the use list of `a` stands after k entries: the edges patched so far and the
      entries kept for b's list. An entry whose edge no longer points at `a` is dropped. */
  datatype Walk = Walk(edges: seq<Edge>, kept: seq<nat>)

  ghost predicate Walkable(uses: seq<Use>, edges: seq<Edge>, chain: seq<nat>) {
    forall i :: 0 <= i < |chain| ==> chain[i] < |uses| && uses[chain[i]].edgeIdx < |edges|
  }

  ghost function WalkTo(uses: seq<Use>, edges: seq<Edge>, chain: seq<nat>, a: nat, b: nat, k: nat): (w: Walk)
    requires Walkable(uses, edges, chain) && k <= |chain|
    ensures |w.edges| == |edges|
  {
    if k == 0 then Walk(edges, [])
    else
      var w := WalkTo(uses, edges, chain, a, b, k - 1);
      var x := chain[k - 1];
      var e := uses[x].edgeIdx;
      if w.edges[e].target == a
      then Walk(w.edges[e := Edge(b, w.edges[e].kind)], w.kept + [x])
      else w
  }

  /** Exactly the edges recorded by the entries seen so far have moved, and the kept entries record them. */
  lemma {:induction false} WalkMoves(uses: seq<Use>, edges: seq<Edge>, chain: seq<nat>, a: nat, b: nat, k: nat)
    requires Walkable(uses, edges, chain) && a != b && k <= |chain|
    ensures forall e :: 0 <= e < |edges| ==>
              WalkTo(uses, edges, chain, a, b, k).edges[e]
              == if edges[e].target == a && Records(uses, chain[..k], e) then Edge(b, edges[e].kind) else edges[e]
    ensures forall e :: 0 <= e < |edges| && edges[e].target == a && Records(uses, chain[..k], e) ==>
              Records(uses, WalkTo(uses, edges, chain, a, b, k).kept, e)
  {
    if k > 0 {
      WalkMoves(uses, edges, chain, a, b, k - 1);
      var w, v := WalkTo(uses, edges, chain, a, b, k - 1), WalkTo(uses, edges, chain, a, b, k);
      var x := chain[k - 1];
      forall e | 0 <= e < |edges|
        ensures Records(uses, chain[..k], e) <==> Records(uses, chain[..k - 1], e) || uses[x].edgeIdx == e
      {
        RecordsSnoc(uses, chain[..k - 1], x, e);
        assert chain[..k - 1] + [x] == chain[..k];
      }
      forall e | 0 <= e < |edges|
        ensures Records(uses, w.kept, e) ==> Records(uses, v.kept, e)
        ensures v.kept != w.kept && uses[x].edgeIdx == e ==> Records(uses, v.kept, e)
      {
        RecordsSnoc(uses, w.kept, x, e);
      }
    }
  }

  lemma RecordsSnoc(uses: seq<Use>, chain: seq<nat>, x: nat, e: nat)
    requires x < |uses|
    ensures Records(uses, chain + [x], e) <==> Records(uses, chain, e) || uses[x].edgeIdx == e
  {
    var c := chain + [x];
    if Records(uses, c, e) {
      var i :| 0 <= i < |c| && c[i] < |uses| && uses[c[i]].edgeIdx == e;
      if i < |chain| { assert chain[i] == c[i]; }
    }
    if Records(uses, chain, e) {
      var i :| 0 <= i < |chain| && chain[i] < |uses| && uses[chain[i]].edgeIdx == e;
      assert c[i] == chain[i];
    }
    if uses[x].edgeIdx == e { assert c[|chain|] == x; }
  }

  /** The kept entries are distinct entries of a's list. */
  lemma {:induction false} WalkKeeps(uses: seq<Use>, edges: seq<Edge>, chain: seq<nat>, a: nat, b: nat, k: nat)
    requires Walkable(uses, edges, chain) && NoRepeats(chain) && k <= |chain|
    ensures forall x :: x in WalkTo(uses, edges, chain, a, b, k).kept ==> x in chain[..k]
    ensures NoRepeats(WalkTo(uses, edges, chain, a, b, k).kept)
  {
    if k > 0 {
      WalkKeeps(uses, edges, chain, a, b, k - 1);
      assert chain[..k] == chain[..k - 1] + [chain[k - 1]];
      assert chain[k - 1] !in chain[..k - 1];
    }
  }

  /** Each kept entry accounts for one edge moved from a to b, even when a stale duplicate precedes it. */
  lemma {:induction false} WalkCounts(uses: seq<Use>, edges: seq<Edge>, chain: seq<nat>, a: nat, b: nat, k: nat, v: nat)
    requires Walkable(uses, edges, chain) && a != b && k <= |chain|
    ensures var w := WalkTo(uses, edges, chain, a, b, k);
            EdgeCount(w.edges, v)
            == EdgeCount(edges, v) + (if v == b then |w.kept| else 0) - (if v == a then |w.kept| else 0)
  {
    if k > 0 {
      WalkCounts(uses, edges, chain, a, b, k - 1, v);
      var w := WalkTo(uses, edges, chain, a, b, k - 1);
      var e := uses[chain[k - 1]].edgeIdx;
      EdgeCountUpdate(w.edges, e, Edge(b, w.edges[e].kind), v);
    }
  }

  lemma {:induction false} WalkKinds(uses: seq<Use>, edges: seq<Edge>, chain: seq<nat>, a: nat, b: nat, k: nat)
    requires Walkable(uses, edges, chain) && k <= |chain|
    ensures forall e :: 0 <= e < |edges| ==> WalkTo(uses, edges, chain, a, b, k).edges[e].kind == edges[e].kind
  {
    if k > 0 {
      WalkKinds(uses, edges, chain, a, b, k - 1);
    }
  }

  ghost function FullWalk(p: Pool, a: nat, b: nat): Walk
    requires p.Tables() && a < |p.nodes| && Walkable(p.uses, p.edges, p.chains[a])
  {
    WalkTo(p.uses, p.edges, p.chains[a], a, b, |p.chains[a]|)
  }

  lemma ListWalkable(p: Pool, a: nat)
    requires p.Tables() && p.Lists() && a < |p.nodes|
    ensures Walkable(p.uses, p.edges, p.chains[a])
    ensures Linked(p.uses, p.heads[a], p.chains[a]) && NoRepeats(p.chains[a])
  {
    var c := p.chains[a];
    LinkedInTable(p.uses, p.heads[a], c);
    forall i | 0 <= i < |c| ensures c[i] < |p.uses| && p.uses[c[i]].edgeIdx < |p.edges| {
      assert UseOk(p.uses[c[i]], p.edges, p.edgeUser);
    }
  }

  /** The whole walk redirects every edge of the pool that pointed at a, without looking at the others. */
  lemma WalkAll(uses: seq<Use>, edges: seq<Edge>, chain: seq<nat>, a: nat, b: nat)
    requires Walkable(uses, edges, chain) && a != b
    requires forall e :: 0 <= e < |edges| && edges[e].target == a ==> Records(uses, chain, e)
    ensures var w := WalkTo(uses, edges, chain, a, b, |chain|);
            && w.edges == RedirectEdges(edges, a, b)
            && (forall e :: 0 <= e < |edges| && edges[e].target == a ==> Records(uses, w.kept, e))
            && |w.kept| == EdgeCount(edges, a)
  {
    WalkMoves(uses, edges, chain, a, b, |chain|);
    assert chain[..|chain|] == chain;
    WalkCounts(uses, edges, chain, a, b, |chain|, a);
    EdgeCountZero(RedirectEdges(edges, a, b), a);
  }

  lemma WalkRedirects(p: Pool, a: nat, b: nat)
    requires p.Tables() && p.Lists() && p.Covered() && a < |p.nodes| && a != b
    ensures Walkable(p.uses, p.edges, p.chains[a])
    ensures FullWalk(p, a, b).edges == RedirectEdges(p.edges, a, b)
    ensures forall e :: 0 <= e < |p.edges| && p.edges[e].target == a ==> Records(p.uses, FullWalk(p, a, b).kept, e)
    ensures |FullWalk(p, a, b).kept| == EdgeCount(p.edges, a)
  {
    ListWalkable(p, a);
    forall e | 0 <= e < |p.edges| && p.edges[e].target == a ensures Records(p.uses, p.chains[a], e) {
      assert Records(p.uses, p.chains[p.edges[e].target], e);
    }
    WalkAll(p.uses, p.edges, p.chains[a], a, b);
  }

  /** The use table with the kept entries chained one after the other, the last one leading to `tail`. */
  ghost predicate Rechained(before: seq<Use>, after: seq<Use>, kept: seq<nat>, tail: nat) {
    && |after| == |before|
    && (forall x {:trigger after[x]} :: 0 <= x < |before| && x !in kept ==> after[x] == before[x])
    && (forall i :: 0 <= i < |kept| ==> kept[i] < |before|)
    && (forall i :: 0 <= i < |kept| ==> RechainedAt(before, after, kept, i, tail))
  }

  ghost predicate RechainedAt(before: seq<Use>, after: seq<Use>, kept: seq<nat>, i: nat, tail: nat)
    requires i < |kept|
  {
    && kept[i] < |before| && |before| == |after|
    && after[kept[i]] == before[kept[i]].(next := if i + 1 < |kept| then kept[i + 1] else tail)
  }

  ghost function CountsMoved(counts: seq<nat>, a: nat, b: nat, n: nat): (r: seq<nat>)
    requires a < |counts| && b < |counts|
  {
    counts[b := Low16(counts[b] + n)][a := 0]
  }

  ghost function Relisted(listOf: seq<nat>, kept: seq<nat>, b: nat): (r: seq<nat>)
    ensures |r| == |listOf|
    ensures forall x :: 0 <= x < |listOf| ==> r[x] == if x in kept then b else listOf[x]
  {
    seq(|listOf|, x requires 0 <= x < |listOf| => if x in kept then b else listOf[x])
  }

  /** The container after the live part of a's list has been spliced onto b's. */
  ghost predicate Spliced(p: Pool, q: Pool, a: nat, b: nat)
    requires p.Tables() && a < |p.nodes| && b < |p.nodes| && Walkable(p.uses, p.edges, p.chains[a])
  {
    var w := FullWalk(p, a, b);
    && q.nodes == p.nodes && q.edgeUser == p.edgeUser
    && q.edges == w.edges
    && q.heads == (if w.kept == [] then p.heads[a := NIL] else p.heads[a := NIL][b := w.kept[0]])
    && q.chains == p.chains[a := []][b := w.kept + p.chains[b]]
    && q.useCounts == CountsMoved(p.useCounts, a, b, |w.kept|)
    && Rechained(p.uses, q.uses, w.kept, p.heads[b])
    && q.listOf == Relisted(p.listOf, w.kept, b)
  }

  lemma SplicedIntro(p: Pool, q: Pool, kept: seq<nat>, a: nat, b: nat)
    requires p.Tables() && a < |p.nodes| && b < |p.nodes| && Walkable(p.uses, p.edges, p.chains[a])
    requires q == p.(edges := q.edges, uses := q.uses, listOf := Relisted(p.listOf, kept, b),
        heads := if kept == [] then p.heads[a := NIL] else p.heads[a := NIL][b := kept[0]],
        chains := p.chains[a := []][b := kept + p.chains[b]],
        useCounts := CountsMoved(p.useCounts, a, b, |kept|))
    requires Walk(q.edges, kept) == FullWalk(p, a, b)
    requires Rechained(p.uses, q.uses, kept, p.heads[b])
    ensures Spliced(p, q, a, b)
  {
  }

  lemma SplicedLists(p: Pool, q: Pool, a: nat, b: nat)
    requires p.Tables() && p.Lists() && a < |p.nodes| && b < |p.nodes| && a != b
    requires Walkable(p.uses, p.edges, p.chains[a]) && Spliced(p, q, a, b)
    ensures q.Tables() && q.Lists()
  {
    var w := FullWalk(p, a, b);
    var c := p.chains[a];
    assert Linked(p.uses, p.heads[a], c);
    WalkKeeps(p.uses, p.edges, c, a, b, |c|);
    forall i | 0 <= i < |w.kept| ensures w.kept[i] < |p.listOf| && p.listOf[w.kept[i]] == a {
      assert w.kept[i] in c[..|c|] && c[..|c|] == c && AllHome(c, p.listOf, a);
    }
    forall v | 0 <= v < |q.nodes|
      ensures Linked(q.uses, q.heads[v], q.chains[v]) && NoRepeats(q.chains[v]) && AllHome(q.chains[v], q.listOf, v)
    {
      assert AllHome(p.chains[v], p.listOf, v) && Linked(p.uses, p.heads[v], p.chains[v]);
      SplicedList(p, q, a, b, v);
    }
    SplicedUses(p, q, a, b);
  }

  lemma SplicedUses(p: Pool, q: Pool, a: nat, b: nat)
    requires p.Tables() && a < |p.nodes| && b < |p.nodes|
    requires forall k :: 0 <= k < |p.uses| ==> UseOk(p.uses[k], p.edges, p.edgeUser)
    requires Walkable(p.uses, p.edges, p.chains[a]) && Spliced(p, q, a, b)
    ensures forall k :: 0 <= k < |q.uses| ==> UseOk(q.uses[k], q.edges, q.edgeUser)
  {
    WalkKinds(p.uses, p.edges, p.chains[a], a, b, |p.chains[a]|);
    RechainedUses(p.uses, q.uses, FullWalk(p, a, b).kept, p.heads[b], p.edges, q.edges, p.edgeUser);
  }

  lemma RechainedUses(before: seq<Use>, after: seq<Use>, kept: seq<nat>, tail: nat,
                      es: seq<Edge>, fs: seq<Edge>, edgeUser: seq<nat>)
    requires Rechained(before, after, kept, tail)
    requires |fs| == |es| && forall e :: 0 <= e < |es| ==> fs[e].kind == es[e].kind
    requires forall k :: 0 <= k < |before| ==> UseOk(before[k], es, edgeUser)
    ensures forall k :: 0 <= k < |after| ==> UseOk(after[k], fs, edgeUser)
  {
    forall k | 0 <= k < |after| ensures UseOk(after[k], fs, edgeUser) {
      assert UseOk(before[k], es, edgeUser);
      if k in kept {
        var i :| 0 <= i < |kept| && kept[i] == k;
        assert RechainedAt(before, after, kept, i, tail);
      }
    }
  }

  lemma {:induction false} LinkedAfterSplice(before: seq<Use>, after: seq<Use>, kept: seq<nat>, head: nat,
      c: seq<nat>, i: nat)
    requires Rechained(before, after, kept, head) && Linked(after, head, c) && i <= |kept|
    ensures Linked(after, if i == |kept| then head else kept[i], kept[i..] + c)
    decreases |kept| - i
  {
    if i == |kept| {
      assert kept[i..] + c == c;
    } else {
      assert RechainedAt(before, after, kept, i, head);
      LinkedAfterSplice(before, after, kept, head, c, i + 1);
      assert (kept[i..] + c)[1..] == kept[i + 1..] + c;
    }
  }

  /** Lists that share no entry with the spliced ones stay as they were. */
  lemma UntouchedList(before: seq<Use>, after: seq<Use>, kept: seq<nat>, tail: nat, head: nat, c: seq<nat>)
    requires Rechained(before, after, kept, tail) && Linked(before, head, c)
    requires forall i :: 0 <= i < |c| ==> c[i] !in kept
    ensures Linked(after, head, c)
  {
    forall i | 0 <= i < |c| && c[i] < |before| ensures c[i] < |after| && after[c[i]] == before[c[i]] {
      assert c[i] !in kept;
    }
    LinkedFrame(before, after, head, c);
  }

  lemma ApartFromKept(listOf: seq<nat>, kept: seq<nat>, c: seq<nat>, a: nat, v: nat)
    requires AllHome(kept, listOf, a) && AllHome(c, listOf, v) && a != v
    ensures forall i :: 0 <= i < |c| ==> c[i] !in kept
  {
  }

  lemma SplicedHome(listOf: seq<nat>, kept: seq<nat>, c: seq<nat>, b: nat, v: nat)
    requires forall i :: 0 <= i < |c| ==> c[i] !in kept && c[i] < |listOf| && listOf[c[i]] == v
    requires forall i :: 0 <= i < |kept| ==> kept[i] < |listOf|
    ensures AllHome(c, Relisted(listOf, kept, b), v)
    ensures AllHome(kept, Relisted(listOf, kept, b), b)
  {
  }

  lemma SplicedList(p: Pool, q: Pool, a: nat, b: nat, v: nat)
    requires p.Tables() && a < |p.nodes| && b < |p.nodes| && a != b && v < |p.nodes|
    requires Linked(p.uses, p.heads[v], p.chains[v]) && NoRepeats(p.chains[v]) && AllHome(p.chains[v], p.listOf, v)
    requires Walkable(p.uses, p.edges, p.chains[a]) && Spliced(p, q, a, b)
    requires NoRepeats(FullWalk(p, a, b).kept) && AllHome(FullWalk(p, a, b).kept, p.listOf, a)
    ensures Linked(q.uses, q.heads[v], q.chains[v]) && NoRepeats(q.chains[v]) && AllHome(q.chains[v], q.listOf, v)
  {
    var kept := FullWalk(p, a, b).kept;
    var c := p.chains[v];
    if v != a {
      ApartFromKept(p.listOf, kept, c, a, v);
      UntouchedList(p.uses, q.uses, kept, p.heads[b], p.heads[v], c);
      SplicedHome(p.listOf, kept, c, b, v);
      if v == b {
        LinkedAfterSplice(p.uses, q.uses, kept, p.heads[b], c, 0);
        assert kept[0..] == kept;
      }
    }
  }

  /** An entry that recorded edge e on its target's list still does so after the splice. */
  lemma SplicedRecords(p: Pool, q: Pool, a: nat, b: nat, t: nat, e: nat)
    requires p.Tables() && a < |p.nodes| && b < |p.nodes| && a != b && t < |p.nodes|
    requires Walkable(p.uses, p.edges, p.chains[a]) && Spliced(p, q, a, b)
    requires if t == a then Records(p.uses, FullWalk(p, a, b).kept, e) else Records(p.uses, p.chains[t], e)
    ensures Records(q.uses, q.chains[if t == a then b else t], e)
  {
    var kept := FullWalk(p, a, b).kept;
    forall x | 0 <= x < |p.uses| ensures q.uses[x].edgeIdx == p.uses[x].edgeIdx {
      if x in kept {
        var j :| 0 <= j < |kept| && kept[j] == x;
        assert RechainedAt(p.uses, q.uses, kept, j, p.heads[b]);
      }
    }
    var c := if t == a then kept else p.chains[t];
    var i :| 0 <= i < |c| && c[i] < |p.uses| && p.uses[c[i]].edgeIdx == e;
    var d := q.chains[if t == a then b else t];
    assert d[if t == b then |kept| + i else i] == c[i];
  }

  lemma SplicedCovered(p: Pool, q: Pool, a: nat, b: nat)
    requires p.Consistent() && a < |p.nodes| && b < |p.nodes| && a != b
    requires Walkable(p.uses, p.edges, p.chains[a]) && Spliced(p, q, a, b) && q.Tables()
    ensures q.Covered()
  {
    WalkRedirects(p, a, b);
    forall e | 0 <= e < |q.edges| && q.edges[e].target < |q.nodes|
      ensures Records(q.uses, q.chains[q.edges[e].target], e)
    {
      assert Records(p.uses, p.chains[p.edges[e].target], e);
      SplicedRecords(p, q, a, b, p.edges[e].target, e);
    }
  }

  lemma SplicedCount(uses: seq<Use>, edges: seq<Edge>, chain: seq<nat>, counts: seq<nat>, a: nat, b: nat, v: nat)
    requires Walkable(uses, edges, chain) && a < |counts| && b < |counts| && a != b && v < |counts|
    requires |WalkTo(uses, edges, chain, a, b, |chain|).kept| == EdgeCount(edges, a)
    requires counts[v] == Low16(EdgeCount(edges, v))
    ensures var w := WalkTo(uses, edges, chain, a, b, |chain|);
            CountsMoved(counts, a, b, |w.kept|)[v] == Low16(EdgeCount(w.edges, v))
  {
    WalkCounts(uses, edges, chain, a, b, |chain|, v);
    AddCounters(EdgeCount(edges, b), EdgeCount(edges, a));
  }

  lemma SplicedCounted(p: Pool, q: Pool, a: nat, b: nat)
    requires p.Tables() && p.Counted() && a < |p.nodes| && b < |p.nodes| && a != b
    requires Walkable(p.uses, p.edges, p.chains[a]) && Spliced(p, q, a, b) && q.Tables()
    requires |FullWalk(p, a, b).kept| == EdgeCount(p.edges, a)
    ensures q.Counted()
  {
    forall v | 0 <= v < |q.nodes| ensures q.useCounts[v] == Low16(EdgeCount(q.edges, v)) {
      SplicedCount(p.uses, p.edges, p.chains[a], p.useCounts, a, b, v);
    }
  }

  lemma SplicedValid(p: Pool, q: Pool, a: nat, b: nat)
    requires p.Valid() && a < |p.nodes| && b < |p.nodes| && a != b
    requires Walkable(p.uses, p.edges, p.chains[a]) && Spliced(p, q, a, b)
    ensures q.Valid()
  {
    SplicedLists(p, q, a, b);
    SplicedCovered(p, q, a, b);
    WalkRedirects(p, a, b);
    SplicedCounted(p, q, a, b);
    NodeTableOwners(p, q);
    assert p.nodes[0].inputCount == 0;
    assert forall e :: 0 <= e < |p.edges| ==> InGraph(p.AsSea().edges[e].target, |p.nodes|);
  }

  /** Ownership of edges depends on the input slices only. */
  lemma NodeTableOwners(p: Pool, q: Pool)
    requires p.Tables() && q.Tables() && p.Owners()
    requires |q.nodes| == |p.nodes| && q.edgeUser == p.edgeUser
    requires forall n :: 0 <= n < |p.nodes| ==>
      q.nodes[n].firstInput == p.nodes[n].firstInput && q.nodes[n].inputCount == p.nodes[n].inputCount
    ensures q.Owners()
  {
    forall n: nat, e: nat | n < |p.nodes| ensures q.InSlice(n, e) == p.InSlice(n, e) {
    }
  }

  lemma NodeUpdateLists(p: Pool, q: Pool)
    requires p.Consistent() && q.Tables() && |q.nodes| == |p.nodes|
    requires q.useCounts == p.useCounts && q.edges == p.edges && q.uses == p.uses && q.heads == p.heads
    requires q.chains == p.chains && q.listOf == p.listOf && q.edgeUser == p.edgeUser
    ensures q.Consistent()
  {
    forall v | 0 <= v < |p.nodes|
      ensures Linked(q.uses, q.heads[v], q.chains[v]) && NoRepeats(q.chains[v]) && AllHome(q.chains[v], q.listOf, v)
    {
      assert Linked(p.uses, p.heads[v], p.chains[v]) && AllHome(p.chains[v], p.listOf, v);
    }
    forall u | 0 <= u < |p.uses| ensures UseOk(q.uses[u], q.edges, q.edgeUser) {
      assert UseOk(p.uses[u], p.edges, p.edgeUser);
    }
    forall e | 0 <= e < |p.edges| && p.edges[e].target < |p.nodes|
        ensures Records(q.uses, q.chains[q.edges[e].target], e) {
      assert Records(p.uses, p.chains[p.edges[e].target], e);
    }
  }

  /** Rewriting node fields other than the input slices touches no list. */
  lemma NodeUpdateValid(p: Pool, q: Pool)
    requires p.Valid() && |q.nodes| == |p.nodes|
    requires q.useCounts == p.useCounts && q.edges == p.edges && q.uses == p.uses && q.heads == p.heads
    requires q.chains == p.chains && q.listOf == p.listOf && q.edgeUser == p.edgeUser
    requires forall n :: 0 <= n < |p.nodes| ==>
      q.nodes[n].firstInput == p.nodes[n].firstInput && q.nodes[n].inputCount == p.nodes[n].inputCount
    ensures q.Valid()
  {
    NodeUpdateLists(p, q);
    NodeTableOwners(p, q);
    NodeUpdateWellFormed(p.AsSea(), q.AsSea());
  }

  lemma NodeUpdateWellFormed(s: Sea, t: Sea)
    requires s.WellFormed() && |s.nodes| == |t.nodes| && s.edges == t.edges
    requires forall n :: 0 <= n < |s.nodes| ==>
      t.nodes[n].firstInput == s.nodes[n].firstInput && t.nodes[n].inputCount == s.nodes[n].inputCount
    ensures t.WellFormed()
  {
    forall e | 0 <= e < |t.edges| ensures InGraph(t.edges[e].target, |t.nodes|) {
      assert InGraph(s.edges[e].target, |s.nodes|);
    }
  }

  lemma SliceEdge(p: Pool, n: nat, e: nat)
    requires p.Tables() && p.Owners() && p.AsSea().WellFormed() && n < |p.nodes| && p.InSlice(n, e)
    ensures e < |p.edges| && p.edgeUser[e] == n && InGraph(p.edges[e].target, |p.nodes|)
  {
    assert InGraph(p.AsSea().edges[e].target, |p.nodes|);
  }

  function UsersByKind(refs: seq<UseRef>, kind: EdgeKind): (out: seq<nat>)
    ensures forall n :: n in out <==> UseRef(n, kind) in refs
  {
    if |refs| == 0 then []
    else
      var rest := UsersByKind(refs[1..], kind);
      if refs[0].kind == kind then [refs[0].user] + rest else rest
  }

  /** Use entry x is live for producer t and lists the use r. */
  ghost predicate ListsUser(uses: seq<Use>, edges: seq<Edge>, x: nat, t: nat, r: UseRef) {
    && x < |uses| && uses[x].edgeIdx < |edges| && edges[uses[x].edgeIdx].target == t
    && r == UseRef(uses[x].user, uses[x].kind)
  }

  /** The live entries of t's list are exactly the nodes with an input edge from t: stale entries never
      hide a user and never invent one. */
  lemma UsersAreInputs(p: Pool, s: Sea, t: nat, out: seq<UseRef>)
    requires p.Valid() && t < |p.nodes| && s.nodes == p.nodes && s.edges == p.edges
    requires forall r :: r in out <==>
        exists j ::
          0 <= j < |p.chains[t]| && ListsUser(p.uses, p.edges, p.chains[t][j], t, r)
    ensures forall n: nat, k :: UseRef(n, k) in out <==> n < |s.nodes| && s.HasSlice(n) && Edge(t, k) in s.Inputs(n)
  {
    forall n: nat, k
      ensures UseRef(n, k) in out ==> n < |s.nodes| && s.HasSlice(n) && Edge(t, k) in s.Inputs(n)
    {
      if UseRef(n, k) in out {
        var j :| 0 <= j < |p.chains[t]| && ListsUser(p.uses, p.edges, p.chains[t][j], t, UseRef(n, k));
        UserIsInput(p, s, p.chains[t][j], t);
      }
    }
    forall n: nat, k
      ensures n < |s.nodes| && s.HasSlice(n) && Edge(t, k) in s.Inputs(n) ==> UseRef(n, k) in out
    {
      if n < |s.nodes| && s.HasSlice(n) && Edge(t, k) in s.Inputs(n) {
        var j := InputIsUser(p, s, n, Edge(t, k));
      }
    }
  }

  lemma UserIsInput(p: Pool, s: Sea, x: nat, t: nat)
    requires p.Tables() && p.Owners() && s.nodes == p.nodes && s.edges == p.edges
    requires forall u :: 0 <= u < |p.uses| ==> UseOk(p.uses[u], p.edges, p.edgeUser)
    requires forall n :: 0 <= n < |s.nodes| ==> s.nodes[n].firstInput + s.nodes[n].inputCount <= |s.edges|
    requires x < |p.uses| && p.uses[x].edgeIdx < |p.edges| && p.edges[p.uses[x].edgeIdx].target == t
    ensures s.HasSlice(p.uses[x].user) && Edge(t, p.uses[x].kind) in s.Inputs(p.uses[x].user)
  {
    assert UseOk(p.uses[x], p.edges, p.edgeUser);
    var e := p.uses[x].edgeIdx;
    var n := p.edgeUser[e];
    assert p.InSlice(n, e);
    assert s.Inputs(n)[e - p.nodes[n].firstInput] == p.edges[e];
  }

  lemma InputIsUser(p: Pool, s: Sea, n: nat, edge: Edge) returns (j: nat)
    requires p.Tables() && p.Lists() && p.Covered() && p.Owners() && s.nodes == p.nodes && s.edges == p.edges
    requires s.HasSlice(n) && edge in s.Inputs(n) && edge.target < |p.nodes|
    ensures j < |p.chains[edge.target]|
    ensures ListsUser(p.uses, p.edges, p.chains[edge.target][j], edge.target, UseRef(n, edge.kind))
  {
    var i :| 0 <= i < |s.Inputs(n)| && s.Inputs(n)[i] == edge;
    var e := p.nodes[n].firstInput + i;
    assert p.InSlice(n, e);
    j := EdgeIsListed(p, n, e);
  }

  lemma EdgeIsListed(p: Pool, n: nat, e: nat) returns (j: nat)
    requires p.Tables() && p.Lists() && p.Covered() && e < |p.edges| && p.edgeUser[e] == n
    requires p.edges[e].target < |p.nodes|
    ensures j < |p.chains[p.edges[e].target]|
    ensures ListsUser(p.uses, p.edges, p.chains[p.edges[e].target][j], p.edges[e].target, UseRef(n, p.edges[e].kind))
  {
    var c := p.chains[p.edges[e].target];
    assert Records(p.uses, c, e);
    j :| 0 <= j < |c| && c[j] < |p.uses| && p.uses[c[j]].edgeIdx == e;
    assert UseOk(p.uses[c[j]], p.edges, p.edgeUser);
  }

  lemma WalkStep(uses: seq<Use>, edges: seq<Edge>, chain: seq<nat>, a: nat, b: nat, k: nat)
    requires Walkable(uses, edges, chain) && k < |chain|
    ensures var w, e := WalkTo(uses, edges, chain, a, b, k), uses[chain[k]].edgeIdx;
            WalkTo(uses, edges, chain, a, b, k + 1)
            == if w.edges[e].target == a then Walk(w.edges[e := Edge(b, w.edges[e].kind)], w.kept + [chain[k]]) else w
  {
  }

  /** The walk has not touched the entry it is about to visit. */
  lemma WalkNext(before: seq<Use>, edges: seq<Edge>, uses: seq<Use>, chain: seq<nat>, a: nat, b: nat, k: nat)
    requires Walkable(before, edges, chain) && NoRepeats(chain) && k < |chain|
    requires Rechained(before, uses, WalkTo(before, edges, chain, a, b, k).kept, NIL)
    ensures var u, kept := chain[k], WalkTo(before, edges, chain, a, b, k).kept;
            u !in kept && uses[u] == before[u] && NoRepeats(kept) && uses[u].edgeIdx < |edges|
  {
    WalkKeeps(before, edges, chain, a, b, k);
    assert chain[k] !in chain[..k];
  }

  /** One more entry at the end of the kept chain. */
  ghost predicate ChainedOn(uses: seq<Use>, after: seq<Use>, kept: seq<nat>, u: nat) {
    && u < |uses| == |after|
    && (kept != [] ==> kept[|kept| - 1] < |uses|)
    && var n := uses[u := uses[u].(next := NIL)];
       after == if kept == [] then n else n[kept[|kept| - 1] := n[kept[|kept| - 1]].(next := u)]
  }

  lemma RechainSnoc(before: seq<Use>, uses: seq<Use>, after: seq<Use>, kept: seq<nat>, u: nat)
    requires Rechained(before, uses, kept, NIL) && NoRepeats(kept) && u < |before| && u !in kept
    requires ChainedOn(uses, after, kept, u)
    ensures Rechained(before, after, kept + [u], NIL)
  {
    var c := kept + [u];
    if kept != [] { assert RechainedAt(before, uses, kept, |kept| - 1, NIL); }
    forall i | 0 <= i < |c| ensures RechainedAt(before, after, c, i, NIL) {
      if i < |kept| { assert kept[i] == c[i] && RechainedAt(before, uses, kept, i, NIL); }
    }
    forall x | 0 <= x < |before| && x !in c ensures after[x] == before[x] {
      if kept != [] { assert kept[|kept| - 1] in c; }
      assert u == c[|kept|];
      assert forall y :: y in kept ==> y in c;
    }
  }

  lemma RechainTail(before: seq<Use>, uses: seq<Use>, kept: seq<nat>, tail: nat)
    requires Rechained(before, uses, kept, NIL) && NoRepeats(kept) && kept != []
    ensures var z := kept[|kept| - 1];
            Rechained(before, uses[z := uses[z].(next := tail)], kept, tail)
  {
    var z := kept[|kept| - 1];
    assert RechainedAt(before, uses, kept, |kept| - 1, NIL);
    var after := uses[z := uses[z].(next := tail)];
    forall i | 0 <= i < |kept| ensures RechainedAt(before, after, kept, i, tail) {
      assert RechainedAt(before, uses, kept, i, NIL);
    }
  }
}
