/** The graph container: nodes, edge pool, and the intrusive use lists that make finding and replacing the
    users of a node proportional to the number of users. */
module UseLists {
  import opened SeaOfNodes
  import opened UsePool

  class Graph {
    var nodes: seq<Node>
    var useCounts: seq<nat>   // the 16-bit use_count field of each node
    var edges: seq<Edge>
    var uses: seq<Use>
    var heads: seq<nat>
    var start: nat
    var stop: nat
    ghost var chains: seq<seq<nat>>
    ghost var listOf: seq<nat>
    ghost var edgeUser: seq<nat>

    function View(): Sea
      reads this
    {
      Sea(nodes, edges, start, stop)
    }

    ghost function Snap(): Pool
      reads this
    {
      Pool(nodes, useCounts, edges, uses, heads, chains, listOf, edgeUser)
    }

    ghost predicate Valid()
      reads this
      ensures Valid() ==> View().WellFormed()
    {
      Snap().Valid()
    }

    constructor ()
      ensures Valid()
      ensures View() == Sea([Node(Start, {}, Top, 0, 0, 0)], [], NO_NODE, NO_NODE)
      ensures |uses| == 0
    {
      // Slot 0 is a placeholder that no node id returned later ever equals.
      nodes := [Node(Start, {}, Top, 0, 0, 0)];
      useCounts := [0];
      edges, uses, heads := [], [], [NIL];
      start, stop := NO_NODE, NO_NODE;
      chains, listOf, edgeUser := [[]], [], [];
    }

    method AddNode(kind: NodeKind, flags: set<Flag>, ty: TypeId, payload: int, inputs: seq<Edge>) returns (id: nat)
      requires Valid()
      requires |nodes| + 1 < NO_NODE && |uses| + |inputs| < NIL
      requires forall i :: 0 <= i < |inputs| ==> InGraph(inputs[i].target, |nodes| + 1)
      modifies this
      ensures Valid()
      ensures id == old(|nodes|)
      ensures View() == old(View()).Append(kind, flags, ty, payload, inputs)
      ensures |uses| <= old(|uses|) + |inputs|
    {
      id := |nodes|;
      ghost var p := Snap();
      var n := Node(kind, flags, ty, payload, |edges|, |inputs|);
      NodeAddedValid(p, n, inputs);
      nodes := nodes + [n];
      useCounts := useCounts + [0];
      heads := heads + [NIL];
      chains := chains + [[]];
      PushEdges(id, inputs);
    }

    method PushEdges(user: nat, inputs: seq<Edge>)
      requires Snap().Tables() && |uses| + |inputs| < NIL
      requires forall i :: 0 <= i < |inputs| ==> InGraph(inputs[i].target, |nodes|)
      modifies this`edges, this`uses, this`heads, this`useCounts, this`chains, this`listOf, this`edgeUser
      ensures Snap() == EdgesPushed(old(Snap()), user, inputs)
    {
      var i := 0;
      while i < |inputs|
        invariant 0 <= i <= |inputs|
        invariant Snap() == EdgesPushed(old(Snap()), user, inputs[..i])
      {
        assert inputs[..i + 1][..i] == inputs[..i];
        PushEdge(user, inputs[i]);
        i := i + 1;
      }
      assert inputs[..i] == inputs;
    }

    /** Points input i of node id at another producer, in constant time. */
    method ReplaceInput(id: nat, i: nat, t: nat)
      requires Valid() && View().HasSlice(id) && i < nodes[id].inputCount
      requires InGraph(t, |nodes|) && |uses| + 1 < NIL
      modifies this
      ensures Valid()
      ensures View() == old(View()).Repoint(id, i, t)
    {
      var eid := nodes[id].firstInput + i;
      SliceEdge(Snap(), id, eid);
      if edges[eid].target == t { return; }
      RepointEdge(id, eid, t);
    }

    method RepointEdge(id: nat, eid: nat, t: nat)
      requires Valid() && eid < |edges| && edgeUser[eid] == id
      requires InGraph(t, |nodes|) && InGraph(edges[eid].target, |nodes|) && edges[eid].target != t
      requires |uses| + 1 < NIL
      modifies this`edges, this`uses, this`heads, this`useCounts, this`chains, this`listOf
      ensures Valid()
      ensures edges == old(edges)[eid := Edge(t, old(edges)[eid].kind)]
    {
      ghost var p := Snap();
      Repoint(id, eid, t);
      EdgeRepointedValid(p, Snap(), eid, t);
    }

    method Repoint(id: nat, eid: nat, t: nat)
      requires Snap().Tables() && eid < |edges| && edgeUser[eid] == id
      requires InGraph(t, |nodes|) && InGraph(edges[eid].target, |nodes|)
      modifies this`edges, this`uses, this`heads, this`useCounts, this`chains, this`listOf
      ensures Snap() == EdgeRepointed(old(Snap()), eid, t)
      ensures edges == old(edges)[eid := Edge(t, old(edges)[eid].kind)]
    {
      var from := edges[eid].target;
      edges := edges[eid := Edge(t, edges[eid].kind)];
      if from != NO_NODE {
        useCounts := useCounts[from := Dec(useCounts[from])];
      }
      if t != NO_NODE {
        PushUse(t, Use(id, eid, edges[eid].kind, heads[t]));
      }
    }

    /** Replaces every use of node a by node b: walks a's use list only, patches the edges that still
        point at a, and splices their entries onto the head of b's list. */
    method ReplaceAllUsesWith(a: nat, b: nat)
      requires Valid() && a < |nodes| && b < |nodes| && a != b
      modifies this
      ensures Valid()
      ensures View() == old(View()).Redirect(a, b)
      ensures |uses| == old(|uses|)
    {
      ghost var p := Snap();
      WalkRedirects(p, a, b);
      ListWalkable(p, a);
      Splice(a, b);
      SplicedValid(p, Snap(), a, b);
    }

    method Splice(a: nat, b: nat)
      requires Snap().Tables() && a < |nodes| && b < |nodes| && a != b
      requires Walkable(uses, edges, chains[a]) && Linked(uses, heads[a], chains[a]) && NoRepeats(chains[a])
      modifies this`edges, this`uses, this`heads, this`useCounts, this`chains, this`listOf
      ensures Spliced(old(Snap()), Snap(), a, b)
    {
      var first, last, live, kept := DetachLive(a, b);
      AttachLive(b, first, last, kept, old(uses));
      MoveCount(a, b, live);
      chains := chains[a := []][b := kept + chains[b]];
      listOf := Relisted(listOf, kept, b);
      SplicedIntro(old(Snap()), Snap(), kept, a, b);
    }

    method MoveCount(a: nat, b: nat, live: nat)
      requires a < |useCounts| && b < |useCounts|
      modifies this`useCounts
      ensures useCounts == CountsMoved(old(useCounts), a, b, live)
    {
      useCounts := useCounts[b := Low16(useCounts[b] + live)];
      useCounts := useCounts[a := 0];
    }

    /** Puts a chain of entries in front of b's list. */
    method AttachLive(b: nat, first: nat, last: nat, ghost kept: seq<nat>, ghost before: seq<Use>)
      requires b < |heads| && NoRepeats(kept) && Rechained(before, uses, kept, NIL) && |uses| < NIL
      requires first == (if kept == [] then NIL else kept[0])
      requires last == (if kept == [] then NIL else kept[|kept| - 1])
      modifies this`uses, this`heads
      ensures Rechained(before, uses, kept, old(heads)[b])
      ensures heads == if kept == [] then old(heads) else old(heads)[b := kept[0]]
    {
      if first != NIL {
        assert kept != [];
        RechainTail(before, uses, kept, heads[b]);
        uses := uses[last := uses[last].(next := heads[b])];
        heads := heads[b := first];
      }
    }

    /** Empties a's list, pointing every edge it still records at b, and chains up the entries that were live. */
    method DetachLive(a: nat, b: nat) returns (first: nat, last: nat, live: nat, ghost kept: seq<nat>)
      requires a < |heads| && |heads| == |chains| && |uses| < NIL
      requires Walkable(uses, edges, chains[a]) && Linked(uses, heads[a], chains[a]) && NoRepeats(chains[a])
      modifies this`edges, this`uses, this`heads
      ensures heads == old(heads)[a := NIL]
      ensures Walk(edges, kept) == WalkTo(old(uses), old(edges), chains[a], a, b, |chains[a]|)
      ensures live == |kept|
      ensures first == (if kept == [] then NIL else kept[0])
      ensures last == (if kept == [] then NIL else kept[|kept| - 1])
      ensures Rechained(old(uses), uses, kept, NIL) && NoRepeats(kept)
    {
      ghost var chain := chains[a];
      WalkKeeps(uses, edges, chain, a, b, |chain|);
      ghost var k := 0;
      kept := [];
      var u := heads[a];
      heads := heads[a := NIL];
      live, first, last := 0, NIL, NIL;
      while u != NIL
        invariant k <= |chain| && Linked(old(uses), u, chain[k..])
        invariant Walk(edges, kept) == WalkTo(old(uses), old(edges), chain, a, b, k)
        invariant live == |kept|
        invariant first == (if kept == [] then NIL else kept[0])
        invariant last == (if kept == [] then NIL else kept[|kept| - 1])
        invariant Rechained(old(uses), uses, kept, NIL)
        invariant heads == old(heads)[a := NIL]
        decreases |chain| - k
      {
        WalkNext(old(uses), old(edges), uses, chain, a, b, k);
        WalkStep(old(uses), old(edges), chain, a, b, k);
        var next := uses[u].next;
        var e := uses[u].edgeIdx;
        if e < |edges| && edges[e].target == a {
          ghost var was := uses;
          edges := edges[e := Edge(b, edges[e].kind)];
          live := live + 1;
          uses := uses[u := uses[u].(next := NIL)];
          if first == NIL {
            first := u;
          } else {
            uses := uses[last := uses[last].(next := u)];
          }
          last := u;
          RechainSnoc(old(uses), was, uses, kept, u);
          kept := kept + [u];
        }
        k := k + 1;
        u := next;
      }
    }

    /** The nodes that use producer p, each with the kind of edge, skipping stale entries. */
    method UsesOf(p: nat) returns (out: seq<UseRef>)
      requires Valid()
      ensures forall n: nat, k :: UseRef(n, k) in out <==>
          n < |nodes| && p < |nodes| && View().HasSlice(n) && Edge(p, k) in View().Inputs(n)
    {
      out := [];
      if p == NO_NODE || p >= |heads| {
        return;
      }
      ListWalkable(Snap(), p);
      out := ListedUsers(p);
      UsersAreInputs(Snap(), View(), p, out);
    }

    method ListedUsers(p: nat) returns (out: seq<UseRef>)
      requires p < |heads| && |heads| == |chains| && |uses| < NIL
      requires Walkable(uses, edges, chains[p]) && Linked(uses, heads[p], chains[p])
      ensures forall r :: r in out <==> exists j :: 0 <= j < |chains[p]| && ListsUser(uses, edges, chains[p][j], p, r)
    {
      out := [];
      ghost var chain := chains[p];
      ghost var i := 0;
      var u := heads[p];
      while u != NIL
        invariant i <= |chain| && Linked(uses, u, chain[i..])
        invariant forall r :: r in out <==> exists j :: 0 <= j < i && ListsUser(uses, edges, chain[j], p, r)
        decreases |chain| - i
      {
        if uses[u].edgeIdx < |edges| && edges[uses[u].edgeIdx].target == p {
          out := out + [UseRef(uses[u].user, uses[u].kind)];
        }
        u := uses[u].next;
        i := i + 1;
      }
    }

    /** As UsesOf, for the edges of one kind. */
    method UsesOfKind(p: nat, kind: EdgeKind) returns (out: seq<nat>)
      requires Valid()
      ensures forall n: nat :: n in out <==>
          n < |nodes| && p < |nodes| && View().HasSlice(n)
          && Edge(p, kind) in View().Inputs(n)
    {
      var refs := UsesOf(p);
      out := UsersByKind(refs, kind);
    }

    /** The inputs of one kind, in input order. */
    method InputsOfKind(id: nat, kind: EdgeKind) returns (out: seq<nat>)
      requires View().HasSlice(id)
      ensures out == OfKind(View().Inputs(id), kind)
    {
      out := [];
      var inputs := edges[nodes[id].firstInput..nodes[id].firstInput + nodes[id].inputCount];
      var i := 0;
      while i < |inputs|
        invariant 0 <= i <= |inputs| && out == OfKind(inputs[..i], kind)
      {
        OfKindSnoc(inputs[..i], inputs[i], kind);
        assert inputs[..i + 1] == inputs[..i] + [inputs[i]];
        if inputs[i].kind == kind { out := out + [inputs[i].target]; }
        i := i + 1;
      }
      assert inputs[..i] == inputs;
    }

    method MarkDead(id: nat)
      requires Valid() && id < |nodes|
      modifies this`nodes
      ensures Valid()
      ensures View() == old(View()).Kill(id)
    {
      ghost var p := Snap();
      nodes := nodes[id := nodes[id].(flags := nodes[id].flags + {IsDead})];
      NodeUpdateValid(p, Snap());
    }

    method SetStart(n: nat)
      requires Valid()
      modifies this`start
      ensures Valid() && View() == old(View()).(start := n)
    {
      start := n;
    }

    method SetStop(n: nat)
      requires Valid()
      modifies this`stop
      ensures Valid() && View() == old(View()).(stop := n)
    {
      stop := n;
    }

    /** Appends one input edge of node `user`; its use goes to the head of the producer's list. */
    method PushEdge(user: nat, e: Edge)
      requires Snap().Tables() && InGraph(e.target, |nodes|)
      modifies this`edges, this`uses, this`heads, this`useCounts, this`chains, this`listOf, this`edgeUser
      ensures Snap() == EdgePushed(old(Snap()), user, e)
    {
      edges, edgeUser := edges + [e], edgeUser + [user];
      if e.target != NO_NODE {
        PushUse(e.target, Use(user, |edges| - 1, e.kind, heads[e.target]));
      }
    }

    /** Puts a use entry at the head of node v's list and bumps v's 16-bit counter. */
    method PushUse(v: nat, u: Use)
      requires Snap().Tables() && v < |nodes|
      modifies this`uses, this`heads, this`useCounts, this`chains, this`listOf
      ensures Snap() == old(Snap()).Pushed(v, u)
    {
      var k := |uses|;
      uses, listOf := uses + [u], listOf + [v];
      heads := heads[v := k];
      chains := chains[v := [k] + chains[v]];
      useCounts := useCounts[v := Inc(useCounts[v])];
    }
  }
}
