/** Dead code elimination and reachability pruning: passes that only mark nodes dead. */
module CleanupPasses {
  import opened SeaOfNodes
  import opened UsePool
  import opened UseLists
  import opened Valuation
  import opened Rewrites
  import opened PassCore
  import opened DeadNodes
  import opened Reachability

  // ----- dead code elimination -----

  /** Pure live nodes whose 16-bit counter stands at zero. */
  ghost function Unused(s: Sea): set<nat> {
    set n: nat | 0 < n < |s.nodes| && s.Live(n) && Pure in s.nodes[n].flags && Low16(EdgeCount(s.edges, n)) == 0
  }

  method EliminateDeadCode(g: Graph) returns (r: PassResult)
    requires g.Valid()
    modifies g
    ensures g.Valid() && g.View() == Swept(old(g.View()), Unused(old(g.View()))) && g.uses == old(g.uses)
    ensures r == PassResult(Unused(old(g.View())) != {}, |Unused(old(g.View()))|, 0)
  {
    r := PassResult(false, 0, 0);
    ghost var s := g.View();
    ghost var victims := Unused(s);
    SweepStart(s, victims);
    var i := 1;
    while i < |g.nodes|
      invariant g.Valid() && 1 <= i <= |g.nodes| == |s.nodes|
      invariant Sweeping(s, victims, g.View(), i, r) && g.uses == old(g.uses)
    {
      var dead := EliminateNext(g, s, victims, i, r.removed);
      if dead { r := PassResult(true, r.removed + 1, 0); }
      i := i + 1;
    }
    assert i == |g.nodes|;
    SweepEnd(s, victims, g.View(), r);
  }

  method EliminateNext(g: Graph, ghost s: Sea, ghost victims: set<nat>, i: nat, ghost n: nat) returns (dead: bool)
    requires g.Valid() && 0 < i < |g.nodes| == |s.nodes| && victims == Unused(s) && SweptTo(s, victims, g.View(), i, n)
    modifies g`nodes
    ensures g.Valid() && |g.nodes| == |s.nodes| && SweptTo(s, victims, g.View(), i + 1, if dead then n + 1 else n)
  {
    SweepNext(s, victims, g.View(), i, n);
    dead := EliminateAt(g, s, i);
  }

  method EliminateAt(g: Graph, ghost s: Sea, i: nat) returns (dead: bool)
    requires g.Valid() && 0 < i < |g.nodes| == |s.nodes| && g.edges == s.edges && g.nodes[i] == s.nodes[i]
    modifies g`nodes
    ensures g.Valid() && g.View() == if i in Unused(s) then old(g.View()).Kill(i) else old(g.View())
    ensures dead == (i in Unused(s))
  {
    CounterIs(g.Snap(), i);
    dead := g.useCounts[i] == 0 && Pure in g.nodes[i].flags && IsDead !in g.nodes[i].flags;
    if dead { g.MarkDead(i); }
  }

  lemma CounterIs(p: Pool, i: nat)
    requires p.Valid() && i < |p.nodes|
    ensures p.useCounts[i] == Low16(EdgeCount(p.edges, i))
  {
  }

  /** No pure live node has so many uses that its counter wrapped around to zero. */
  ghost predicate NoneWrapped(s: Sea) {
    forall n: nat :: 0 < n < |s.nodes| && s.Live(n) && Pure in s.nodes[n].flags && EdgeCount(s.edges, n) > 0 ==>
      EdgeCount(s.edges, n) % 0x1_0000 != 0
  }

  lemma UnusedUnreferenced(s: Sea)
    requires s.WellFormed()
    ensures NoneWrapped(s) <==>
      forall e :: 0 <= e < |s.edges| && s.edges[e].target < |s.nodes| ==> s.edges[e].target !in Unused(s)
  {
    forall n: nat | n in Unused(s)
      ensures EdgeCount(s.edges, n) == 0 <==> forall e :: 0 <= e < |s.edges| ==> s.edges[e].target != n
      ensures EdgeCount(s.edges, n) % 0x1_0000 == 0
    {
      EdgeCountZero(s.edges, n);
      Low16IsMod(EdgeCount(s.edges, n));
    }
    if NoneWrapped(s) {
    } else {
      var n: nat :| 0 < n < |s.nodes| && s.Live(n) && Pure in s.nodes[n].flags && EdgeCount(s.edges, n) > 0
                    && EdgeCount(s.edges, n) % 0x1_0000 == 0;
      Low16IsMod(EdgeCount(s.edges, n));
      assert n in Unused(s);
    }
  }

  /** Dead code elimination leaves no edge to a dead node exactly if no counter wrapped around. */
  lemma DeadCodeIff(s: Sea)
    requires s.WellFormed() && DeadUnused(s)
    ensures DeadUnused(Swept(s, Unused(s))) <==> NoneWrapped(s)
  {
    SweptCleanIff(s, Unused(s));
    UnusedUnreferenced(s);
  }

  /** It then keeps every value and the acyclicity of the graph. */
  lemma DeadCodeAdvances(ext: Ext, s: Sea, rank: seq<nat>)
    requires Sane(s, rank) && NoneWrapped(s)
    ensures Advances(ext, s, Swept(s, Unused(s)), rank)
  {
    UnusedUnreferenced(s);
    forall n | 0 <= n < |s.nodes| && s.Live(n) && n !in Unused(s) ensures SparedAt(s, Unused(s), n) {
      forall i | 0 <= i < |s.Inputs(n)| ensures s.Inputs(n)[i].target !in Unused(s) {
        assert s.Inputs(n)[i] == s.edges[s.nodes[n].firstInput + i];
      }
    }
    if Tame(s) {
      forall n | 0 <= n < |s.nodes| && s.nodes[n].kind in {Stop, LoadLocal} ensures n !in Unused(s) {
        assert TameAt(s, n);
      }
    }
    SweptAdvances(ext, s, rank, Unused(s));
  }

  /** A dead node shows uses. */
  predicate Complains(p: Pool, n: nat)
    requires n < |p.nodes| && n < |p.useCounts|
  {
    IsDead in p.nodes[n].flags && p.useCounts[n] > 0
  }

  /** The verifier's checks on dead nodes read the counters. They are silent if no edge leads to a dead node; and
      only then, if there are too few edges for a counter to wrap around. */
  lemma VerifierSilent(p: Pool)
    requires p.Valid()
    ensures DeadUnused(p.AsSea()) ==> forall n: nat :: n < |p.nodes| ==> !Complains(p, n)
    ensures |p.edges| < COUNT_MOD && (forall n: nat :: n < |p.nodes| ==> !Complains(p, n)) ==> DeadUnused(p.AsSea())
  {
    var s := p.AsSea();
    forall n: nat | n < |p.nodes|
      ensures p.useCounts[n] == Low16(EdgeCount(p.edges, n)) && EdgeCount(p.edges, n) <= |p.edges|
      ensures EdgeCount(p.edges, n) == 0 <==> forall e :: 0 <= e < |p.edges| ==> p.edges[e].target != n
    {
      CounterIs(p, n);
      EdgeCountZero(p.edges, n);
      EdgeCountBound(p.edges, n);
    }
    if DeadUnused(s) {
      forall n: nat | n < |p.nodes| ensures !Complains(p, n) {
        if IsDead in p.nodes[n].flags {
          forall e | 0 <= e < |p.edges| ensures p.edges[e].target != n { assert !s.Dead(s.edges[e].target); }
        }
      }
    }
    if |p.edges| < COUNT_MOD && forall n: nat :: n < |p.nodes| ==> !Complains(p, n) {
      forall e | 0 <= e < |s.edges| ensures !s.Dead(s.edges[e].target) {
        var n := s.edges[e].target;
        assert n < |p.nodes| ==> !Complains(p, n);
      }
    }
  }

  // ----- reachability pruning -----

  /** From a control node to its live control users. */
  ghost function ControlStep(s: Sea): Step {
    (x: nat, y: nat) => 0 < y < |s.nodes| && s.Live(y) && s.HasSlice(y) && Edge(x, Control) in s.Inputs(y)
  }

  /** From a node to the producers of its data and effect inputs. */
  ghost function FeedStep(s: Sea): Step {
    (x: nat, y: nat) => s.HasSlice(x) && y != NO_NODE && (Edge(y, Data) in s.Inputs(x)
        || Edge(y, Effect) in s.Inputs(x))
  }

  ghost function Feeds(s: Sea, x: nat): set<nat>
    requires s.HasSlice(x)
  {
    set e | e in s.Inputs(x) && FeedStep(s)(x, e.target) :: e.target
  }

  /** What Start reaches along control edges. */
  ghost predicate Executed(s: Sea, n: nat) {
    Reached(ControlStep(s), {s.start}, n)
  }

  /** What Stop depends on, directly or indirectly. */
  ghost predicate Contributes(s: Sea, n: nat) {
    s.HasSlice(s.stop) && Reached(FeedStep(s), Feeds(s, s.stop), n)
  }

  ghost predicate Kept(s: Sea, n: nat)
    requires n < |s.nodes|
  {
    || n == s.start || n == s.stop
    || if IsControl in s.nodes[n].flags || IsEffect in s.nodes[n].flags then Executed(s, n) else Contributes(s, n)
  }

  ghost function Pruned(s: Sea): set<nat> {
    set n: nat | 0 < n < |s.nodes| && s.Live(n) && !Kept(s, n)
  }

  ghost function Marked(mark: array<bool>): set<nat>
    reads mark
  {
    set x: nat | x < mark.Length && mark[x]
  }

  ghost function Unmarked(mark: array<bool>): set<nat>
    reads mark
  {
    set x: nat | x < mark.Length && !mark[x]
  }

  /** Marks the control users of a node that are not marked yet. */
  method MarkUsers(g: Graph, cur: nat, mark: array<bool>) returns (more: seq<nat>)
    requires g.Valid() && mark.Length == |g.nodes|
    modifies mark
    ensures forall x: nat :: x < mark.Length ==> (mark[x] <==> old(mark[x]) || x in more)
    ensures forall y :: y in more ==> y < mark.Length && !old(mark[y]) && ControlStep(g.View())(cur, y)
    ensures forall y: nat :: ControlStep(g.View())(cur, y) ==> y < mark.Length && mark[y]
  {
    more := [];
    var j := 1;
    while j < |g.nodes|
      invariant 1 <= j
      invariant forall x: nat :: x < mark.Length ==> (mark[x] <==> old(mark[x]) || x in more)
      invariant forall y :: y in more ==> y < j && y < mark.Length && !old(mark[y]) && ControlStep(g.View())(cur, y)
      invariant forall y: nat :: y < j && ControlStep(g.View())(cur, y) ==> y < mark.Length && mark[y]
    {
      if !mark[j] && IsDead !in g.nodes[j].flags && Edge(cur, Control) in g.View().Inputs(j) {
        mark[j] := true;
        more := more + [j];
      }
      j := j + 1;
    }
  }

  /** Marks the data and effect producers of a node that are not marked yet. */
  method MarkFeeds(g: Graph, cur: nat, mark: array<bool>) returns (more: seq<nat>)
    requires g.Valid() && mark.Length == |g.nodes| && cur < |g.nodes|
    modifies mark
    ensures forall x: nat :: x < mark.Length ==> (mark[x] <==> old(mark[x]) || x in more)
    ensures forall y :: y in more ==> y < mark.Length && !old(mark[y]) && FeedStep(g.View())(cur, y)
    ensures forall y: nat :: FeedStep(g.View())(cur, y) ==> y < mark.Length && mark[y]
  {
    more := [];
    var inputs := g.View().Inputs(cur);
    var i := 0;
    while i < |inputs|
      invariant i <= |inputs|
      invariant forall x: nat :: x < mark.Length ==> (mark[x] <==> old(mark[x]) || x in more)
      invariant forall y :: y in more ==> y < mark.Length && !old(mark[y]) && FeedStep(g.View())(cur, y)
      invariant forall j :: 0 <= j < i && inputs[j].kind in {Data, Effect} && inputs[j].target != NO_NODE ==>
        inputs[j].target < mark.Length && mark[inputs[j].target]
    {
      var e := inputs[i];
      assert InGraph(g.View().edges[g.nodes[cur].firstInput + i].target, |g.nodes|);
      if e.kind in {Data, Effect} && e.target != NO_NODE && !mark[e.target] {
        assert e in inputs && FeedStep(g.View())(cur, e.target);
        mark[e.target] := true;
        more := more + [e.target];
      }
      i := i + 1;
    }
  }

  /** A worklist step on the marks. */
  lemma MarksExpand(step: Step, roots: set<nat>, before: set<nat>, after: set<nat>, queue: seq<nat>, more: seq<nat>)
    requires Frontier(step, roots, before, queue) && |queue| > 0
    requires forall x :: x in after <==> x in before || x in more
    requires forall y :: y in more ==> step(queue[0], y)
    requires forall y: nat :: step(queue[0], y) ==> y in after
    ensures Frontier(step, roots, after, queue[1..] + more)
  {
    FrontierExpand(step, roots, before, queue, more);
    assert after == before + (set y | y in more);
  }

  method ExpandUsers(g: Graph, mark: array<bool>, queue: seq<nat>, ghost roots: set<nat>) returns (rest: seq<nat>)
    requires g.Valid() && mark.Length == |g.nodes| && |queue| > 0
    requires Frontier(ControlStep(g.View()), roots, Marked(mark), queue)
    modifies mark
    ensures Frontier(ControlStep(g.View()), roots, Marked(mark), rest)
    ensures Unmarked(mark) < old(Unmarked(mark)) || (Unmarked(mark) == old(Unmarked(mark)) && |rest| < |queue|)
  {
    ghost var before := Marked(mark);
    var more := MarkUsers(g, queue[0], mark);
    MarksExpand(ControlStep(g.View()), roots, before, Marked(mark), queue, more);
    rest := queue[1..] + more;
    if more != [] { assert more[0] in more && more[0] in old(Unmarked(mark)) && more[0] !in Unmarked(mark); }
  }

  method ExpandFeeds(g: Graph, mark: array<bool>, queue: seq<nat>, ghost roots: set<nat>) returns (rest: seq<nat>)
    requires g.Valid() && mark.Length == |g.nodes| && |queue| > 0 && queue[0] < |g.nodes|
    requires Frontier(FeedStep(g.View()), roots, Marked(mark), queue)
    modifies mark
    ensures Frontier(FeedStep(g.View()), roots, Marked(mark), rest)
    ensures Unmarked(mark) < old(Unmarked(mark)) || (Unmarked(mark) == old(Unmarked(mark)) && |rest| < |queue|)
  {
    ghost var before := Marked(mark);
    var more := MarkFeeds(g, queue[0], mark);
    MarksExpand(FeedStep(g.View()), roots, before, Marked(mark), queue, more);
    rest := queue[1..] + more;
    if more != [] { assert more[0] in more && more[0] in old(Unmarked(mark)) && more[0] !in Unmarked(mark); }
  }

  /** Forward reachability from Start along control edges. */
  method MarkExecuted(g: Graph) returns (mark: array<bool>)
    requires g.Valid() && g.start < |g.nodes|
    ensures fresh(mark) && mark.Length == |g.nodes|
    ensures forall x: nat :: x in Marked(mark) <==> Executed(g.View(), x)
  {
    mark := new bool[|g.nodes|](_ => false);
    mark[g.start] := true;
    var queue := [g.start];
    ghost var roots := {g.start};
    ReachedRoot(ControlStep(g.View()), roots, g.start);
    assert Marked(mark) == roots;
    while |queue| > 0
      invariant fresh(mark) && mark.Length == |g.nodes|
      invariant Frontier(ControlStep(g.View()), roots, Marked(mark), queue)
      decreases Unmarked(mark), |queue|
    {
      queue := ExpandUsers(g, mark, queue, roots);
    }
    FrontierDone(ControlStep(g.View()), roots, Marked(mark));
  }

  /** Backward reachability from Stop along data and effect edges. */
  method MarkContributing(g: Graph) returns (mark: array<bool>)
    requires g.Valid() && (g.stop == NO_NODE || g.stop < |g.nodes|) && |g.nodes| < NO_NODE
    ensures fresh(mark) && mark.Length == |g.nodes|
    ensures forall x: nat :: x in Marked(mark) <==> Contributes(g.View(), x)
  {
    mark := new bool[|g.nodes|](_ => false);
    if g.stop == NO_NODE { return; }
    ghost var roots := Feeds(g.View(), g.stop);
    var queue := MarkFeeds(g, g.stop, mark);
    assert Marked(mark) == roots == set y | y in queue;
    forall x | x in roots ensures Reached(FeedStep(g.View()), roots, x) {
      ReachedRoot(FeedStep(g.View()), roots, x);
    }
    while |queue| > 0
      invariant fresh(mark) && mark.Length == |g.nodes|
      invariant Frontier(FeedStep(g.View()), roots, Marked(mark), queue)
      decreases Unmarked(mark), |queue|
    {
      assert queue[0] in Marked(mark);
      queue := ExpandFeeds(g, mark, queue, roots);
    }
    FrontierDone(FeedStep(g.View()), roots, Marked(mark));
  }

  /** Marks dead the control and effect nodes that Start does not reach and the other nodes that Stop does not
      depend on. */
  method PruneUnreachable(g: Graph) returns (r: PassResult)
    requires g.Valid() && (g.start == NO_NODE || g.start < |g.nodes|) && (g.stop == NO_NODE || g.stop < |g.nodes|)
        && |g.nodes| < NO_NODE
    modifies g
    ensures g.Valid() && g.uses == old(g.uses)
    ensures g.View() == if old(g.start) == NO_NODE then old(g.View()) else Swept(old(g.View()), old(Pruned(g.View())))
    ensures r == if old(g.start) == NO_NODE then PassResult(false, 0, 0)
        else PassResult(Pruned(old(g.View())) != {}, |Pruned(old(g.View()))|, 0)
  {
    if g.start == NO_NODE { return PassResult(false, 0, 0); }
    var executed := MarkExecuted(g);
    var contributing := MarkContributing(g);
    r := PruneUnmarked(g, executed, contributing);
  }

  method PruneUnmarked(g: Graph, executed: array<bool>, contributing: array<bool>) returns (r: PassResult)
    requires g.Valid() && executed.Length == contributing.Length == |g.nodes|
    requires forall x: nat :: x in Marked(executed) <==> Executed(g.View(), x)
    requires forall x: nat :: x in Marked(contributing) <==> Contributes(g.View(), x)
    modifies g
    ensures g.Valid() && g.uses == old(g.uses) && g.View() == Swept(old(g.View()), old(Pruned(g.View())))
    ensures r == PassResult(Pruned(old(g.View())) != {}, |Pruned(old(g.View()))|, 0)
  {
    r := PassResult(false, 0, 0);
    ghost var s := g.View();
    ghost var victims := Pruned(s);
    SweepStart(s, victims);
    var i := 1;
    while i < |g.nodes|
      invariant g.Valid() && 1 <= i <= |g.nodes| == |s.nodes| == executed.Length == contributing.Length
      invariant forall x: nat :: x in Marked(executed) <==> Executed(s, x)
      invariant forall x: nat :: x in Marked(contributing) <==> Contributes(s, x)
      invariant Sweeping(s, victims, g.View(), i, r) && g.uses == old(g.uses)
    {
      assert executed[i] == (i in Marked(executed)) && contributing[i] == (i in Marked(contributing));
      var dead := PruneNext(g, s, victims, i, executed[i], contributing[i], r.removed);
      if dead { r := PassResult(true, r.removed + 1, 0); }
      i := i + 1;
    }
    assert i == |g.nodes|;
    SweepEnd(s, victims, g.View(), r);
  }

  method PruneNext(g: Graph, ghost s: Sea, ghost victims: set<nat>, i: nat, executed: bool, contributes: bool,
                   ghost n: nat)
    returns (dead: bool)
    requires g.Valid() && 0 < i < |g.nodes| == |s.nodes| && victims == Pruned(s) && SweptTo(s, victims, g.View(), i, n)
    requires executed == Executed(s, i) && contributes == Contributes(s, i)
    modifies g`nodes
    ensures g.Valid() && |g.nodes| == |s.nodes| && SweptTo(s, victims, g.View(), i + 1, if dead then n + 1 else n)
  {
    SweepNext(s, victims, g.View(), i, n);
    dead := PruneAt(g, s, i, executed, contributes);
  }

  method PruneAt(g: Graph, ghost s: Sea, i: nat, executed: bool, contributes: bool) returns (dead: bool)
    requires g.Valid() && 0 < i < |g.nodes| == |s.nodes| && g.nodes[i] == s.nodes[i] && g.start == s.start
        && g.stop == s.stop
    requires executed == Executed(s, i) && contributes == Contributes(s, i)
    modifies g`nodes
    ensures g.Valid() && g.View() == if i in Pruned(s) then old(g.View()).Kill(i) else old(g.View())
    ensures dead == (i in Pruned(s))
  {
    var flags := g.nodes[i].flags;
    var keep := if IsControl in flags || IsEffect in flags then executed else contributes;
    if i == g.start || i == g.stop { keep := true; }
    dead := IsDead !in flags && !keep;
    if dead { g.MarkDead(i); }
  }

  // ----- pruning straight-line code -----

  /** In straight-line code everything a kept node depends on is kept. */
  lemma PruneSpares(s: Sea)
    requires DataWired(s) && Tame(s) && |s.nodes| < NO_NODE
    ensures Spared(s, Pruned(s))
  {
    forall n | 0 <= n < |s.nodes| && s.Live(n) && n !in Pruned(s) ensures SparedAt(s, Pruned(s), n) {
      assert TameAt(s, n);
      forall i | 0 <= i < |s.Inputs(n)| ensures s.Inputs(n)[i].target !in Pruned(s) {
        PruneSparesInput(s, n, i);
      }
    }
  }

  lemma PruneSparesInput(s: Sea, n: nat, i: nat)
    requires DataWired(s) && Tame(s) && |s.nodes| < NO_NODE && n < |s.nodes| && s.Live(n) && n !in Pruned(s)
        && i < |s.Inputs(n)|
    ensures s.Inputs(n)[i].target !in Pruned(s)
  {
    var e := s.Inputs(n)[i];
    assert TameAt(s, n);
    assert n > 0;
    if e.kind == Data && e.target < |s.nodes| {
      PruneSparesData(s, n, e);
    } else if e.kind == Effect && e.target != s.start {
      LoadKept(s, e.target);
    } else {
      assert e.target == s.start || e.target >= |s.nodes|;
    }
  }

  lemma PruneSparesData(s: Sea, n: nat, e: Edge)
    requires DataWired(s) && Tame(s) && |s.nodes| < NO_NODE && n < |s.nodes| && s.Live(n) && n !in Pruned(s)
    requires e in s.Inputs(n) && e.kind == Data && e.target < |s.nodes| && IsDatum(s.nodes[e.target].kind)
    ensures e.target !in Pruned(s)
  {
    if s.nodes[e.target].kind == LoadLocal {
      LoadKept(s, e.target);
    } else {
      KeptUser(s, n, e);
      FedContributes(s, n, e);
      ContributesKept(s, e.target);
    }
  }

  lemma KeptUser(s: Sea, n: nat, e: Edge)
    requires DataWired(s) && Tame(s) && n < |s.nodes| && s.Live(n) && n !in Pruned(s) && e in s.Inputs(n)
        && e.kind == Data
    ensures n == s.stop || Contributes(s, n)
  {
    assert TameAt(s, n);
    assert n > 0;
  }

  lemma ContributesKept(s: Sea, n: nat)
    requires DataWired(s) && Tame(s) && n < |s.nodes| && IsValueKind(s.nodes[n].kind) && Contributes(s, n)
    ensures n !in Pruned(s)
  {
    assert TameAt(s, n);
  }

  /** A load hangs on Start, which reaches it. */
  lemma LoadKept(s: Sea, n: nat)
    requires DataWired(s) && Tame(s) && n < |s.nodes| && s.nodes[n].kind == LoadLocal
    ensures Executed(s, n) && n !in Pruned(s)
  {
    assert TameAt(s, n) && TameAt(s, 0);
    assert s.Inputs(n)[0] == Edge(s.start, Control);
    ReachedRoot(ControlStep(s), {s.start}, s.start);
    ReachedStep(ControlStep(s), {s.start}, s.start, n);
  }

  lemma FedContributes(s: Sea, n: nat, e: Edge)
    requires s.HasSlice(n) && e in s.Inputs(n) && e.kind == Data && e.target != NO_NODE
    requires n == s.stop || Contributes(s, n)
    ensures Contributes(s, e.target)
  {
    assert FeedStep(s)(n, e.target);
    if n == s.stop {
      ReachedRoot(FeedStep(s), Feeds(s, s.stop), e.target);
    } else {
      ReachedStep(FeedStep(s), Feeds(s, s.stop), n, e.target);
    }
  }

  lemma PruneAdvances(ext: Ext, s: Sea, rank: seq<nat>)
    requires Sane(s, rank) && Tame(s) && |s.nodes| < NO_NODE
    ensures Advances(ext, s, Swept(s, Pruned(s)), rank)
  {
    PruneSpares(s);
    forall n | 0 <= n < |s.nodes| && s.nodes[n].kind in {Stop, LoadLocal} ensures n !in Pruned(s) {
      assert TameAt(s, n);
      if s.nodes[n].kind == LoadLocal { LoadKept(s, n); }
    }
    SweptAdvances(ext, s, rank, Pruned(s));
  }

  // ----- what pruning leaves behind -----

  /** Pruning leaves no edge to a dead node if and only if none leads to what it removes, be it from a node that
      was dead already. */
  lemma PruneIff(s: Sea)
    requires s.WellFormed() && DeadUnused(s)
    ensures DeadUnused(Swept(s, Pruned(s))) <==>
      forall e :: 0 <= e < |s.edges| && s.edges[e].target < |s.nodes| ==> s.edges[e].target !in Pruned(s)
  {
    SweptCleanIff(s, Pruned(s));
  }

  /** Nothing but Stop and loads has a control input in straight-line code, and only Start and loads feed an effect. */
  lemma {:induction false} FeedsCompute(s: Sea, p: seq<nat>, x: nat)
    requires DataWired(s) && Tame(s) && s.HasSlice(s.stop) && |s.nodes| < NO_NODE
    requires Reachability.LeadsTo(FeedStep(s), Feeds(s, s.stop), p, x)
    ensures x < |s.nodes| && (x == s.start || IsDatum(s.nodes[x].kind))
    decreases |p|
  {
    if |p| == 1 {
      FeedOf(s, s.stop, x);
    } else {
      var front, y := p[..|p| - 1], p[|p| - 2];
      assert IsPath(FeedStep(s), front);
      FeedsCompute(s, front, y);
      assert FeedStep(s)(p[|p| - 2], p[|p| - 1]);
      FeedOf(s, y, x);
    }
  }

  lemma FeedOf(s: Sea, y: nat, x: nat)
    requires DataWired(s) && Tame(s) && s.HasSlice(y) && FeedStep(s)(y, x)
    ensures x < |s.nodes| && (x == s.start || IsDatum(s.nodes[x].kind))
  {
    assert TameAt(s, y);
    var i :| 0 <= i < |s.Inputs(y)| && s.Inputs(y)[i].target == x && s.Inputs(y)[i].kind in {Data, Effect};
  }

  /** What is executed, other than Start, has a control input. */
  lemma ExecutedAfter(s: Sea, n: nat)
    requires Executed(s, n) && n != s.start
    ensures s.HasSlice(n) && exists x :: Edge(x, Control) in s.Inputs(n)
  {
    var p :| Reachability.LeadsTo(ControlStep(s), {s.start}, p, n);
    assert ControlStep(s)(p[|p| - 2], p[|p| - 1]);
  }

  lemma NotExecuted(s: Sea, n: nat)
    requires s.HasSlice(n) && s.Inputs(n) == [] && n != s.start
    ensures !Executed(s, n)
  {
    if Executed(s, n) { ExecutedAfter(s, n); }
  }

  /** In straight-line code it removes the live nodes that Stop does not depend on, except for loads. */
  lemma PrunedTame(s: Sea, n: nat)
    requires DataWired(s) && Tame(s) && s.HasSlice(s.stop) && |s.nodes| < NO_NODE
    ensures n in Pruned(s) <==> MayPrune(s, n) && s.Live(n) && !Contributes(s, n)
  {
    if 0 < n < |s.nodes| && n != s.start && n != s.stop {
      assert TameAt(s, n);
      if s.nodes[n].kind == LoadLocal {
        LoadKept(s, n);
      } else if s.nodes[n].kind == Start {
        NotExecuted(s, n);
        if Contributes(s, n) {
          var p :| Reachability.LeadsTo(FeedStep(s), Feeds(s, s.stop), p, n);
          FeedsCompute(s, p, n);
        }
      }
    }
  }

  /** Not the placeholder, Start, Stop or a load. */
  predicate MayPrune(s: Sea, n: nat) {
    0 < n < |s.nodes| && n != s.start && n != s.stop && s.nodes[n].kind != LoadLocal
  }

  /** So there pruning is clean if and only if Stop depends on every computing node that has a user, dead users
      included. */
  lemma PruneTameIff(s: Sea)
    requires DataWired(s) && Tame(s) && s.HasSlice(s.stop) && |s.nodes| < NO_NODE && DeadUnused(s)
    ensures DeadUnused(Swept(s, Pruned(s))) <==>
      forall e :: 0 <= e < |s.edges| && MayPrune(s, s.edges[e].target) ==>
        Contributes(s, s.edges[e].target)
  {
    PruneIff(s);
    forall e | 0 <= e < |s.edges| && s.edges[e].target < |s.nodes|
      ensures s.edges[e].target !in Pruned(s) <==>
        !MayPrune(s, s.edges[e].target) || Contributes(s, s.edges[e].target)
    {
      assert !s.Dead(s.edges[e].target);
      PrunedTame(s, s.edges[e].target);
    }
  }
}
