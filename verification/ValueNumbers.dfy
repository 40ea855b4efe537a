/** Global value numbering: the keys under which nodes are considered equal, and why merging nodes with equal
    keys keeps every value. */
module ValueNumbers {
  import opened SeaOfNodes
  import opened Int64
  import opened Sorting
  import opened Valuation
  import opened Rewrites
  import opened PassCore
  import opened Ascending

  // ----- keys -----

  datatype Key = Key(kind: NodeKind, payload: int, ids: seq<nat>)

  /** The targets of data and control inputs, in order. */
  function IdsOf(inputs: seq<Edge>): seq<nat> {
    if |inputs| == 0 then []
    else (if inputs[0].kind in {Data, Control} then [inputs[0].target] else []) + IdsOf(inputs[1..])
  }

  function KeyOf(s: Sea, n: nat): Key
    requires s.HasSlice(n)
  {
    var ids := IdsOf(s.Inputs(n));
    Key(s.nodes[n].kind, s.nodes[n].payload, if Commutative in s.nodes[n].flags then Sort(ids) else ids)
  }

  // ----- keys up to order -----

  /** Two commutative nodes share a key exactly if they agree up to the order of their inputs. */
  lemma CommutativeKeys(s: Sea, m: nat, n: nat)
    requires s.HasSlice(m) && s.HasSlice(n) && Commutative in s.nodes[m].flags && Commutative in s.nodes[n].flags
    ensures KeyOf(s, m) == KeyOf(s, n) <==>
      && s.nodes[m].kind == s.nodes[n].kind && s.nodes[m].payload == s.nodes[n].payload
      && multiset(IdsOf(s.Inputs(m))) == multiset(IdsOf(s.Inputs(n)))
  {
    SortIff(IdsOf(s.Inputs(m)), IdsOf(s.Inputs(n)));
  }

  // ----- when equal keys mean equal values -----

  /** ctrl separates control inputs from data inputs. The nodes open to value numbering compute, and claim to
      be commutative only where swapping two operands cannot be observed. */
  ghost predicate Honest(s: Sea, ctrl: set<nat>)
    requires s.WellFormed()
  {
    forall n {:trigger HonestAt(s, n, ctrl)} :: 0 <= n < |s.nodes| && Numbered(s, n) ==> HonestAt(s, n, ctrl)
  }

  predicate Numbered(s: Sea, n: nat) {
    s.Live(n) && GVNable in s.nodes[n].flags
  }

  ghost predicate HonestAt(s: Sea, n: nat, ctrl: set<nat>)
    requires s.HasSlice(n)
  {
    && IsValueKind(s.nodes[n].kind) && n !in ctrl
    && Apart(s.Inputs(n), ctrl)
    && (Commutative in s.nodes[n].flags ==> s.nodes[n].kind in SYMMETRIC && |DataOf(s, n)| == 2)
  }

  predicate Apart(inputs: seq<Edge>, ctrl: set<nat>) {
    forall i :: 0 <= i < |inputs| ==>
      (inputs[i].kind == Data ==> inputs[i].target !in ctrl) && (inputs[i].kind == Control ==> inputs[i].target in ctrl)
  }

  /** The ids that are not control. */
  function DataIds(ids: seq<nat>, ctrl: set<nat>): seq<nat> {
    if |ids| == 0 then [] else (if ids[0] in ctrl then [] else [ids[0]]) + DataIds(ids[1..], ctrl)
  }

  lemma {:induction false} DataIdsAre(inputs: seq<Edge>, ctrl: set<nat>)
    requires Apart(inputs, ctrl)
    ensures DataIds(IdsOf(inputs), ctrl) == OfKind(inputs, Data)
  {
    if |inputs| > 0 {
      DataIdsAre(inputs[1..], ctrl);
      var ids, rest := IdsOf(inputs), IdsOf(inputs[1..]);
      if inputs[0].kind in {Data, Control} {
        assert ids == [inputs[0].target] + rest && ids[1..] == rest;
      } else {
        assert ids == rest;
      }
    }
  }

  /** How often x occurs among the data ids depends on the multiset of ids only. */
  lemma {:induction false} DataIdsCount(ids: seq<nat>, ctrl: set<nat>, x: nat)
    ensures multiset(DataIds(ids, ctrl))[x] == if x in ctrl then 0 else multiset(ids)[x]
  {
    if |ids| > 0 {
      DataIdsCount(ids[1..], ctrl, x);
      assert ids == [ids[0]] + ids[1..];
    }
  }

  lemma DataIdsPermuted(a: seq<nat>, b: seq<nat>, ctrl: set<nat>)
    requires multiset(a) == multiset(b)
    ensures multiset(DataIds(a, ctrl)) == multiset(DataIds(b, ctrl))
  {
    forall x: nat ensures multiset(DataIds(a, ctrl))[x] == multiset(DataIds(b, ctrl))[x] {
      DataIdsCount(a, ctrl, x);
      DataIdsCount(b, ctrl, x);
    }
  }

  lemma Commutes(k: NodeKind, x: i64, y: i64)
    requires k in SYMMETRIC
    ensures Binary(k, x, y) == Binary(k, y, x)
  {
    assert x * y == y * x;
  }

  lemma ShiftOneByZero(k: NodeKind)
    requires k in {Shl, Shr}
    ensures Binary(k, 1, 0) == 1 && Binary(k, 0, 1) == 0
  {
    assert Pow2(0) == 1 && Pow2(1) == 2;
  }

  /** Swapping operands cannot be observed exactly for the symmetric kinds. */
  lemma SymmetricIff(k: NodeKind)
    requires IsBinary(k)
    ensures k in SYMMETRIC <==> forall x: i64, y: i64 :: Binary(k, x, y) == Binary(k, y, x)
  {
    if k in SYMMETRIC {
      forall x: i64, y: i64 ensures Binary(k, x, y) == Binary(k, y, x) { Commutes(k, x, y); }
    } else if k in {Shl, Shr} {
      ShiftOneByZero(k);
    } else {
      assert Binary(k, 1, 2) != Binary(k, 2, 1);
    }
  }

  /** The data inputs of nodes with equal keys, up to order where both orders mean the same. */
  lemma SameKeyData(s: Sea, m: nat, n: nat, ctrl: set<nat>)
    requires s.HasSlice(m) && s.HasSlice(n) && HonestAt(s, m, ctrl) && HonestAt(s, n, ctrl)
        && KeyOf(s, m) == KeyOf(s, n)
    ensures multiset(DataOf(s, m)) == multiset(DataOf(s, n))
    ensures DataOf(s, m) == DataOf(s, n)
         || (s.nodes[m].kind in SYMMETRIC && |DataOf(s, m)| == |DataOf(s, n)| == 2
             && DataOf(s, m)[0] == DataOf(s, n)[1] && DataOf(s, m)[1] == DataOf(s, n)[0])
  {
    var a, b := IdsOf(s.Inputs(m)), IdsOf(s.Inputs(n));
    SortSorts(a);
    SortSorts(b);
    DataIdsPermuted(a, b, ctrl);
    DataIdsAre(s.Inputs(m), ctrl);
    DataIdsAre(s.Inputs(n), ctrl);
    if DataOf(s, m) != DataOf(s, n) { PairSwapped(DataOf(s, m), DataOf(s, n)); }
  }

  lemma PairSwapped(a: seq<nat>, b: seq<nat>)
    requires multiset(a) == multiset(b) && a != b && (|a| == 2 || |b| == 2)
    ensures |a| == |b| == 2 && a[0] == b[1] && a[1] == b[0]
  {
    assert |multiset(a)| == |a| && |multiset(b)| == |b|;
    assert a == [a[0], a[1]] && b == [b[0], b[1]];
    assert multiset{a[0], a[1]} == multiset{b[0], b[1]};
    assert a[0] in multiset{b[0], b[1]} && a[1] in multiset{b[0], b[1]} && b[0] in multiset{a[0], a[1]};
  }

  /** Nodes with equal keys have equal values. */
  lemma SameKeySameValue(ext: Ext, s: Sea, m: nat, n: nat, ctrl: set<nat>)
    requires DataWired(s) && m < |s.nodes| && n < |s.nodes|
    requires HonestAt(s, m, ctrl) && HonestAt(s, n, ctrl) && KeyOf(s, m) == KeyOf(s, n)
    ensures EqualValues(ext, s, m, n)
  {
    SameKeyData(s, m, n, ctrl);
    forall v | Models(ext, s, v) ensures v[m] == v[n] {
      InputsWired(s, m);
      InputsWired(s, n);
      assert ValueOk(ext, s, v, m) && ValueOk(ext, s, v, n);
      ArgsAre(s.Inputs(m), v);
      ArgsAre(s.Inputs(n), v);
      if DataOf(s, m) == DataOf(s, n) {
        assert Args(s.Inputs(m), v) == Args(s.Inputs(n), v);
      } else {
        BinaryValue(ext, s, v, m);
        BinaryValue(ext, s, v, n);
        Commutes(s.nodes[m].kind, v[DataOf(s, m)[0]], v[DataOf(s, m)[1]]);
      }
    }
  }

  // ----- the table of keys seen so far -----

  /** A key that names a dead node matches no live node any more. */
  ghost predicate Stale(s: Sea, k: Key) {
    exists x :: x in k.ids && s.Dead(x)
  }

  /** Each entry names an earlier live node that had the key when it was entered, and still has it unless one
      of the inputs has since given way to another node. */
  ghost predicate SeenAt(s: Sea, k: Key, c: nat, i: nat)
    requires s.WellFormed()
  {
    0 < c < i && c < |s.nodes| && Numbered(s, c) && (KeyOf(s, c) == k || Stale(s, k))
  }

  ghost predicate SeenOk(s: Sea, seen: map<Key, nat>, i: nat)
    requires s.WellFormed()
  {
    forall k {:trigger SeenAt(s, k, seen[k], i)} :: k in seen ==> SeenAt(s, k, seen[k], i)
  }

  lemma {:induction false} IdsMembers(inputs: seq<Edge>, x: nat)
    ensures x in IdsOf(inputs) <==> Edge(x, Data) in inputs || Edge(x, Control) in inputs
  {
    if |inputs| > 0 {
      IdsMembers(inputs[1..], x);
      assert inputs == [inputs[0]] + inputs[1..];
    }
  }

  lemma KeyMembers(s: Sea, n: nat, x: nat)
    requires s.HasSlice(n)
    ensures x in KeyOf(s, n).ids <==> Edge(x, Data) in s.Inputs(n) || Edge(x, Control) in s.Inputs(n)
  {
    var ids := IdsOf(s.Inputs(n));
    IdsMembers(s.Inputs(n), x);
    SortSorts(ids);
    assert x in Sort(ids) <==> x in multiset(Sort(ids));
    assert x in ids <==> x in multiset(ids);
  }

  /** The key of a live node is never stale. */
  lemma LiveKeyFresh(s: Sea, n: nat)
    requires s.WellFormed() && LiveInputs(s) && n < |s.nodes| && s.Live(n)
    ensures !Stale(s, KeyOf(s, n))
  {
    assert InputsAlive(s, n);
    forall x | x in KeyOf(s, n).ids ensures !s.Dead(x) {
      KeyMembers(s, n, x);
    }
  }

  lemma {:induction false} IdsRedirected(es: seq<Edge>, a: nat, b: nat)
    requires a !in IdsOf(es)
    ensures IdsOf(RedirectEdges(es, a, b)) == IdsOf(es)
  {
    if |es| > 0 {
      assert RedirectEdges(es, a, b)[1..] == RedirectEdges(es[1..], a, b);
      IdsRedirected(es[1..], a, b);
    }
  }

  /** A replacement leaves a key alone unless the replaced node occurs in it. */
  lemma KeyKept(s: Sea, a: nat, b: nat, n: nat)
    requires s.WellFormed() && a < |s.nodes| && n < |s.nodes| && a !in KeyOf(s, n).ids
    ensures Replaced(s, a, b).HasSlice(n) && KeyOf(Replaced(s, a, b), n) == KeyOf(s, n)
  {
    ReplacedInputs(s, a, b, n);
    var ids := IdsOf(s.Inputs(n));
    SortSorts(ids);
    assert a in ids <==> a in multiset(ids);
    assert a in Sort(ids) <==> a in multiset(Sort(ids));
    IdsRedirected(s.Inputs(n), a, b);
  }

  lemma SeenKept(s: Sea, seen: map<Key, nat>, i: nat, b: nat)
    requires s.WellFormed() && i < |s.nodes| && Replaced(s, i, b).WellFormed() && SeenOk(s, seen, i)
    ensures SeenOk(Replaced(s, i, b), seen, i)
  {
    var t := Replaced(s, i, b);
    forall k | k in seen ensures SeenAt(t, k, seen[k], i) {
      var c := seen[k];
      assert SeenAt(s, k, c, i);
      if i in k.ids {
        assert t.Dead(i);
      } else if KeyOf(s, c) == k {
        KeyKept(s, i, b, c);
      } else {
        var x :| x in k.ids && s.Dead(x);
        assert t.Dead(x);
      }
    }
  }

  // ----- the normal form -----

  /** The inputs that count for numbering come before the node. */
  ghost predicate InOrder(s: Sea, n: nat)
    requires s.HasSlice(n)
  {
    forall x :: x in KeyOf(s, n).ids ==> x < n
  }

  ghost predicate TopoSorted(s: Sea)
    requires s.WellFormed()
  {
    forall n {:trigger InOrder(s, n)} :: 0 <= n < |s.nodes| && Numbered(s, n) ==> InOrder(s, n)
  }

  /** No two live nodes open to numbering share a key. */
  ghost predicate NoDuplicates(s: Sea)
    requires s.WellFormed()
  {
    forall m: nat, n: nat :: 0 < m < n < |s.nodes| && Numbered(s, m) && Numbered(s, n) ==> KeyOf(s, m) != KeyOf(s, n)
  }

  /** The table has an entry for each node so far, under its present key. */
  ghost predicate Entered(s: Sea, seen: map<Key, nat>, n: nat)
    requires s.HasSlice(n)
  {
    KeyOf(s, n) in seen && seen[KeyOf(s, n)] == n
  }

  ghost predicate AllEntered(s: Sea, seen: map<Key, nat>, i: nat)
    requires s.WellFormed()
  {
    forall n {:trigger Entered(s, seen, n)} :: 0 < n < i && n < |s.nodes| && Numbered(s, n) ==> Entered(s, seen, n)
  }

  lemma AllEnteredDistinct(s: Sea, seen: map<Key, nat>)
    requires s.WellFormed() && AllEntered(s, seen, |s.nodes|)
    ensures NoDuplicates(s)
  {
    forall m: nat, n: nat | 0 < m < n < |s.nodes| && Numbered(s, m) && Numbered(s, n)
        ensures KeyOf(s, m) != KeyOf(s, n) {
      assert Entered(s, seen, m) && Entered(s, seen, n);
    }
  }

  lemma TopoReplaced(s: Sea, a: nat, b: nat)
    requires s.WellFormed() && TopoSorted(s) && b < a < |s.nodes| && Replaced(s, a, b).WellFormed()
    ensures TopoSorted(Replaced(s, a, b))
  {
    var t := Replaced(s, a, b);
    forall n | 0 <= n < |t.nodes| && Numbered(t, n) ensures InOrder(t, n) {
      assert InOrder(s, n);
      ReplacedInputs(s, a, b, n);
      forall x | x in KeyOf(t, n).ids ensures x < n {
        KeyMembers(t, n, x);
        var kind :| kind in {Data, Control} && Edge(x, kind) in t.Inputs(n);
        var j :| 0 <= j < |t.Inputs(n)| && t.Inputs(n)[j] == Edge(x, kind);
        KeyMembers(s, n, s.Inputs(n)[j].target);
      }
    }
  }

  /** The state of the scan before node i. */
  ghost predicate Numbering(ext: Ext, s0: Sea, s: Sea, rank: seq<nat>, seen: map<Key, nat>, i: nat, ctrl: set<nat>) {
    && Progress(ext, s0, s, rank) && |s.nodes| == |s0.nodes|
    && Honest(s, ctrl) && SeenOk(s, seen, i)
    && (TopoSorted(s0) ==> TopoSorted(s) && AllEntered(s, seen, i))
    && (IsCalm(s0) ==> IsCalm(s))
  }

  // ----- what the scan does -----

  /** The node that node i is merged into, if any, is the one entered under its key. */
  function MergePlan(s: Sea, seen: map<Key, nat>, i: nat): Plan
    requires s.HasSlice(i)
  {
    if Numbered(s, i) && KeyOf(s, i) in seen then Rewrite([], seen[KeyOf(s, i)], 0) else Keep
  }

  function SeenAfter(s: Sea, seen: map<Key, nat>, i: nat): map<Key, nat>
    requires s.HasSlice(i)
  {
    if Numbered(s, i) && KeyOf(s, i) !in seen then seen[KeyOf(s, i) := i] else seen
  }

  /** The nodes before i have been visited. A reported change means that there were duplicates; without one, graph
      and keys are as they were. */
  ghost predicate Reported(s0: Sea, s: Sea, seen: map<Key, nat>, i: nat, changed: bool)
    requires s0.WellFormed()
  {
    && (changed ==> !NoDuplicates(s0))
    && (!changed ==> s == s0 && AllEntered(s0, seen, i))
  }

  /** A merge takes two nodes with the same key. */
  lemma MergesDuplicates(s: Sea, seen: map<Key, nat>, i: nat)
    requires s.WellFormed() && i < |s.nodes| && MergePlan(s, seen, i).Rewrite?
    requires SeenOk(s, seen, i) && LiveInputs(s)
    ensures !NoDuplicates(s)
  {
    var c := seen[KeyOf(s, i)];
    LiveKeyFresh(s, i);
    assert SeenAt(s, KeyOf(s, i), c, i);
    assert KeyOf(s, c) == KeyOf(s, i);
  }

  lemma ReportNext(s0: Sea, s: Sea, seen: map<Key, nat>, i: nat, changed: bool)
    requires s0.WellFormed() && s.WellFormed() && LiveInputs(s) && 0 < i < |s.nodes|
    requires SeenOk(s, seen, i) && Reported(s0, s, seen, i, changed)
    ensures var plan := MergePlan(s, seen, i); Reported(s0, Applied(s, i, plan), SeenAfter(s, seen, i), i + 1, changed
        || plan.Rewrite?)
  {
    if !changed {
      if MergePlan(s, seen, i).Rewrite? {
        MergesDuplicates(s, seen, i);
      } else {
        var after := SeenAfter(s, seen, i);
        forall n | 0 < n < i + 1 && n < |s.nodes| && Numbered(s, n) ensures Entered(s, after, n) {
          if n < i { assert Entered(s, seen, n); }
        }
      }
    }
  }

  lemma ReportEnd(s0: Sea, s: Sea, seen: map<Key, nat>, changed: bool)
    requires s0.WellFormed() && Reported(s0, s, seen, |s.nodes|, changed)
    ensures (changed <==> !NoDuplicates(s0)) && (!changed ==> s == s0)
  {
    if !changed { AllEnteredDistinct(s0, seen); }
  }
}
