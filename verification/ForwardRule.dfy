/** When store-to-load forwarding fires, in terms of kinds, inputs and payloads. */
module ForwardRule {
  import opened SeaOfNodes
  import opened PassCore
  import opened LocalForwarding

  /** The first of the inputs of this kind is from x. */
  ghost predicate HasFirst(inputs: seq<Edge>, kind: EdgeKind, x: nat) {
    exists i {:trigger FirstAt(inputs, kind, i)} :: FirstAt(inputs, kind, i) && inputs[i].target == x
  }

  predicate FirstAt(inputs: seq<Edge>, kind: EdgeKind, i: int) {
    0 <= i < |inputs| && inputs[i].kind == kind && forall k :: 0 <= k < i ==> inputs[k].kind != kind
  }

  lemma {:induction false} FirstOfKind(inputs: seq<Edge>, kind: EdgeKind, x: nat)
    ensures |OfKind(inputs, kind)| > 0 && OfKind(inputs, kind)[0] == x <==> HasFirst(inputs, kind, x)
  {
    if |inputs| > 0 {
      var rest := inputs[1..];
      assert forall k :: 0 < k < |inputs| ==> inputs[k] == rest[k - 1];
      FirstOfKind(rest, kind, x);
      if inputs[0].kind == kind {
        assert FirstAt(inputs, kind, 0);
      } else {
        assert OfKind(inputs, kind) == OfKind(rest, kind);
        if i :| FirstAt(rest, kind, i) && rest[i].target == x { assert FirstAt(inputs, kind, i + 1); }
        if i :| FirstAt(inputs, kind, i) && inputs[i].target == x { assert FirstAt(rest, kind, i - 1); }
      }
    }
  }

  /** A load whose first effect input is a store to its slot, the low 32 bits of the load's payload; and the first data
      input of that store is x. */
  ghost predicate LoadsStored(s: Sea, n: nat, x: nat)
    requires s.WellFormed() && n < |s.nodes|
  {
    && s.Live(n) && s.nodes[n].kind == LoadLocal
    && exists m: nat {:trigger StoreFeeds(s, n, m, x)} :: StoreFeeds(s, n, m, x)
  }

  ghost predicate StoreFeeds(s: Sea, n: nat, m: nat, x: nat)
    requires s.WellFormed() && n < |s.nodes|
  {
    && HasFirst(s.Inputs(n), Effect, m) && m < |s.nodes| && s.nodes[m].kind == StoreLocal
    && s.nodes[m].payload == s.nodes[n].payload % 4294967296 && HasFirst(s.Inputs(m), Data, x)
  }

  /** Exactly such a load is forwarded: x takes its place. */
  lemma LoadForwards(s: Sea, n: nat)
    requires s.WellFormed() && n < |s.nodes|
    ensures ForwardPlan(s, n).Keep? <==> forall x: nat :: !LoadsStored(s, n, x)
    ensures forall x: nat {:trigger LoadsStored(s, n, x)} ::
      LoadsStored(s, n, x) ==> ForwardPlan(s, n) == Rewrite([], x, 0)
  {
    forall x: nat ensures LoadsStored(s, n, x) <==> ForwardPlan(s, n) == Rewrite([], x, 0) { LoadsStoredIff(s, n, x); }
    var plan := ForwardPlan(s, n);
    if plan.Rewrite? { assert LoadsStored(s, n, plan.to); }
  }

  lemma LoadsStoredIff(s: Sea, n: nat, x: nat)
    requires s.WellFormed() && n < |s.nodes|
    ensures LoadsStored(s, n, x) <==> ForwardPlan(s, n) == Rewrite([], x, 0)
  {
    if s.Live(n) && s.nodes[n].kind == LoadLocal {
      if |EffectsOf(s, n)| > 0 {
        var m := EffectsOf(s, n)[0];
        FirstOfKind(s.Inputs(n), Effect, m);
        if m < |s.nodes| {
          FirstOfKind(s.Inputs(m), Data, x);
          assert StoreFeeds(s, n, m, x) <==> ForwardPlan(s, n) == Rewrite([], x, 0);
        }
      }
      if m: nat :| StoreFeeds(s, n, m, x) { FirstOfKind(s.Inputs(n), Effect, m); }
    }
  }

  /** Nothing is left to forward exactly if no load is of that form. */
  lemma SettledIff(s: Sea)
    requires s.WellFormed()
    ensures SettledBefore(s, |s.nodes|) <==> NoneLoadsStored(s)
  {
    forall n: nat | 0 < n < |s.nodes|
      ensures ForwardPlan(s, n).Keep? <==> forall x: nat :: !LoadsStored(s, n, x)
    {
      LoadForwards(s, n);
    }
    if !SettledBefore(s, |s.nodes|) {
      var n: nat :| 0 < n < |s.nodes| && !ForwardPlan(s, n).Keep?;
      var x: nat :| LoadsStored(s, n, x);
    }
    if !NoneLoadsStored(s) {
      var n: nat, x: nat :| 0 < n < |s.nodes| && LoadsStored(s, n, x);
      assert !ForwardPlan(s, n).Keep?;
    }
  }

  ghost predicate NoneLoadsStored(s: Sea)
    requires s.WellFormed()
  {
    forall n: nat, x: nat {:trigger LoadsStored(s, n, x)} :: 0 < n < |s.nodes| ==> !LoadsStored(s, n, x)
  }
}
