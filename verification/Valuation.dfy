/** What the data nodes of a graph mean: a valuation gives every node a 64-bit value, and a node that
    computes must have the value its kind computes from its data inputs. Nodes with effects, phis and
    parameters are opaque: their values are arbitrary. */
module Valuation {
  import opened SeaOfNodes
  import opened Int64

  /** The kinds whose value is a function of kind, payload and data inputs. */
  predicate IsValueKind(k: NodeKind) {
    k in {ConstInt, ConstFloat, ConstNull, ConstUndef, ConstString, ConstFunc, ConstClass,
          Add, Sub, Mul, Div, Pow, Neg, Eq, Ne, Lt, Gt, Lte, Gte, And, Or, Not, Shl, Shr, ToFloat, ToBool}
  }

  /** What floating-point, power and malformed nodes compute is left open, but fixed. */
  type Ext = (NodeKind, int, seq<i64>) -> i64

  predicate IsBinary(k: NodeKind) {
    k in {Add, Sub, Mul, Div, Eq, Ne, Lt, Gt, Lte, Gte, And, Or, Shl, Shr}
  }

  function Binary(k: NodeKind, x: i64, y: i64): i64
    requires IsBinary(k)
  {
    match k
    case Add => Wrap(x + y)
    case Sub => Wrap(x - y)
    case Mul => Wrap(x * y)
    case Div => Wrap(Quotient(x, y))
    case Eq => Bit(x == y)
    case Ne => Bit(x != y)
    case Lt => Bit(x < y)
    case Gt => Bit(x > y)
    case Lte => Bit(x <= y)
    case Gte => Bit(x >= y)
    case And => Bit(x != 0 && y != 0)
    case Or => Bit(x != 0 || y != 0)
    case Shl => Wrap(x * Pow2(ShiftCount(y)))
    case _ => Wrap(ShiftRight(x, ShiftCount(y)))
  }

  predicate IsUnary(k: NodeKind) {
    k in {Neg, Not, ToBool}
  }

  function Unary(k: NodeKind, x: i64): i64
    requires IsUnary(k)
  {
    match k
    case Neg => Negate(x)
    case Not => Bit(x == 0)
    case _ => Bit(x != 0)
  }

  function NodeValue(ext: Ext, k: NodeKind, payload: int, args: seq<i64>): i64
    requires IsValueKind(k)
  {
    if k == ConstInt then Wrap(payload)
    else if IsBinary(k) && |args| == 2 then Binary(k, args[0], args[1])
    else if IsUnary(k) && |args| == 1 then Unary(k, args[0])
    else ext(k, payload, args)
  }

  /** The values of the data inputs, in order. */
  function Args(inputs: seq<Edge>, val: seq<i64>): seq<i64>
    requires DataIn(inputs, |val|)
  {
    if |inputs| == 0 then []
    else if inputs[0].kind == Data then [val[inputs[0].target]] + Args(inputs[1..], val)
    else Args(inputs[1..], val)
  }

  /** Every data edge leads to one of the first `size` nodes. */
  predicate DataIn(es: seq<Edge>, size: nat) {
    forall i :: 0 <= i < |es| && es[i].kind == Data ==> es[i].target < size
  }

  ghost predicate DataWired(s: Sea) {
    s.WellFormed() && DataIn(s.edges, |s.nodes|)
  }

  lemma InputsWired(s: Sea, n: nat)
    requires DataWired(s) && n < |s.nodes|
    ensures DataIn(s.Inputs(n), |s.nodes|)
  {
  }

  ghost predicate ValueOk(ext: Ext, s: Sea, val: seq<i64>, n: nat)
    requires DataWired(s) && |val| == |s.nodes| && n < |s.nodes|
  {
    InputsWired(s, n);
    IsValueKind(s.nodes[n].kind) ==>
      val[n] == NodeValue(ext, s.nodes[n].kind, s.nodes[n].payload, Args(s.Inputs(n), val))
  }

  /** val is a valuation of the graph: an assignment to the opaque nodes together with what follows from it. */
  ghost predicate Models(ext: Ext, s: Sea, val: seq<i64>)
    requires DataWired(s)
  {
    |val| == |s.nodes| && forall n {:trigger ValueOk(ext, s, val, n)} :: 0 <= n < |s.nodes| ==> ValueOk(ext, s, val, n)
  }

  /** Inputs of the same kinds whose targets have the same values give the same arguments. */
  lemma {:induction false} ArgsCongruent(es: seq<Edge>, fs: seq<Edge>, v: seq<i64>, w: seq<i64>)
    requires |es| == |fs| && DataIn(es, |v|) && DataIn(fs, |w|)
    requires forall i :: 0 <= i < |es| ==> es[i].kind == fs[i].kind
    requires forall i :: 0 <= i < |es| && es[i].kind == Data ==> v[es[i].target] == w[fs[i].target]
    ensures Args(es, v) == Args(fs, w)
  {
    if |es| > 0 {
      forall i | 0 <= i < |es| - 1
        ensures es[1..][i].kind == fs[1..][i].kind
        ensures es[1..][i].kind == Data ==> v[es[1..][i].target] == w[fs[1..][i].target]
      {
        assert es[1..][i] == es[i + 1] && fs[1..][i] == fs[i + 1];
      }
      ArgsCongruent(es[1..], fs[1..], v, w);
    }
  }

  /** The arguments are the values of the data targets. */
  lemma {:induction false} ArgsAre(es: seq<Edge>, val: seq<i64>)
    requires DataIn(es, |val|)
    ensures |Args(es, val)| == |OfKind(es, Data)|
    ensures forall i :: 0 <= i < |OfKind(es, Data)| ==>
        OfKind(es, Data)[i] < |val| && Args(es, val)[i] == val[OfKind(es, Data)[i]]
  {
    if |es| > 0 { ArgsAre(es[1..], val); }
  }

  // ----- acyclicity -----

  /** A rank that strictly decreases along the data inputs of every node that computes. */
  ghost predicate Ranked(s: Sea, rank: seq<nat>)
    requires DataWired(s)
  {
    |rank| == |s.nodes| && forall n {:trigger Above(s.Inputs(n), rank, rank[n])} ::
      0 <= n < |s.nodes| && IsValueKind(s.nodes[n].kind) ==> Above(s.Inputs(n), rank, rank[n])
  }

  /** The data targets all rank below r. */
  ghost predicate Above(inputs: seq<Edge>, rank: seq<nat>, r: nat) {
    forall i :: 0 <= i < |inputs| && inputs[i].kind == Data ==> inputs[i].target < |rank| && rank[inputs[i].target] < r
  }

  /** In an acyclic graph the opaque nodes determine every value. */
  lemma {:induction false} ModelUnique(ext: Ext, s: Sea, rank: seq<nat>, v: seq<i64>, w: seq<i64>, n: nat)
    requires DataWired(s) && Ranked(s, rank) && Models(ext, s, v) && Models(ext, s, w) && n < |s.nodes|
    requires forall m :: 0 <= m < |s.nodes| && !IsValueKind(s.nodes[m].kind) ==> v[m] == w[m]
    ensures v[n] == w[n]
    decreases rank[n]
  {
    if IsValueKind(s.nodes[n].kind) {
      assert ValueOk(ext, s, v, n) && ValueOk(ext, s, w, n);
      InputsWired(s, n);
      var es := s.Inputs(n);
      assert Above(es, rank, rank[n]);
      forall i | 0 <= i < |es| && es[i].kind == Data ensures v[es[i].target] == w[es[i].target] {
        ModelUnique(ext, s, rank, v, w, es[i].target);
      }
      ArgsCongruent(es, es, v, w);
    }
  }

  /** The value of node n that follows from an assignment to the opaque nodes. */
  ghost function Evaluate(ext: Ext, s: Sea, rank: seq<nat>, opaque0: seq<i64>, n: nat): i64
    requires DataWired(s) && Ranked(s, rank) && |opaque0| == |s.nodes| && n < |s.nodes|
    decreases rank[n], 1, 0
  {
    if IsValueKind(s.nodes[n].kind) then
      assert Above(s.Inputs(n), rank, rank[n]);
      NodeValue(ext, s.nodes[n].kind, s.nodes[n].payload, EvaluateArgs(ext, s, rank, opaque0, s.Inputs(n), rank[n]))
    else opaque0[n]
  }

  ghost function EvaluateArgs(ext: Ext, s: Sea, rank: seq<nat>, opaque0: seq<i64>, inputs: seq<Edge>, r: nat): seq<i64>
    requires DataWired(s) && Ranked(s, rank) && |opaque0| == |s.nodes| && Above(inputs, rank, r)
    decreases r, 0, |inputs|
  {
    if |inputs| == 0 then []
    else
      assert forall i :: 0 <= i < |inputs[1..]| ==> inputs[1..][i] == inputs[i + 1];
      var rest := EvaluateArgs(ext, s, rank, opaque0, inputs[1..], r);
      if inputs[0].kind == Data then [Evaluate(ext, s, rank, opaque0, inputs[0].target)] + rest else rest
  }

  lemma {:induction false} EvaluateArgsAre(ext: Ext, s: Sea, rank: seq<nat>, opaque0: seq<i64>, inputs: seq<Edge>,
      r: nat, val: seq<i64>)
    requires DataWired(s) && Ranked(s, rank) && |opaque0| == |s.nodes| && Above(inputs, rank, r)
    requires |val| == |s.nodes| && forall n :: 0 <= n < |val| ==> val[n] == Evaluate(ext, s, rank, opaque0, n)
    requires DataIn(inputs, |val|)
    ensures EvaluateArgs(ext, s, rank, opaque0, inputs, r) == Args(inputs, val)
    decreases |inputs|
  {
    if |inputs| > 0 {
      assert forall i :: 0 <= i < |inputs[1..]| ==> inputs[1..][i] == inputs[i + 1];
      EvaluateArgsAre(ext, s, rank, opaque0, inputs[1..], r, val);
    }
  }

  /** Every assignment to the opaque nodes of an acyclic graph extends to a valuation. */
  lemma ModelExists(ext: Ext, s: Sea, rank: seq<nat>, opaque0: seq<i64>) returns (val: seq<i64>)
    requires DataWired(s) && Ranked(s, rank) && |opaque0| == |s.nodes|
    ensures Models(ext, s, val)
    ensures forall m :: 0 <= m < |s.nodes| && !IsValueKind(s.nodes[m].kind) ==> val[m] == opaque0[m]
  {
    val := seq(|s.nodes|, n requires 0 <= n < |s.nodes| => Evaluate(ext, s, rank, opaque0, n));
    forall n | 0 <= n < |s.nodes| ensures ValueOk(ext, s, val, n) {
      if IsValueKind(s.nodes[n].kind) {
        InputsWired(s, n);
        assert Above(s.Inputs(n), rank, rank[n]);
        EvaluateArgsAre(ext, s, rank, opaque0, s.Inputs(n), rank[n], val);
      }
    }
  }
}
