/** The Sea-of-Nodes graph as a value: nodes and their input edges, without the
    reverse use lists that the container keeps for speed. Every pass is specified on
    this value; module UseLists proves that the container maintains it. */
module SeaOfNodes {
  /** Node ids are indices; the all-ones id stands for "no node". */
  const NO_NODE: nat := 0xFFFF_FFFF

  datatype NodeKind =
    | Start | Stop | Region | If | IfTrue | IfFalse | Loop | LoopExit | Jump | Return | Branch | Unreachable
    | ConstInt | ConstFloat | ConstNull | ConstUndef | ConstString | ConstFunc | ConstClass
    | FrameState | Deopt
    | Add | Sub | Mul | Div | Pow | Neg
    | Eq | Ne | Lt | Gt | Lte | Gte
    | And | Or | Not
    | Shl | Shr
    | ToFloat | ToBool
    | LoadVar | StoreVar | LoadLocal | StoreLocal | LoadField | StoreField | LoadIndex | StoreIndex
    | Allocate | ShapeOf | CheckShape
    | CheckInt | CheckFloat | CheckNotNull | CheckBounds
    | Call | CallNative | CallKnown
    | ForBegin | ForNext | TryBegin | TryEnd | Throw
    | Phi | EffectPhi | Parameter
    | MachineOp

  datatype Flag =
    | Pure | CSEable | GVNable | Commutative | NoThrow | NoDeopt | HasFrameState | IsAllocated
    | IsPinned | IsGuard | IsControl | IsEffect | IsDead

  datatype TypeId =
    | Top | Bottom | TInt | TFloat | TBool | TNull | TUndef | TString | TList | TFunction | TNativeFunction
    | TClass | TInstance | TObject | IntOrFloat | NonNullObj

  datatype EdgeKind = Data | Control | Effect | Frame

  datatype Edge = Edge(target: nat, kind: EdgeKind)

  /** A node's inputs are the slice edges[firstInput..firstInput+inputCount]. The 64-bit payload is
      kept in its signed reading. */
  datatype Node = Node(kind: NodeKind, flags: set<Flag>, ty: TypeId, payload: int, firstInput: nat, inputCount: nat)

  /** An edge target is no node at all, or one of the graph's nodes. */
  predicate InGraph(target: nat, size: nat) {
    target == NO_NODE || target < size
  }

  datatype Sea = Sea(nodes: seq<Node>, edges: seq<Edge>, start: nat, stop: nat) {

    /** Slot 0 is a placeholder without inputs, every input slice lies in the edge pool and every edge
        points at a node of the graph. */
    ghost predicate WellFormed() {
      && |nodes| > 0 && nodes[0].inputCount == 0
      && (forall n :: 0 <= n < |nodes| ==> nodes[n].firstInput + nodes[n].inputCount <= |edges|)
      && (forall e {:trigger InGraph(edges[e].target, |nodes|)} :: 0 <= e < |edges| ==>
          InGraph(edges[e].target, |nodes|))
    }

    predicate HasSlice(n: nat) {
      n < |nodes| && nodes[n].firstInput + nodes[n].inputCount <= |edges|
    }

    function Inputs(n: nat): seq<Edge>
      requires HasSlice(n)
    {
      edges[nodes[n].firstInput..nodes[n].firstInput + nodes[n].inputCount]
    }

    predicate Dead(n: nat) {
      n < |nodes| && IsDead in nodes[n].flags
    }

    predicate Live(n: nat) {
      n < |nodes| && IsDead !in nodes[n].flags
    }

    /** Appends a node whose inputs are the given edges. */
    function Append(kind: NodeKind, flags: set<Flag>, ty: TypeId, payload: int, inputs: seq<Edge>): Sea {
      Sea(nodes + [Node(kind, flags, ty, payload, |edges|, |inputs|)], edges + inputs, start, stop)
    }

    /** Points every edge that targets `prev` at `to` instead: what a scan of the whole edge pool would do. */
    function Redirect(prev: nat, to: nat): Sea {
      this.(edges := RedirectEdges(edges, prev, to))
    }

    /** Points input i of node n at another producer. */
    function Repoint(n: nat, i: nat, to: nat): Sea
      requires HasSlice(n) && i < nodes[n].inputCount
    {
      var e := nodes[n].firstInput + i;
      this.(edges := edges[e := Edge(to, edges[e].kind)])
    }

    function Kill(n: nat): Sea
      requires n < |nodes|
    {
      this.(nodes := nodes[n := nodes[n].(flags := nodes[n].flags + {IsDead})])
    }
  }

  function RedirectEdge(e: Edge, prev: nat, to: nat): Edge {
    if e.target == prev then Edge(to, e.kind) else e
  }

  function RedirectEdges(es: seq<Edge>, prev: nat, to: nat): (r: seq<Edge>)
    ensures |r| == |es|
    ensures forall i :: 0 <= i < |es| ==> r[i] == RedirectEdge(es[i], prev, to)
  {
    seq(|es|, i requires 0 <= i < |es| => RedirectEdge(es[i], prev, to))
  }

  /** The targets of the inputs of one kind, in input order. */
  function OfKind(inputs: seq<Edge>, kind: EdgeKind): seq<nat> {
    if |inputs| == 0 then []
    else (if inputs[0].kind == kind then [inputs[0].target] else []) + OfKind(inputs[1..], kind)
  }

  lemma {:induction false} OfKindSnoc(inputs: seq<Edge>, e: Edge, kind: EdgeKind)
    ensures OfKind(inputs + [e], kind) == OfKind(inputs, kind) + (if e.kind == kind then [e.target] else [])
  {
    if |inputs| > 0 {
      assert (inputs + [e])[1..] == inputs[1..] + [e];
      OfKindSnoc(inputs[1..], e, kind);
    }
  }

  lemma {:induction false} OfKindMembers(inputs: seq<Edge>, kind: EdgeKind, t: nat)
    ensures t in OfKind(inputs, kind) <==> Edge(t, kind) in inputs
  {
    if |inputs| > 0 {
      OfKindMembers(inputs[1..], kind, t);
      assert inputs == [inputs[0]] + inputs[1..];
    }
  }

  lemma {:induction false} AllData(inputs: seq<Edge>)
    requires forall i :: 0 <= i < |inputs| ==> inputs[i].kind == Data
    ensures |OfKind(inputs, Data)| == |inputs|
  {
    if |inputs| > 0 { AllData(inputs[1..]); }
  }

  /** How many edges point at v. */
  function EdgeCount(es: seq<Edge>, v: nat): nat {
    if |es| == 0 then 0 else EdgeCount(es[..|es| - 1], v) + (if es[|es| - 1].target == v then 1 else 0)
  }

  lemma {:induction false} EdgeCountAppend(es: seq<Edge>, e: Edge, v: nat)
    ensures EdgeCount(es + [e], v) == EdgeCount(es, v) + (if e.target == v then 1 else 0)
  {
    assert (es + [e])[..|es|] == es;
  }

  lemma {:induction false} EdgeCountUpdate(es: seq<Edge>, i: nat, e: Edge, v: nat)
    requires i < |es|
    ensures EdgeCount(es[i := e], v)
         == EdgeCount(es, v) - (if es[i].target == v then 1 else 0) + (if e.target == v then 1 else 0)
    decreases |es|
  {
    var last := |es| - 1;
    if i == last {
      assert es[i := e][..last] == es[..last];
    } else {
      assert es[i := e][..last] == es[..last][i := e];
      EdgeCountUpdate(es[..last], i, e, v);
    }
  }

  lemma {:induction false} EdgeCountZero(es: seq<Edge>, v: nat)
    ensures EdgeCount(es, v) == 0 <==> forall e :: 0 <= e < |es| ==> es[e].target != v
  {
    if |es| > 0 {
      EdgeCountZero(es[..|es| - 1], v);
      if EdgeCount(es, v) == 0 {
        forall e | 0 <= e < |es| ensures es[e].target != v {
          if e < |es| - 1 { assert es[..|es| - 1][e].target != v; }
        }
      }
    }
  }

  lemma {:induction false} EdgeCountBound(es: seq<Edge>, v: nat)
    ensures EdgeCount(es, v) <= |es|
  {
    if |es| > 0 { EdgeCountBound(es[..|es| - 1], v); }
  }
}
