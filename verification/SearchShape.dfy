/** Which search requests are accepted, said of the nodes of the tree instead of the walk over it. */
module SearchShape {
  import opened SearchAst

  /** The tree's nodes, each before what hangs below it. */
  function Nodes(e: Expression): seq<Expression> {
    [e] + match e
          case Clause(_, _, _, _) => []
          case And(children) => NodesAll(children)
          case Or(children) => NodesAll(children)
          case Not(child) => Nodes(child)
          case Boost(_, child) => Nodes(child)
          case Optional(required, optional) => Nodes(required) + NodesAll(optional)
  }

  function NodesAll(es: seq<Expression>): seq<Expression> {
    if es == [] then [] else NodesAll(es[..|es| - 1]) + Nodes(es[|es| - 1])
  }

  /** How many levels hang below the root. */
  function Height(e: Expression): nat {
    match e
    case Clause(_, _, _, _) => 0
    case And(children) => HeightAll(children)
    case Or(children) => HeightAll(children)
    case Not(child) => Height(child) + 1
    case Boost(_, child) => Height(child) + 1
    case Optional(required, optional) => Max(Height(required) + 1, HeightAll(optional))
  }

  function HeightAll(es: seq<Expression>): nat {
    if es == [] then 0 else Max(HeightAll(es[..|es| - 1]), Height(es[|es| - 1]) + 1)
  }

  function Max(a: nat, b: nat): nat { if a < b then b else a }

  /** What a node must be, whatever is below it. */
  predicate Proper(n: Expression, fields: nat) {
    match n
    case Clause(_, _, _, names) => |names| <= fields
    case And(children) => |children| > 0
    case Or(children) => |children| > 0
    case Not(_) => true
    case Boost(boost, _) => boost <= 0x42C8_0000
    case Optional(_, optional) => |optional| > 0
  }

  predicate AllProper(ns: seq<Expression>, fields: nat) { forall i :: 0 <= i < |ns| ==> Proper(ns[i], fields) }

  /** A Boolean node costs a clause per child, a negation two, a boost one, optional scoring one besides its children. */
  function Cost(n: Expression): nat {
    match n
    case Clause(_, _, _, _) => 0
    case And(children) => |children|
    case Or(children) => |children|
    case Not(_) => 2
    case Boost(_, _) => 1
    case Optional(_, optional) => |optional| + 1
  }

  function Costs(ns: seq<Expression>): nat { if ns == [] then 0 else Costs(ns[..|ns| - 1]) + Cost(ns[|ns| - 1]) }

  /** The bytes of the texts of all clauses among the nodes. */
  function TextBytes(ns: seq<Expression>): nat {
    if ns == [] then 0
    else TextBytes(ns[..|ns| - 1]) + if ns[|ns| - 1].Clause? then |ns[|ns| - 1].text| else 0
  }

  lemma {:induction false} NodesConcat(a: seq<Expression>, b: seq<Expression>, fields: nat)
    ensures Costs(a + b) == Costs(a) + Costs(b) && TextBytes(a + b) == TextBytes(a) + TextBytes(b)
    ensures AllProper(a + b, fields) <==> AllProper(a, fields) && AllProper(b, fields)
  {
    hide Cost, Proper;
    if b == [] {
      assert a + b == a;
    } else {
      var n := |b| - 1;
      NodesConcat(a, b[..n], fields);
      assert (a + b)[..|a| + n] == a + b[..n];
      forall i | 0 <= i < |b| ensures (a + b)[|a| + i] == b[i] {}
    }
  }

  lemma OneNode(e: Expression, fields: nat)
    ensures Costs([e]) == Cost(e) && TextBytes([e]) == (if e.Clause? then |e.text| else 0)
    ensures AllProper([e], fields) <==> Proper(e, fields)
  {
    assert [e][..0] == [];
  }

  /** The node together with what is below it. */
  lemma NodeAndBelow(e: Expression, below: seq<Expression>, fields: nat)
    ensures Costs([e] + below) == Cost(e) + Costs(below)
    ensures TextBytes([e] + below) == (if e.Clause? then |e.text| else 0) + TextBytes(below)
    ensures AllProper([e] + below, fields) <==> Proper(e, fields) && AllProper(below, fields)
  {
    hide Costs, TextBytes, AllProper;
    OneNode(e, fields);
    NodesConcat([e], below, fields);
  }

  lemma {:induction false} CostsExactly(e: Expression, depth: nat, fields: nat)
    ensures Charge(e) == Costs(Nodes(e)) && Text(e) == TextBytes(Nodes(e))
    ensures Shape(e, depth, fields) <==> depth + Height(e) <= 8 && AllProper(Nodes(e), fields)
    decreases e, 0
  {
    hide Costs, TextBytes, AllProper;
    match e
    case Clause(_, _, _, _) =>
      assert Nodes(e) == [e];
      OneNode(e, fields);
    case And(children) =>
      ListCostsExactly(children, depth + 1, fields);
      NodeAndBelow(e, NodesAll(children), fields);
    case Or(children) =>
      ListCostsExactly(children, depth + 1, fields);
      NodeAndBelow(e, NodesAll(children), fields);
    case Not(child) =>
      CostsExactly(child, depth + 1, fields);
      NodeAndBelow(e, Nodes(child), fields);
    case Boost(_, child) =>
      CostsExactly(child, depth + 1, fields);
      NodeAndBelow(e, Nodes(child), fields);
    case Optional(required, optional) =>
      CostsExactly(required, depth + 1, fields);
      ListCostsExactly(optional, depth + 1, fields);
      NodesConcat(Nodes(required), NodesAll(optional), fields);
      NodeAndBelow(e, Nodes(required) + NodesAll(optional), fields);
  }

  lemma {:induction false} ListCostsExactly(es: seq<Expression>, depth: nat, fields: nat)
    requires depth > 0
    ensures ChargeAll(es) == Costs(NodesAll(es)) && TextAll(es) == TextBytes(NodesAll(es))
    ensures (forall i :: 0 <= i < |es| ==> Shape(es[i], depth, fields))
      <==> (es == [] || depth - 1 + HeightAll(es) <= 8) && AllProper(NodesAll(es), fields)
    decreases es, 1
  {
    hide Shape, Nodes, Costs, TextBytes, AllProper;
    NoCosts(fields);
    if es != [] {
      var n := |es| - 1;
      ListCostsExactly(es[..n], depth, fields);
      CostsExactly(es[n], depth, fields);
      NodesConcat(NodesAll(es[..n]), Nodes(es[n]), fields);
      assert (forall i :: 0 <= i < |es| ==> Shape(es[i], depth, fields))
        <==> (forall i :: 0 <= i < n ==> Shape(es[..n][i], depth, fields)) && Shape(es[n], depth, fields);
    }
  }

  lemma NoCosts(fields: nat)
    ensures Costs([]) == 0 && TextBytes([]) == 0 && AllProper([], fields)
  {
  }

  /** A request is accepted iff it is at most eight levels deep, each of its nodes is proper, and the costs of all nodes and
      the bytes of all clause texts stay within their limits. */
  lemma AcceptedExactly(e: Expression, clauses: nat, fields: nat)
    ensures Accepted(e, clauses, fields) <==>
      && Height(e) <= 8 && AllProper(Nodes(e), fields) && Costs(Nodes(e)) <= clauses && TextBytes(Nodes(e)) <= 65536
  {
    hide Shape, Nodes, Height, AllProper, Costs, TextBytes;
    CostsExactly(e, 0, fields);
  }
}
