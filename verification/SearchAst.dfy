/** The search expression tree and the structural budget every entry point charges while walking it. */
module SearchAst {

  const MAX_EXPRESSION_DEPTH := 8
  const MAX_QUERY_TEXT_BYTES := 65536
  /** The bits of the binary32 value 100.0: boosts are finite, without sign and at most this. */
  const BOOST_HUNDRED := 0x42C8_0000
  const BOOST_ONE := 0x3F80_0000

  type byte = b: int | 0 <= b < 256
  type word = w: int | 0 <= w < 0x1_0000_0000

  datatype Mode = Any | All | Phrase | Prefix | Fuzzy | FuzzyPrefix {
    predicate Expensive() { !Any? && !All? }
  }

  datatype Options = Options(distance: byte, transpositions: bool) {
    predicate Valid(mode: Mode) {
      && distance <= 2
      && (mode.Fuzzy? || mode.FuzzyPrefix? || (distance == 1 && transpositions))
    }
  }

  /** Texts and field names are their UTF-8 bytes; a boost is the bit pattern of its binary32 value. */
  datatype Expression =
    | Clause(text: seq<byte>, mode: Mode, options: Options, fields: seq<seq<byte>>)
    | And(children: seq<Expression>)
    | Or(children: seq<Expression>)
    | Not(child: Expression)
    | Boost(boost: word, child: Expression)
    | Optional(required: Expression, optional: seq<Expression>)

  predicate ValidBoost(boost: word) { boost <= BOOST_HUNDRED }

  /** Compiled clauses the structure alone accounts for. */
  function Charge(e: Expression): nat {
    match e
    case Clause(_, _, _, _) => 0
    case And(children) => |children| + ChargeAll(children)
    case Or(children) => |children| + ChargeAll(children)
    case Not(child) => 2 + Charge(child)
    case Boost(_, child) => 1 + Charge(child)
    case Optional(required, optional) => |optional| + 1 + Charge(required) + ChargeAll(optional)
  }

  function ChargeAll(es: seq<Expression>): nat {
    if es == [] then 0 else ChargeAll(es[..|es| - 1]) + Charge(es[|es| - 1])
  }

  function Text(e: Expression): nat {
    match e
    case Clause(text, _, _, _) => |text|
    case And(children) => TextAll(children)
    case Or(children) => TextAll(children)
    case Not(child) => Text(child)
    case Boost(_, child) => Text(child)
    case Optional(required, optional) => Text(required) + TextAll(optional)
  }

  function TextAll(es: seq<Expression>): nat {
    if es == [] then 0 else TextAll(es[..|es| - 1]) + Text(es[|es| - 1])
  }

  /** The local rules of every node of e, when e hangs at the given depth. */
  predicate Shape(e: Expression, depth: nat, fields: nat) {
    && depth <= MAX_EXPRESSION_DEPTH
    && match e
       case Clause(_, _, _, names) => |names| <= fields
       case And(children) => children != [] && forall i :: 0 <= i < |children| ==> Shape(children[i], depth + 1, fields)
       case Or(children) => children != [] && forall i :: 0 <= i < |children| ==> Shape(children[i], depth + 1, fields)
       case Not(child) => Shape(child, depth + 1, fields)
       case Boost(boost, child) => ValidBoost(boost) && Shape(child, depth + 1, fields)
       case Optional(required, optional) =>
         && optional != []
         && Shape(required, depth + 1, fields)
         && forall i :: 0 <= i < |optional| ==> Shape(optional[i], depth + 1, fields)
  }

  /** What validation of a whole request accepts. */
  predicate Accepted(e: Expression, clauses: nat, fields: nat) {
    Shape(e, 0, fields) && Charge(e) <= clauses && Text(e) <= MAX_QUERY_TEXT_BYTES
  }

  lemma {:induction false} PrefixesCostLess(es: seq<Expression>, n: nat)
    requires n <= |es|
    ensures ChargeAll(es[..n]) <= ChargeAll(es) && TextAll(es[..n]) <= TextAll(es)
  {
    if n == |es| {
      assert es[..n] == es;
    } else {
      PrefixesCostLess(es[..|es| - 1], n);
      assert es[..|es| - 1][..n] == es[..n];
    }
  }

  lemma OneMore(es: seq<Expression>, n: nat)
    requires n < |es|
    ensures ChargeAll(es[..n + 1]) == ChargeAll(es[..n]) + Charge(es[n])
    ensures TextAll(es[..n + 1]) == TextAll(es[..n]) + Text(es[n])
  {
    assert es[..n + 1][..n] == es[..n];
  }

  class SearchStructureBudget {
    const fields: nat
    var remaining: nat
    var textBytes: nat

    constructor (limit: nat, fields: nat)
      ensures remaining == limit && textBytes == 0 && this.fields == fields
    {
      this.fields := fields;
      remaining, textBytes := limit, 0;
    }

    method Charge(cost: nat) returns (ok: bool)
      modifies this`remaining
      ensures ok <==> cost <= old(remaining)
      ensures remaining == if ok then old(remaining) - cost else old(remaining)
    {
      ok := cost <= remaining;
      if ok { remaining := remaining - cost; }
    }

    method Children(count: nat) returns (ok: bool)
      modifies this`remaining
      ensures ok <==> 0 < count <= old(remaining)
      ensures remaining == if ok then old(remaining) - count else old(remaining)
    {
      if count == 0 { return false; }
      ok := Charge(count);
    }

    method Leaf(bytes: nat, names: nat) returns (ok: bool)
      modifies this`textBytes
      ensures textBytes == old(textBytes) + bytes
      ensures ok <==> textBytes <= MAX_QUERY_TEXT_BYTES && names <= fields
    {
      textBytes := textBytes + bytes;
      ok := textBytes <= MAX_QUERY_TEXT_BYTES && names <= fields;
    }
  }

  /** Everything a walk may still spend covers what e costs. */
  twostate predicate Covers(budget: SearchStructureBudget, e: Expression, depth: nat) {
    && Shape(e, depth, budget.fields)
    && Charge(e) <= old(budget.remaining)
    && old(budget.textBytes) + Text(e) <= MAX_QUERY_TEXT_BYTES
  }

  twostate predicate Spent(budget: SearchStructureBudget, charge: nat, text: nat)
    reads budget
  {
    budget.remaining == old(budget.remaining) - charge && budget.textBytes == old(budget.textBytes) + text
  }

  method Visit(e: Expression, depth: nat, budget: SearchStructureBudget) returns (ok: bool)
    requires budget.textBytes <= MAX_QUERY_TEXT_BYTES
    modifies budget
    ensures ok <==> Covers(budget, e, depth)
    ensures ok ==> Spent(budget, Charge(e), Text(e))
    decreases e, 0
  {
    if depth > MAX_EXPRESSION_DEPTH { return false; }
    match e
    case Clause(text, _, _, names) =>
      ok := budget.Leaf(|text|, |names|);
    case And(children) =>
      ok := budget.Children(|children|);
      if ok { ok := VisitAll(children, depth + 1, budget); }
    case Or(children) =>
      ok := budget.Children(|children|);
      if ok { ok := VisitAll(children, depth + 1, budget); }
    case Not(child) =>
      ok := budget.Charge(2);
      if ok { ok := Visit(child, depth + 1, budget); }
    case Boost(boost, child) =>
      if !ValidBoost(boost) { return false; }
      ok := budget.Charge(1);
      if ok { ok := Visit(child, depth + 1, budget); }
    case Optional(required, optional) =>
      ok := budget.Children(|optional|);
      if !ok { return; }
      ok := budget.Charge(1);
      if !ok { return; }
      ok := Visit(required, depth + 1, budget);
      if ok { ok := VisitAll(optional, depth + 1, budget); }
  }

  method VisitAll(es: seq<Expression>, depth: nat, budget: SearchStructureBudget) returns (ok: bool)
    requires budget.textBytes <= MAX_QUERY_TEXT_BYTES
    modifies budget
    ensures ok <==>
      && (forall i :: 0 <= i < |es| ==> Shape(es[i], depth, budget.fields))
      && ChargeAll(es) <= old(budget.remaining)
      && old(budget.textBytes) + TextAll(es) <= MAX_QUERY_TEXT_BYTES
    ensures ok ==> Spent(budget, ChargeAll(es), TextAll(es))
    decreases es, 1
  {
    var n := 0;
    while n < |es|
      invariant n <= |es|
      invariant forall i :: 0 <= i < n ==> Shape(es[i], depth, budget.fields)
      invariant ChargeAll(es[..n]) <= old(budget.remaining)
      invariant old(budget.textBytes) + TextAll(es[..n]) <= MAX_QUERY_TEXT_BYTES
      invariant Spent(budget, ChargeAll(es[..n]), TextAll(es[..n]))
    {
      OneMore(es, n);
      PrefixesCostLess(es, n + 1);
      ok := Visit(es[n], depth, budget);
      if !ok { return; }
      n := n + 1;
    }
    assert es[..n] == es;
    ok := true;
  }

  /** The typed-tree validator accepts exactly the trees the declarative rules accept. */
  method ValidateSearchStructure(e: Expression, clauses: nat, fields: nat) returns (ok: bool)
    ensures ok <==> 0 < clauses <= 4096 && Accepted(e, clauses, fields)
  {
    if clauses == 0 || clauses > 4096 { return false; }
    var budget := new SearchStructureBudget(clauses, fields);
    ok := Visit(e, 0, budget);
  }
}
