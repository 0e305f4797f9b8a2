/** The cursor over a packed request, the decoder that builds a search expression and the scanner that costs it. */
module PackedSearch {
  import opened Wrappers
  import opened SearchAst
  import opened Codec
  import QueryText

  const USIZE_MAX := 0xFFFF_FFFF_FFFF_FFFF

  class Cursor {
    const bytes: Bytes
    var offset: nat

    ghost predicate Valid()
      reads this
    {
      offset <= |bytes|
    }

    function Rest(): Bytes
      requires Valid()
      reads this
    {
      bytes[offset..]
    }

    constructor (bytes: Bytes, offset: nat)
      requires offset <= |bytes|
      ensures Valid() && this.bytes == bytes && Rest() == bytes[offset..]
    {
      this.bytes, this.offset := bytes, offset;
    }

    method Read(length: nat) returns (r: Option<Bytes>)
      requires Valid()
      modifies this
      ensures Valid()
      ensures match Take(old(Rest()), length) case None => r == None && Rest() == old(Rest()) case Some(t) => r == Some(t.0) && Rest() == t.1
    {
      if length > |bytes| - offset { return None; }
      r := Some(bytes[offset..offset + length]);
      assert Rest()[..length] == bytes[offset..offset + length] && Rest()[length..] == bytes[offset + length..];
      offset := offset + length;
    }

    method ReadByte() returns (r: Option<byte>)
      requires Valid()
      modifies this
      ensures Valid()
      ensures match TakeByte(old(Rest())) case None => r == None case Some(t) => r == Some(t.0) && Rest() == t.1
    {
      var b := Read(1);
      r := if b.None? then None else Some(b.value[0]);
    }

    method ReadBool() returns (r: Option<bool>)
      requires Valid()
      modifies this
      ensures Valid()
      ensures match TakeBool(old(Rest())) case None => r == None case Some(t) => r == Some(t.0) && Rest() == t.1
    {
      var b := ReadByte();
      r := if b.None? || b.value > 1 then None else Some(b.value == 1);
    }

    method Read16() returns (r: Option<nat>)
      requires Valid()
      modifies this
      ensures Valid()
      ensures match Take16(old(Rest())) case None => r == None case Some(t) => r == Some(t.0) && Rest() == t.1
    {
      var b := Read(2);
      r := if b.None? then None else Some(Get16(b.value));
    }

    method Read32() returns (r: Option<nat>)
      requires Valid()
      modifies this
      ensures Valid()
      ensures match Take32(old(Rest())) case None => r == None case Some(t) => r == Some(t.0) && Rest() == t.1
    {
      var b := Read(4);
      r := if b.None? then None else Some(Get32(b.value));
    }

    method ReadString() returns (r: Option<Bytes>)
      requires Valid()
      modifies this
      ensures Valid()
      ensures match TakeString(old(Rest())) case None => r == None case Some(t) => r == Some(t.0) && Rest() == t.1
    {
      var n := Read32();
      if n.None? || n.value > MAX_STRING_BYTES { return None; }
      r := Read(n.value);
    }

    method ReadHead() returns (r: Option<(Mode, Options, nat)>)
      requires Valid()
      modifies this
      ensures Valid()
      ensures match TakeHead(old(Rest()))
              case None => r == None
              case Some((mode, options, count, rest)) => r == Some((mode, options, count)) && Rest() == rest
    {
      var m := ReadByte();
      if m.None? || GetMode(m.value).None? { return None; }
      var distance := ReadByte();
      if distance.None? { return None; }
      var transpositions := ReadBool();
      if transpositions.None? { return None; }
      var mode, options := GetMode(m.value).value, Options(distance.value, transpositions.value);
      if !options.Valid(mode) { return None; }
      var count := Read16();
      r := if count.None? then None else Some((mode, options, count.value));
    }
  }

  function Of(budget: SearchStructureBudget): Budget
    reads budget
  {
    Budget(budget.remaining, budget.textBytes)
  }

  // ---- the decoder ----

  lemma {:induction false} NamesFail(s: Bytes, k: nat, n: nat)
    requires k <= n && TakeNames(s, k).None?
    ensures TakeNames(s, n).None?
  {
    if k < n { NamesFail(s, k, n - 1); }
  }

  lemma {:induction false} ManyFail(s: Bytes, k: nat, n: nat, depth: nat, fields: nat, b: Budget)
    requires k <= n && ParseMany(s, k, depth, fields, b).None?
    ensures ParseMany(s, n, depth, fields, b).None?
  {
    if k < n { ManyFail(s, k, n - 1, depth, fields, b); }
  }

  method DecodeNames(c: Cursor, count: nat) returns (r: Option<seq<Bytes>>)
    requires c.Valid()
    modifies c
    ensures c.Valid()
    ensures match TakeNames(old(c.Rest()), count) case None => r == None case Some(t) => r == Some(t.0) && c.Rest() == t.1
  {
    hide IsUtf8, TakeString;
    ghost var start := c.Rest();
    var names: seq<Bytes> := [];
    while |names| < count
      invariant |names| <= count && c.Valid()
      invariant TakeNames(start, |names|) == Some((names, c.Rest()))
    {
      var name := c.ReadString();
      if name.None? || !IsUtf8(name.value) {
        NamesFail(start, |names| + 1, count);
        return None;
      }
      names := names + [name.value];
    }
    r := Some(names);
  }

  method DecodeClause(c: Cursor, budget: SearchStructureBudget) returns (r: Option<Expression>)
    requires c.Valid()
    modifies c, budget
    ensures c.Valid()
    ensures match ParseClause(old(c.Rest()), budget.fields, old(Of(budget)))
            case None => r == None
            case Some(p) => r == Some(p.e) && c.Rest() == p.rest && Of(budget) == p.left
  {
    hide IsUtf8, TakeString, TakeHead, TakeNames;
    var text := c.ReadString();
    if text.None? { return None; }
    var head := c.ReadHead();
    if head.None? { return None; }
    var (mode, options, count) := head.value;
    var ok := budget.Leaf(|text.value|, count);
    if !ok || !IsUtf8(text.value) { return None; }
    var names := DecodeNames(c, count);
    r := if names.None? then None else Some(Clause(text.value, mode, options, names.value));
  }

  /** The decoder returns the tree the grammar assigns, leaves the cursor behind it and has charged what it costs. */
  method DecodeExpression(c: Cursor, depth: nat, budget: SearchStructureBudget) returns (r: Option<Expression>)
    requires c.Valid()
    modifies c, budget
    ensures c.Valid()
    ensures match Parse(old(c.Rest()), depth, budget.fields, old(Of(budget)))
            case None => r == None
            case Some(p) => r == Some(p.e) && c.Rest() == p.rest && Of(budget) == p.left
    decreases MAX_EXPRESSION_DEPTH + 1 - depth, 1
  {
    hide ParseClause, ParseCombination, ParseNot, ParseBoost, ParseOptional;
    if depth > MAX_EXPRESSION_DEPTH { return None; }
    var kind := c.ReadByte();
    if kind.None? { return None; }
    if kind.value == 0 {
      r := DecodeClause(c, budget);
    } else if kind.value == 1 || kind.value == 2 {
      r := DecodeCombination(c, kind.value == 1, depth, budget);
    } else if kind.value == 3 || kind.value == 4 {
      r := DecodeUnary(c, kind.value == 4, depth, budget);
    } else if kind.value == 5 {
      r := DecodeOptional(c, depth, budget);
    } else {
      r := None;
    }
  }

  method DecodeCombination(c: Cursor, and: bool, depth: nat, budget: SearchStructureBudget) returns (r: Option<Expression>)
    requires c.Valid() && depth <= MAX_EXPRESSION_DEPTH
    modifies c, budget
    ensures c.Valid()
    ensures match ParseCombination(old(c.Rest()), and, depth, budget.fields, old(Of(budget)))
            case None => r == None
            case Some(p) => r == Some(p.e) && c.Rest() == p.rest && Of(budget) == p.left
    decreases MAX_EXPRESSION_DEPTH + 1 - depth, 0
  {
    hide ParseMany, Take16;
    var count := c.Read16();
    if count.None? { return None; }
    var ok := budget.Children(count.value);
    if !ok { return None; }
    var children := DecodeChildren(c, count.value, depth + 1, budget);
    r := if children.None? then None else Some(if and then And(children.value) else Or(children.value));
  }

  /** A complement or a boost. */
  method DecodeUnary(c: Cursor, boost: bool, depth: nat, budget: SearchStructureBudget) returns (r: Option<Expression>)
    requires c.Valid() && depth <= MAX_EXPRESSION_DEPTH
    modifies c, budget
    ensures c.Valid()
    ensures match if boost then ParseBoost(old(c.Rest()), depth, budget.fields, old(Of(budget)))
                  else ParseNot(old(c.Rest()), depth, budget.fields, old(Of(budget)))
            case None => r == None
            case Some(p) => r == Some(p.e) && c.Rest() == p.rest && Of(budget) == p.left
    decreases MAX_EXPRESSION_DEPTH + 1 - depth, 0
  {
    hide Parse, Take32;
    var weight: word := 0;
    if boost {
      var bits := c.Read32();
      if bits.None? || !ValidBoost(bits.value) { return None; }
      weight := bits.value;
    }
    var ok := budget.Charge(if boost then 1 else 2);
    if !ok { return None; }
    var child := DecodeExpression(c, depth + 1, budget);
    r := if child.None? then None else Some(if boost then Boost(weight, child.value) else Not(child.value));
  }

  method DecodeOptional(c: Cursor, depth: nat, budget: SearchStructureBudget) returns (r: Option<Expression>)
    requires c.Valid() && depth <= MAX_EXPRESSION_DEPTH
    modifies c, budget
    ensures c.Valid()
    ensures match ParseOptional(old(c.Rest()), depth, budget.fields, old(Of(budget)))
            case None => r == None
            case Some(p) => r == Some(p.e) && c.Rest() == p.rest && Of(budget) == p.left
    decreases MAX_EXPRESSION_DEPTH + 1 - depth, 0
  {
    hide Parse, ParseMany, Take16;
    var count := c.Read16();
    if count.None? { return None; }
    var ok := budget.Children(count.value);
    if !ok { return None; }
    ok := budget.Charge(1);
    if !ok { return None; }
    var required := DecodeExpression(c, depth + 1, budget);
    if required.None? { return None; }
    var optional := DecodeChildren(c, count.value, depth + 1, budget);
    r := if optional.None? then None else Some(Optional(required.value, optional.value));
  }

  method DecodeChildren(c: Cursor, count: nat, depth: nat, budget: SearchStructureBudget) returns (r: Option<seq<Expression>>)
    requires c.Valid()
    modifies c, budget
    ensures c.Valid()
    ensures match ParseMany(old(c.Rest()), count, depth, budget.fields, old(Of(budget)))
            case None => r == None
            case Some((es, rest, left)) => r == Some(es) && c.Rest() == rest && Of(budget) == left
    decreases MAX_EXPRESSION_DEPTH + 1 - depth, 2
  {
    hide Parse;
    ghost var start, b := c.Rest(), Of(budget);
    var es: seq<Expression> := [];
    while |es| < count
      invariant |es| <= count && c.Valid()
      invariant ParseMany(start, |es|, depth, budget.fields, b) == Some((es, c.Rest(), Of(budget)))
    {
      var e := DecodeExpression(c, depth, budget);
      if e.None? {
        ManyFail(start, |es| + 1, count, depth, budget.fields, b);
        return None;
      }
      es := es + [e.value];
    }
    r := Some(es);
  }

  // ---- what a request may cost ----

  datatype SearchCost = SearchCost(termsUpper: nat, constructionUpper: nat, expensive: bool, anchor: bool)

  function Saturated(n: nat): nat { Min(n, USIZE_MAX) }

  /** Under a raised profile every leaf is costed; a text that is not ASCII may hold any number of terms. */
  function TermsUpper(text: Bytes, raised: Option<nat>): nat {
    if raised.None? then 0
    else
      var upper := QueryText.TermUpper(text);
      if upper.Some? then upper.value else USIZE_MAX
  }

  /** Terms times fields; naming no field means every field of the schema. */
  function ConstructionUpper(terms: nat, count: nat, raised: Option<nat>): nat {
    Saturated(terms * (if count == 0 then (if raised.Some? then raised.value else 0) else count))
  }

  function LeafCost(text: Bytes, mode: Mode, count: nat, raised: Option<nat>): SearchCost {
    var terms := TermsUpper(text, raised);
    SearchCost(terms, ConstructionUpper(terms, count, raised), mode.Expensive(), true)
  }

  datatype Join = JoinAll | JoinAny | JoinOptional

  /** One more child: the widest leaf, the summed construction, any expensive mode, and the anchor rule of the node. */
  function Joined(join: Join, a: SearchCost, child: SearchCost): SearchCost {
    SearchCost(Max(a.termsUpper, child.termsUpper), Saturated(a.constructionUpper + child.constructionUpper), a.expensive || child.expensive,
               match join case JoinAll => a.anchor || child.anchor case JoinAny => a.anchor && child.anchor case JoinOptional => a.anchor)
  }

  function CostOf(e: Expression, raised: Option<nat>): SearchCost
    decreases e, 0
  {
    match e
    case Clause(text, mode, _, names) => LeafCost(text, mode, |names|, raised)
    case And(children) => CostAll(JoinAll, SearchCost(0, |children|, false, false), children, raised)
    case Or(children) => CostAll(JoinAny, SearchCost(0, |children|, false, true), children, raised)
    case Not(child) => var c := CostOf(child, raised); c.(constructionUpper := Saturated(c.constructionUpper + 2), anchor := false)
    case Boost(_, child) => var c := CostOf(child, raised); c.(constructionUpper := Saturated(c.constructionUpper + 1))
    case Optional(required, optional) =>
      var c := CostOf(required, raised);
      CostAll(JoinOptional, c.(constructionUpper := Saturated(c.constructionUpper + |optional| + 1)), optional, raised)
  }

  function CostAll(join: Join, start: SearchCost, es: seq<Expression>, raised: Option<nat>): SearchCost
    decreases es, 1
  {
    if es == [] then start
    else Joined(join, CostAll(join, start, es[..|es| - 1], raised), CostOf(es[|es| - 1], raised))
  }

  predicate HasExpensiveMode(e: Expression) {
    match e
    case Clause(_, mode, _, _) => mode.Expensive()
    case And(children) => exists i :: 0 <= i < |children| && HasExpensiveMode(children[i])
    case Or(children) => exists i :: 0 <= i < |children| && HasExpensiveMode(children[i])
    case Not(child) => HasExpensiveMode(child)
    case Boost(_, child) => HasExpensiveMode(child)
    case Optional(required, optional) => HasExpensiveMode(required) || exists i :: 0 <= i < |optional| && HasExpensiveMode(optional[i])
  }

  /** Some positive clause bounds the documents that can match. */
  predicate HasPositiveAnchor(e: Expression) {
    match e
    case Clause(_, _, _, _) => true
    case And(children) => exists i :: 0 <= i < |children| && HasPositiveAnchor(children[i])
    case Or(children) => forall i :: 0 <= i < |children| ==> HasPositiveAnchor(children[i])
    case Not(_) => false
    case Boost(_, child) => HasPositiveAnchor(child)
    case Optional(required, _) => HasPositiveAnchor(required)
  }

  /** The accumulated flags are the recursive definitions. */
  lemma {:induction false} CostFlags(e: Expression, raised: Option<nat>)
    ensures CostOf(e, raised).expensive <==> HasExpensiveMode(e)
    ensures CostOf(e, raised).anchor <==> HasPositiveAnchor(e)
    decreases e, 0
  {
    match e
    case Clause(_, _, _, _) =>
    case And(children) => ListFlags(JoinAll, SearchCost(0, |children|, false, false), children, raised);
    case Or(children) => ListFlags(JoinAny, SearchCost(0, |children|, false, true), children, raised);
    case Not(child) => CostFlags(child, raised);
    case Boost(_, child) => CostFlags(child, raised);
    case Optional(required, optional) =>
      CostFlags(required, raised);
      var c := CostOf(required, raised);
      ListFlags(JoinOptional, c.(constructionUpper := Saturated(c.constructionUpper + |optional| + 1)), optional, raised);
  }

  lemma {:induction false} ListFlags(join: Join, start: SearchCost, es: seq<Expression>, raised: Option<nat>)
    ensures var c := CostAll(join, start, es, raised);
      && (c.expensive <==> start.expensive || exists i :: 0 <= i < |es| && HasExpensiveMode(es[i]))
      && (join.JoinAll? ==> (c.anchor <==> start.anchor || exists i :: 0 <= i < |es| && HasPositiveAnchor(es[i])))
      && (join.JoinAny? ==> (c.anchor <==> start.anchor && forall i :: 0 <= i < |es| ==> HasPositiveAnchor(es[i])))
      && (join.JoinOptional? ==> c.anchor == start.anchor)
    decreases es, 1
  {
    if es != [] {
      var front, last := es[..|es| - 1], es[|es| - 1];
      ListFlags(join, start, front, raised);
      CostFlags(last, raised);
      hide HasExpensiveMode, HasPositiveAnchor;
      assert forall i :: 0 <= i < |es| ==> es[i] == if i < |front| then front[i] else last;
    }
  }

  // ---- the scanner ----

  method ScanClause(c: Cursor, budget: SearchStructureBudget, raised: Option<nat>) returns (cost: Option<SearchCost>)
    requires c.Valid() && budget.fields <= MAX_FIELDS
    modifies c, budget
    ensures c.Valid()
    ensures var p := ParseClause(old(c.Rest()), budget.fields, old(Of(budget)));
      p.Some? ==> cost == Some(CostOf(p.value.e, raised)) && c.Rest() == p.value.rest && Of(budget) == p.value.left
  {
    hide IsUtf8, TakeString, TakeHead, TakeNames, TermsUpper, ConstructionUpper;
    cost := None;
    var text := c.ReadString();
    if text.None? { return; }
    var head := c.ReadHead();
    if head.None? { return; }
    var (mode, options, count) := head.value;
    ghost var names := TakeNames(c.Rest(), count);
    if names.Some? { NamesTakeRoom(c.Rest(), count); }
    if count > MAX_FIELDS || count > (|c.bytes| - c.offset) / 4 { return; }
    var ok := budget.Leaf(|text.value|, count);
    if !ok { return; }
    var terms := CountTerms(text.value, raised);
    ok := SkipNames(c, count);
    if !ok { return; }
    cost := Some(SearchCost(terms, ConstructionUpper(terms, count, raised), mode.Expensive(), true));
  }

  method CountTerms(text: Bytes, raised: Option<nat>) returns (terms: nat)
    ensures terms == TermsUpper(text, raised)
  {
    if raised.None? { return 0; }
    var upper := QueryText.AsciiQueryTermUpper(text);
    terms := if upper.Some? then upper.value else USIZE_MAX;
  }

  lemma {:induction false} NamesTakeRoom(s: Bytes, count: nat)
    requires TakeNames(s, count).Some?
    ensures |TakeNames(s, count).value.1| + 4 * count <= |s|
  {
    if count > 0 { NamesTakeRoom(s, count - 1); }
  }

  /** Skips the field names without looking at their text. */
  method SkipNames(c: Cursor, count: nat) returns (ok: bool)
    requires c.Valid()
    modifies c
    ensures c.Valid()
    ensures var t := TakeNames(old(c.Rest()), count); t.Some? ==> ok && c.Rest() == t.value.1
  {
    hide IsUtf8, TakeString;
    ghost var start := c.Rest();
    var k := 0;
    while k < count
      invariant k <= count && c.Valid()
      invariant TakeNames(start, count).Some? ==> TakeNames(start, k).Some? && c.Rest() == TakeNames(start, k).value.1
    {
      if TakeNames(start, k + 1).None? { NamesFail(start, k + 1, count); }
      var name := c.ReadString();
      if name.None? { return false; }
      k := k + 1;
    }
    ok := true;
  }

  /** Whenever the decoder would succeed, the scanner succeeds at the same place with the same budget left, and its
      cost is the cost of the decoded tree. */
  method ScanExpression(c: Cursor, depth: nat, budget: SearchStructureBudget, raised: Option<nat>) returns (cost: Option<SearchCost>)
    requires c.Valid() && budget.fields <= MAX_FIELDS
    modifies c, budget
    ensures c.Valid()
    ensures var p := Parse(old(c.Rest()), depth, budget.fields, old(Of(budget)));
      p.Some? ==> cost == Some(CostOf(p.value.e, raised)) && c.Rest() == p.value.rest && Of(budget) == p.value.left
    decreases MAX_EXPRESSION_DEPTH + 1 - depth, 1
  {
    hide ParseClause, ParseCombination, ParseNot, ParseBoost, ParseOptional, CostOf;
    cost := None;
    if depth > MAX_EXPRESSION_DEPTH { return; }
    var kind := c.ReadByte();
    if kind.None? { return; }
    if kind.value == 0 {
      cost := ScanClause(c, budget, raised);
    } else if kind.value == 1 || kind.value == 2 {
      cost := ScanCombination(c, kind.value == 1, depth, budget, raised);
    } else if kind.value == 3 || kind.value == 4 {
      cost := ScanUnary(c, kind.value == 4, depth, budget, raised);
    } else if kind.value == 5 {
      cost := ScanOptional(c, depth, budget, raised);
    }
  }

  method ScanCombination(c: Cursor, and: bool, depth: nat, budget: SearchStructureBudget, raised: Option<nat>)
    returns (cost: Option<SearchCost>)
    requires c.Valid() && budget.fields <= MAX_FIELDS && depth <= MAX_EXPRESSION_DEPTH
    modifies c, budget
    ensures c.Valid()
    ensures var p := ParseCombination(old(c.Rest()), and, depth, budget.fields, old(Of(budget)));
      p.Some? ==> cost == Some(CostOf(p.value.e, raised)) && c.Rest() == p.value.rest && Of(budget) == p.value.left
    decreases MAX_EXPRESSION_DEPTH + 1 - depth, 0
  {
    hide ParseMany, Take16, CostAll, Joined;
    cost := None;
    var count := c.Read16();
    if count.None? { return; }
    var ok := budget.Children(count.value);
    if !ok { return; }
    cost := ScanChildren(c, count.value, if and then JoinAll else JoinAny, SearchCost(0, count.value, false, !and), depth + 1, budget, raised);
  }

  /** A complement or a boost. */
  method ScanUnary(c: Cursor, boost: bool, depth: nat, budget: SearchStructureBudget, raised: Option<nat>) returns (cost: Option<SearchCost>)
    requires c.Valid() && budget.fields <= MAX_FIELDS && depth <= MAX_EXPRESSION_DEPTH
    modifies c, budget
    ensures c.Valid()
    ensures var p := if boost then ParseBoost(old(c.Rest()), depth, budget.fields, old(Of(budget))) else ParseNot(old(c.Rest()), depth, budget.fields, old(Of(budget)));
      p.Some? ==> cost == Some(CostOf(p.value.e, raised)) && c.Rest() == p.value.rest && Of(budget) == p.value.left
    decreases MAX_EXPRESSION_DEPTH + 1 - depth, 0
  {
    hide Parse, Take32, CostAll, Saturated;
    cost := None;
    if boost {
      var weight := c.Read32();
      if weight.None? || !ValidBoost(weight.value) { return; }
    }
    var ok := budget.Charge(if boost then 1 else 2);
    if !ok { return; }
    var child := ScanExpression(c, depth + 1, budget, raised);
    if child.None? { return; }
    var upper := Saturated(child.value.constructionUpper + if boost then 1 else 2);
    cost := Some(SearchCost(child.value.termsUpper, upper, child.value.expensive, boost && child.value.anchor));
  }

  method ScanOptional(c: Cursor, depth: nat, budget: SearchStructureBudget, raised: Option<nat>) returns (cost: Option<SearchCost>)
    requires c.Valid() && budget.fields <= MAX_FIELDS && depth <= MAX_EXPRESSION_DEPTH
    modifies c, budget
    ensures c.Valid()
    ensures var p := ParseOptional(old(c.Rest()), depth, budget.fields, old(Of(budget)));
      p.Some? ==> cost == Some(CostOf(p.value.e, raised)) && c.Rest() == p.value.rest && Of(budget) == p.value.left
    decreases MAX_EXPRESSION_DEPTH + 1 - depth, 0
  {
    hide Parse, ParseMany, Take16, CostAll, Joined, Saturated;
    cost := None;
    var count := c.Read16();
    if count.None? { return; }
    var ok := budget.Children(count.value);
    if !ok { return; }
    ok := budget.Charge(1);
    if !ok { return; }
    var required := ScanExpression(c, depth + 1, budget, raised);
    if required.None? { return; }
    var start := required.value.(constructionUpper := Saturated(required.value.constructionUpper + count.value + 1));
    cost := ScanChildren(c, count.value, JoinOptional, start, depth + 1, budget, raised);
  }

  method ScanChildren(c: Cursor, count: nat, join: Join, start: SearchCost, depth: nat, budget: SearchStructureBudget, raised: Option<nat>)
    returns (cost: Option<SearchCost>)
    requires c.Valid() && budget.fields <= MAX_FIELDS
    modifies c, budget
    ensures c.Valid()
    ensures var p := ParseMany(old(c.Rest()), count, depth, budget.fields, old(Of(budget)));
      p.Some? ==> cost == Some(CostAll(join, start, p.value.0, raised)) && c.Rest() == p.value.1 && Of(budget) == p.value.2
    decreases MAX_EXPRESSION_DEPTH + 1 - depth, 2
  {
    hide Parse, CostOf, Joined;
    ghost var from, b := c.Rest(), Of(budget);
    var total := start;
    var k := 0;
    while k < count
      invariant k <= count && c.Valid()
      invariant ParseMany(from, count, depth, budget.fields, b).Some? ==>
        var p := ParseMany(from, k, depth, budget.fields, b);
        p.Some? && total == CostAll(join, start, p.value.0, raised) && c.Rest() == p.value.1 && Of(budget) == p.value.2
    {
      if ParseMany(from, k + 1, depth, budget.fields, b).None? { ManyFail(from, k + 1, count, depth, budget.fields, b); }
      var child := ScanExpression(c, depth, budget, raised);
      if child.None? { return None; }
      total := Joined(join, total, child.value);
      k := k + 1;
    }
    cost := Some(total);
  }

  /** One request through all three walks under the same limits: if decoding succeeds, scanning ends at the same byte
      with the same budget and the flags of the decoded tree, and the validator accepts that tree. */
  method WalksAgree(bytes: Bytes, start: nat, clauses: nat, fields: nat, raised: Option<nat>)
    returns (e: Option<Expression>, cost: Option<SearchCost>, decoded: Cursor, scanned: Cursor, accepted: bool)
    requires start <= |bytes| && 0 < clauses <= 4096 && fields <= MAX_FIELDS
    ensures decoded.Valid() && scanned.Valid()
    ensures e.Some? <==> Parse(bytes[start..], 0, fields, Budget(clauses, 0)).Some?
    ensures e.Some? ==>
      && cost.Some? && scanned.Rest() == decoded.Rest() && accepted
      && Encodable(e.value) && bytes[start..] == Encode(e.value) + decoded.Rest()
      && (cost.value.expensive <==> HasExpensiveMode(e.value)) && (cost.value.anchor <==> HasPositiveAnchor(e.value))
  {
    decoded := new Cursor(bytes, start);
    var spending := new SearchStructureBudget(clauses, fields);
    e := DecodeExpression(decoded, 0, spending);
    scanned := new Cursor(bytes, start);
    var costing := new SearchStructureBudget(clauses, fields);
    cost := ScanExpression(scanned, 0, costing, raised);
    assert e.Some? ==> Of(spending) == Of(costing);
    accepted := false;
    if e.Some? {
      AcceptsExactlyEncodings(bytes[start..], clauses, fields, e.value, decoded.Rest());
      CostFlags(e.value, raised);
      accepted := ValidateSearchStructure(e.value, clauses, fields);
    }
  }
}
