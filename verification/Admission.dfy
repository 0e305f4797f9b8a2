/** Which lane a search is admitted to: the byte scan's cost bounds what the compiler builds. */
module Admission {
  import opened Wrappers
  import opened SearchAst
  import opened Codec
  import opened PackedSearch
  import QueryText
  import opened QueryCompiler

  const MAX_QUERY_TERMS := 64
  const MAX_QUERY_CLAUSES := 256

  /** The query analyzer's filters only drop or rename the tokenizer's tokens. */
  ghost predicate OnlyDrops(e: Engine) {
    forall text :: QueryText.IsAscii(text) ==> |e.analyzer(text)| <= |QueryText.Runs(text)|
  }

  /** Every leaf produces at most n distinct terms. */
  predicate LeafTermsWithin(e: Engine, x: Expression, n: nat) {
    match x
    case Clause(text, _, _, _) => |Deduplicated(e.analyzer(text))| <= n
    case And(children) => forall i :: 0 <= i < |children| ==> LeafTermsWithin(e, children[i], n)
    case Or(children) => forall i :: 0 <= i < |children| ==> LeafTermsWithin(e, children[i], n)
    case Not(child) => LeafTermsWithin(e, child, n)
    case Boost(_, child) => LeafTermsWithin(e, child, n)
    case Optional(required, optional) =>
      LeafTermsWithin(e, required, n) && forall i :: 0 <= i < |optional| ==> LeafTermsWithin(e, optional[i], n)
  }

  // ---- the limits the engine enforces itself ----

  /** A compiled expression stays within the engine's clause limit, unless it is a bare leaf of another mode. */
  lemma {:induction false} CompiledWithinLimits(e: Engine, x: Expression)
    requires Bags(x) && Compile(e, x).Some?
    ensures Compile(e, x).value.clauses <= e.maxClauses || (x.And? && x.children == []) || (x.Or? && x.children == [])
    ensures LeafTermsWithin(e, x, e.maxTerms)
    decreases x, 0
  {
    match x
    case Clause(_, _, _, _) =>
    case And(children) => ListWithinLimits(e, children, |children|);
    case Or(children) => ListWithinLimits(e, children, |children|);
    case Not(child) => CompiledWithinLimits(e, child);
    case Boost(_, child) => CompiledWithinLimits(e, child);
    case Optional(required, optional) =>
      CompiledWithinLimits(e, required);
      ListWithinLimits(e, optional, |optional| + 1 + Compile(e, required).value.clauses);
  }

  lemma {:induction false} ListWithinLimits(e: Engine, xs: seq<Expression>, start: nat)
    requires (forall i :: 0 <= i < |xs| ==> Bags(xs[i])) && CompileList(e, xs, start).Some?
    ensures CompileList(e, xs, start).value.1 <= e.maxClauses || (xs == [] && CompileList(e, xs, start).value.1 == start)
    ensures forall i :: 0 <= i < |xs| ==> LeafTermsWithin(e, xs[i], e.maxTerms)
    decreases xs, 1
  {
    if xs != [] {
      var front, last := xs[..|xs| - 1], xs[|xs| - 1];
      ListWithinLimits(e, front, start);
      CompiledWithinLimits(e, last);
      assert forall i :: 0 <= i < |xs| ==> xs[i] == if i < |front| then front[i] else last;
    }
  }

  // ---- the scan's cost against what is compiled ----

  predicate Bounds(upper: nat, n: nat) { n <= upper || upper == USIZE_MAX }

  lemma Products(terms: nat, upper: nat, k: nat)
    ensures terms <= upper ==> terms * k <= upper * k
    ensures k > 0 ==> USIZE_MAX * k >= USIZE_MAX
  {
  }

  lemma LeafBounded(e: Engine, x: Expression)
    requires OnlyDrops(e) && Bag(x) && Compile(e, x).Some?
    ensures var c := CostOf(x, Some(|e.fields|));
      Bounds(c.constructionUpper, Compile(e, x).value.clauses) && Bounds(c.termsUpper, |Deduplicated(e.analyzer(x.text))|)
  {
    var terms, upper := |Deduplicated(e.analyzer(x.text))|, TermsUpper(x.text, Some(|e.fields|));
    var k := if |x.fields| == 0 then |e.fields| else |x.fields|;
    assert Bounds(upper, terms);
    assert |SelectedFields(e, x.fields).value| == k;
    assert Compile(e, x).value.clauses == terms * k;
    Products(terms, upper, k);
  }

  lemma {:induction false} CostBounds(e: Engine, x: Expression)
    requires OnlyDrops(e) && Bags(x) && Compile(e, x).Some?
    ensures var c := CostOf(x, Some(|e.fields|));
      && Bounds(c.constructionUpper, Compile(e, x).value.clauses)
      && (c.termsUpper >= USIZE_MAX || LeafTermsWithin(e, x, c.termsUpper))
    decreases x, 0
  {
    var raised := Some(|e.fields|);
    match x
    case Clause(_, _, _, _) => LeafBounded(e, x);
    case And(children) => ListBounds(e, JoinAll, SearchCost(0, |children|, false, false), children, |children|);
    case Or(children) => ListBounds(e, JoinAny, SearchCost(0, |children|, false, true), children, |children|);
    case Not(child) => CostBounds(e, child);
    case Boost(_, child) => CostBounds(e, child);
    case Optional(required, optional) =>
      CostBounds(e, required);
      var c := CostOf(required, raised);
      var start := c.(constructionUpper := Saturated(c.constructionUpper + |optional| + 1));
      ListBounds(e, JoinOptional, start, optional, |optional| + 1 + Compile(e, required).value.clauses);
      var all := CostAll(JoinOptional, start, optional, raised);
      if all.termsUpper < USIZE_MAX { MoreTermsAllowed(e, required, c.termsUpper, all.termsUpper); }
  }

  lemma {:induction false} ListBounds(e: Engine, join: Join, start: SearchCost, xs: seq<Expression>, clauses: nat)
    requires OnlyDrops(e) && (forall i :: 0 <= i < |xs| ==> Bags(xs[i])) && CompileList(e, xs, clauses).Some?
    requires Bounds(start.constructionUpper, clauses)
    ensures var c := CostAll(join, start, xs, Some(|e.fields|));
      && Bounds(c.constructionUpper, CompileList(e, xs, clauses).value.1)
      && c.termsUpper >= start.termsUpper
      && (c.termsUpper >= USIZE_MAX || forall i :: 0 <= i < |xs| ==> LeafTermsWithin(e, xs[i], c.termsUpper))
    decreases xs, 1
  {
    if xs != [] {
      var front, last := xs[..|xs| - 1], xs[|xs| - 1];
      ListBounds(e, join, start, front, clauses);
      CostBounds(e, last);
      var before, c := CostAll(join, start, front, Some(|e.fields|)), CostAll(join, start, xs, Some(|e.fields|));
      if c.termsUpper < USIZE_MAX {
        forall i | 0 <= i < |xs| ensures LeafTermsWithin(e, xs[i], c.termsUpper) {
          if i < |front| {
            assert xs[i] == front[i];
            MoreTermsAllowed(e, xs[i], before.termsUpper, c.termsUpper);
          } else {
            MoreTermsAllowed(e, last, CostOf(last, Some(|e.fields|)).termsUpper, c.termsUpper);
          }
        }
      }
    }
  }

  lemma {:induction false} MoreTermsAllowed(e: Engine, x: Expression, n: nat, m: nat)
    requires n <= m && LeafTermsWithin(e, x, n)
    ensures LeafTermsWithin(e, x, m)
  {
    match x
    case Clause(_, _, _, _) =>
    case And(children) => forall i | 0 <= i < |children| ensures LeafTermsWithin(e, children[i], m) { MoreTermsAllowed(e, children[i], n, m); }
    case Or(children) => forall i | 0 <= i < |children| ensures LeafTermsWithin(e, children[i], m) { MoreTermsAllowed(e, children[i], n, m); }
    case Not(child) => MoreTermsAllowed(e, child, n, m);
    case Boost(_, child) => MoreTermsAllowed(e, child, n, m);
    case Optional(required, optional) =>
      MoreTermsAllowed(e, required, n, m);
      forall i | 0 <= i < |optional| ensures LeafTermsWithin(e, optional[i], m) { MoreTermsAllowed(e, optional[i], n, m); }
  }

  /** Folding a root boost into the weights changes neither whether the request compiles nor its clause count. */
  lemma RootBoostCounts(e: Engine, x: Expression)
    requires CompileRequest(e, x).Some?
    ensures Compile(e, x).Some? && Compile(e, x).value.clauses == CompileRequest(e, x).value.clauses
  {
  }

  lemma {:induction false} CheapModesAreBags(x: Expression)
    ensures !HasExpensiveMode(x) <==> Bags(x)
  {
    match x
    case Clause(_, _, _, _) =>
    case And(children) => forall i | 0 <= i < |children| ensures !HasExpensiveMode(children[i]) <==> Bags(children[i]) { CheapModesAreBags(children[i]); }
    case Or(children) => forall i | 0 <= i < |children| ensures !HasExpensiveMode(children[i]) <==> Bags(children[i]) { CheapModesAreBags(children[i]); }
    case Not(child) => CheapModesAreBags(child);
    case Boost(_, child) => CheapModesAreBags(child);
    case Optional(required, optional) =>
      CheapModesAreBags(required);
      forall i | 0 <= i < |optional| ensures !HasExpensiveMode(optional[i]) <==> Bags(optional[i]) { CheapModesAreBags(optional[i]); }
  }

  // ---- classification ----

  /** Only a profile above the standard limits needs leaves to be costed. */
  function RaisedProfile(maxTerms: nat, maxClauses: nat, fields: nat): Option<nat> {
    if maxTerms > MAX_QUERY_TERMS || maxClauses > MAX_QUERY_CLAUSES then Some(fields) else None
  }

  /** The request line of the lane decision; the filter, the catalog and the paging flags contribute elsewhere. */
  predicate Expensive(cost: SearchCost, raised: Option<nat>, elsewhere: bool) {
    || elsewhere
    || (raised.Some? && (cost.termsUpper > MAX_QUERY_TERMS || cost.constructionUpper > MAX_QUERY_CLAUSES))
    || cost.expensive
    || !cost.anchor
  }

  method ClassifySearch(bytes: Bytes, start: nat, maxTerms: nat, maxClauses: nat, fields: nat, elsewhere: Option<bool>) returns (r: Option<bool>)
    requires start <= |bytes| && fields <= MAX_FIELDS
    ensures !(0 < maxTerms <= 1024 && 0 < maxClauses <= 4096) ==> r == None
    ensures var p := Parse(bytes[start..], 0, fields, Budget(maxClauses, 0));
      0 < maxTerms <= 1024 && 0 < maxClauses <= 4096 && p.Some? && elsewhere.Some? ==>
        var raised := RaisedProfile(maxTerms, maxClauses, fields);
        r == Some(Expensive(CostOf(p.value.e, raised), raised, elsewhere.value))
  {
    if maxTerms == 0 || maxTerms > 1024 || maxClauses == 0 || maxClauses > 4096 { return None; }
    var raised := RaisedProfile(maxTerms, maxClauses, fields);
    var c := new Cursor(bytes, start);
    var budget := new SearchStructureBudget(maxClauses, fields);
    var cost := ScanExpression(c, 0, budget, raised);
    r := if cost.None? || elsewhere.None? then None else Some(Expensive(cost.value, raised, elsewhere.value));
  }

  /** Ordinary admission is sound for every configuration: a request the scan did not call expensive, if it compiles at
      all, has at most 256 compiled clauses and 64 terms in a leaf, uses only bags of terms and has a positive anchor. */
  lemma OrdinaryLaneIsSound(e: Engine, x: Expression)
    requires OnlyDrops(e)
    requires var raised := RaisedProfile(e.maxTerms, e.maxClauses, |e.fields|); !Expensive(CostOf(x, raised), raised, false)
    requires CompileRequest(e, x).Some?
    ensures CompileRequest(e, x).value.clauses <= MAX_QUERY_CLAUSES
    ensures LeafTermsWithin(e, x, MAX_QUERY_TERMS)
    ensures Bags(x) && HasPositiveAnchor(x)
  {
    var raised := RaisedProfile(e.maxTerms, e.maxClauses, |e.fields|);
    CostFlags(x, raised);
    CheapModesAreBags(x);
    RootBoostCounts(e, x);
    if raised.Some? {
      CostBounds(e, x);
      MoreTermsAllowed(e, x, CostOf(x, raised).termsUpper, MAX_QUERY_TERMS);
    } else {
      CompiledWithinLimits(e, x);
      MoreTermsAllowed(e, x, e.maxTerms, MAX_QUERY_TERMS);
    }
  }
}
