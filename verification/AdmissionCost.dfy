/** What the scan's cost is, in closed form, and exactly which requests it leaves on the ordinary lane. */
module AdmissionCost {
  import opened Wrappers
  import opened SearchAst
  import opened PackedSearch
  import opened Admission
  import QueryText

  /** Every clause's text is ASCII. */
  predicate AllAscii(x: Expression) {
    match x
    case Clause(text, _, _, _) => QueryText.IsAscii(text)
    case And(children) => forall i :: 0 <= i < |children| ==> AllAscii(children[i])
    case Or(children) => forall i :: 0 <= i < |children| ==> AllAscii(children[i])
    case Not(child) => AllAscii(child)
    case Boost(_, child) => AllAscii(child)
    case Optional(required, optional) => AllAscii(required) && forall i :: 0 <= i < |optional| ==> AllAscii(optional[i])
  }

  /** No clause's text has more than n runs. */
  predicate RunsWithin(x: Expression, n: nat) {
    match x
    case Clause(text, _, _, _) => |QueryText.Runs(text)| <= n
    case And(children) => forall i :: 0 <= i < |children| ==> RunsWithin(children[i], n)
    case Or(children) => forall i :: 0 <= i < |children| ==> RunsWithin(children[i], n)
    case Not(child) => RunsWithin(child, n)
    case Boost(_, child) => RunsWithin(child, n)
    case Optional(required, optional) => RunsWithin(required, n) && forall i :: 0 <= i < |optional| ==> RunsWithin(optional[i], n)
  }

  /** The structure's charge, and for every clause its runs times the fields it searches. */
  function ScanSize(x: Expression, fields: nat): nat
    decreases x, 0
  {
    match x
    case Clause(text, _, _, names) => |QueryText.Runs(text)| * (if names == [] then fields else |names|)
    case And(children) => |children| + ScanSizeAll(children, fields)
    case Or(children) => |children| + ScanSizeAll(children, fields)
    case Not(child) => 2 + ScanSize(child, fields)
    case Boost(_, child) => 1 + ScanSize(child, fields)
    case Optional(required, optional) => |optional| + 1 + ScanSize(required, fields) + ScanSizeAll(optional, fields)
  }

  function ScanSizeAll(xs: seq<Expression>, fields: nat): nat
    decreases xs, 1
  {
    if xs == [] then 0 else ScanSizeAll(xs[..|xs| - 1], fields) + ScanSize(xs[|xs| - 1], fields)
  }

  /** The scan's bound on terms is within a limit iff every text is ASCII and has no more runs than that. */
  lemma {:induction false} TermsExactly(x: Expression, fields: nat, n: nat)
    requires n < USIZE_MAX
    ensures CostOf(x, Some(fields)).termsUpper <= n <==> AllAscii(x) && RunsWithin(x, n)
    decreases x, 0
  {
    var raised := Some(fields);
    match x
    case Clause(_, _, _, _) =>
    case And(children) => ListTerms(JoinAll, SearchCost(0, |children|, false, false), children, fields, n);
    case Or(children) => ListTerms(JoinAny, SearchCost(0, |children|, false, true), children, fields, n);
    case Not(child) => TermsExactly(child, fields, n);
    case Boost(_, child) => TermsExactly(child, fields, n);
    case Optional(required, optional) =>
      TermsExactly(required, fields, n);
      var c := CostOf(required, raised);
      ListTerms(JoinOptional, c.(constructionUpper := Saturated(c.constructionUpper + |optional| + 1)), optional, fields, n);
  }

  lemma {:induction false} ListTerms(join: Join, start: SearchCost, xs: seq<Expression>, fields: nat, n: nat)
    requires n < USIZE_MAX
    ensures CostAll(join, start, xs, Some(fields)).termsUpper <= n
      <==> start.termsUpper <= n && forall i :: 0 <= i < |xs| ==> AllAscii(xs[i]) && RunsWithin(xs[i], n)
    decreases xs, 1
  {
    if xs != [] {
      var front, last := xs[..|xs| - 1], xs[|xs| - 1];
      ListTerms(join, start, front, fields, n);
      TermsExactly(last, fields, n);
      hide AllAscii, RunsWithin;
      assert forall i :: 0 <= i < |xs| ==> xs[i] == if i < |front| then front[i] else last;
    }
  }

  /** A number counted as far as the machine counts. */
  predicate CountedAs(counted: nat, n: nat) { if n < USIZE_MAX then counted == n else counted >= USIZE_MAX }

  /** Over ASCII texts the scan's bound on clauses is the size, as far as it counts. */
  lemma {:induction false} SizeExactly(x: Expression, fields: nat)
    requires AllAscii(x)
    ensures CountedAs(CostOf(x, Some(fields)).constructionUpper, ScanSize(x, fields))
    decreases x, 0
  {
    var raised := Some(fields);
    match x
    case Clause(_, _, _, _) =>
    case And(children) => ListSize(JoinAll, SearchCost(0, |children|, false, false), children, fields, |children|);
    case Or(children) => ListSize(JoinAny, SearchCost(0, |children|, false, true), children, fields, |children|);
    case Not(child) => SizeExactly(child, fields);
    case Boost(_, child) => SizeExactly(child, fields);
    case Optional(required, optional) =>
      SizeExactly(required, fields);
      var c := CostOf(required, raised);
      ListSize(JoinOptional, c.(constructionUpper := Saturated(c.constructionUpper + |optional| + 1)), optional, fields,
               ScanSize(required, fields) + |optional| + 1);
  }

  lemma {:induction false} ListSize(join: Join, start: SearchCost, xs: seq<Expression>, fields: nat, size: nat)
    requires (forall i :: 0 <= i < |xs| ==> AllAscii(xs[i])) && CountedAs(start.constructionUpper, size)
    ensures CountedAs(CostAll(join, start, xs, Some(fields)).constructionUpper, size + ScanSizeAll(xs, fields))
    decreases xs, 1
  {
    if xs != [] {
      var front, last := xs[..|xs| - 1], xs[|xs| - 1];
      hide AllAscii;
      ListSize(join, start, front, fields, size);
      SizeExactly(last, fields);
    }
  }

  /** Which requests the expression alone leaves on the ordinary lane: those of bags of terms with a positive anchor and,
      under a profile above the standard limits, of ASCII texts of at most 64 runs each whose size is at most 256. */
  lemma OrdinaryExactly(x: Expression, maxTerms: nat, maxClauses: nat, fields: nat)
    ensures var raised := RaisedProfile(maxTerms, maxClauses, fields);
      !Expensive(CostOf(x, raised), raised, false) <==>
        && !HasExpensiveMode(x) && HasPositiveAnchor(x)
        && (maxTerms > 64 || maxClauses > 256 ==> AllAscii(x) && RunsWithin(x, 64) && ScanSize(x, fields) <= 256)
  {
    var raised := RaisedProfile(maxTerms, maxClauses, fields);
    CostFlags(x, raised);
    if raised.Some? {
      TermsExactly(x, fields, 64);
      if AllAscii(x) { SizeExactly(x, fields); }
    }
  }
}
