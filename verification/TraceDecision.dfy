/**
 When the tracer decides a record, said of the expression and the record's token streams alone; and that what it then says
 is what the expression means.
 */
module TraceDecision {
  import opened Wrappers
  import opened SearchAst
  import opened QueryCompiler
  import opened TraceQuery
  import opened QueryMeaning
  import opened TraceAnalysis
  import TP = TracePlan
  import TR = TraceRecord
  import TPage = TracePage

  // ---- what an expression looks at ----

  /** A clause with these names searches the field. */
  predicate NamesField(e: Engine, names: seq<Text>, field: Text) { if names == [] then IsField(e, field) else field in names }

  /** Some clause of the expression searches the field. */
  predicate Searches(e: Engine, x: Expression, field: Text) {
    match x
    case Clause(_, _, _, names) => NamesField(e, names, field)
    case And(children) => exists i :: 0 <= i < |children| && Searches(e, children[i], field)
    case Or(children) => exists i :: 0 <= i < |children| && Searches(e, children[i], field)
    case Not(child) => Searches(e, child, field)
    case Boost(_, child) => Searches(e, child, field)
    case Optional(required, optional) =>
      Searches(e, required, field) || exists i :: 0 <= i < |optional| && Searches(e, optional[i], field)
  }

  function SearchedFields(e: Engine, x: Expression, record: TR.Record): set<Text> {
    set i | 0 <= i < |record.fields| && Searches(e, x, record.fields[i].0) :: record.fields[i].0
  }

  /** The record's values that the expression looks at, in record order. */
  function SearchedValues(e: Engine, x: Expression, record: TR.Record): seq<TR.Value> {
    TR.Values(record.fields, SearchedFields(e, x, record))
  }

  predicate TooLong(t: TR.Tracer, v: TR.Value) { |t.index(v.text)| > TP.MAX_TRACE_TOKENS_PER_VALUE }

  predicate AnyTooLong(t: TR.Tracer, vs: seq<TR.Value>) { exists k :: 0 <= k < |vs| && TooLong(t, vs[k]) }

  /** The tokens a clause looks at in the values. */
  function ClauseWork(e: Engine, t: TR.Tracer, names: seq<Text>, vs: seq<TR.Value>): nat {
    if vs == [] then 0
    else
      var v := vs[|vs| - 1];
      ClauseWork(e, t, names, vs[..|vs| - 1]) + if NamesField(e, names, v.field) then |t.index(v.text)| else 0
  }

  /** The tokens all clauses of an expression look at, each clause for itself. */
  function Work(e: Engine, t: TR.Tracer, x: Expression, vs: seq<TR.Value>): nat
    decreases x, 0
  {
    match x
    case Clause(_, _, _, names) => ClauseWork(e, t, names, vs)
    case And(children) => WorkAll(e, t, children, vs)
    case Or(children) => WorkAll(e, t, children, vs)
    case Not(child) => Work(e, t, child, vs)
    case Boost(_, child) => Work(e, t, child, vs)
    case Optional(required, optional) => Work(e, t, required, vs) + WorkAll(e, t, optional, vs)
  }

  function WorkAll(e: Engine, t: TR.Tracer, xs: seq<Expression>, vs: seq<TR.Value>): nat
    decreases xs, 1
  {
    if xs == [] then 0 else Work(e, t, xs[0], vs) + WorkAll(e, t, xs[1..], vs)
  }

  /** A record the tracer can decide: of a bare clause, no value is longer than the limit of a value; of any other
      expression, the values fit the record's allowance and all clauses together the work of a page. */
  predicate Decidable(e: Engine, t: TR.Tracer, x: Expression, record: TR.Record) {
    var vs := SearchedValues(e, x, record);
    if x.Clause? then !AnyTooLong(t, vs)
    else ValuesFit(t, {}, vs) && Work(e, t, x, vs) <= TPage.MAX_TRACE_WORK_TOKENS
  }

  // ---- the prepared leaves look at exactly that ----

  predicate InLeaves(leaves: seq<TR.TracedLeaf>, field: Text) { exists i :: 0 <= i < |leaves| && field in leaves[i].fields }

  lemma InLeavesConcat(a: seq<TR.TracedLeaf>, b: seq<TR.TracedLeaf>, field: Text)
    ensures InLeaves(a + b, field) <==> InLeaves(a, field) || InLeaves(b, field)
  {
    if i :| 0 <= i < |a + b| && field in (a + b)[i].fields {
      if i < |a| { assert field in a[i].fields; } else { assert field in b[i - |a|].fields; }
    }
    if i :| 0 <= i < |a| && field in a[i].fields { assert field in (a + b)[i].fields; }
    if i :| 0 <= i < |b| && field in b[i].fields { assert field in (a + b)[|a| + i].fields; }
  }

  lemma LeafLooksAt(e: Engine, plans: Expression -> Option<TP.Plan>, x: Expression, negative: bool, field: Text)
    requires Bag(x) && PrepareLeaf(e, plans, x, negative).Some?
    ensures field in PrepareLeaf(e, plans, x, negative).value.fields <==> NamesField(e, x.fields, field)
  {
    var fields := SelectedFields(e, x.fields).value;
    SelectsExactly(e, x.fields);
    if x.fields != [] {
      if i :| 0 <= i < |x.fields| && x.fields[i] == field { assert fields[i].name == field; }
    }
  }

  /** Nothing prepared loses or gains a field, and the work is that of the clauses. */
  ghost predicate LooksAt(e: Engine, t: TR.Tracer, fields: Text -> bool, work: nat, more: seq<TR.TracedLeaf>, leaves: seq<TR.TracedLeaf>, vs: seq<TR.Value>) {
    && (forall field :: InLeaves(more, field) <==> InLeaves(leaves, field) || fields(field))
    && CostOfLeaves(more, WholeSources(t, {}, vs)) == CostOfLeaves(leaves, WholeSources(t, {}, vs)) + work
  }

  lemma {:induction false} LeafCost(e: Engine, t: TR.Tracer, leaf: TR.TracedLeaf, names: seq<Text>, vs: seq<TR.Value>)
    requires leaf.plan.Any? || leaf.plan.All?
    requires forall field :: field in leaf.fields <==> NamesField(e, names, field)
    ensures CostAll(leaf, WholeSources(t, {}, vs)) == ClauseWork(e, t, names, vs)
  {
    if vs != [] {
      var front, v := vs[..|vs| - 1], vs[|vs| - 1];
      LeafCost(e, t, leaf, names, front);
      var sources := WholeSources(t, {}, vs);
      if TokensOf(t, {}, v) != 0 { assert sources[..|sources| - 1] == WholeSources(t, {}, front); }
    }
  }

  lemma CostAppended(leaves: seq<TR.TracedLeaf>, leaf: TR.TracedLeaf, sources: seq<TR.Source>)
    ensures CostOfLeaves(leaves + [leaf], sources) == CostOfLeaves(leaves, sources) + CostAll(leaf, sources)
  {
    assert (leaves + [leaf])[..|leaves|] == leaves;
  }

  lemma ClauseLooksAt(e: Engine, plans: Expression -> Option<TP.Plan>, t: TR.Tracer, x: Expression, leaves: seq<TR.TracedLeaf>,
                      negative: bool, vs: seq<TR.Value>)
    requires Bag(x) && PrepareLeaf(e, plans, x, negative).Some?
    ensures LooksAt(e, t, field => Searches(e, x, field), ClauseWork(e, t, x.fields, vs),
                    leaves + [PrepareLeaf(e, plans, x, negative).value], leaves, vs)
  {
    var leaf := PrepareLeaf(e, plans, x, negative).value;
    forall field ensures field in leaf.fields <==> NamesField(e, x.fields, field) { LeafLooksAt(e, plans, x, negative, field); }
    LeafCost(e, t, leaf, x.fields, vs);
    CostAppended(leaves, leaf, WholeSources(t, {}, vs));
    forall field ensures InLeaves(leaves + [leaf], field) <==> InLeaves(leaves, field) || NamesField(e, x.fields, field) {
      InLeavesConcat(leaves, [leaf], field);
      assert [leaf][0] == leaf;
    }
    hide InLeaves, NamesField, CostOfLeaves, ClauseWork, WholeSources, PrepareLeaf;
  }

  lemma {:induction false} PreparedLooksAt(e: Engine, plans: Expression -> Option<TP.Plan>, t: TR.Tracer, x: Expression,
                                           leaves: seq<TR.TracedLeaf>, negative: bool, vs: seq<TR.Value>)
    requires Bags(x) && Prepare(e, plans, x, leaves, negative).Some?
    ensures LooksAt(e, t, field => Searches(e, x, field), Work(e, t, x, vs), Prepare(e, plans, x, leaves, negative).value.1, leaves, vs)
    decreases x, 0
  {
    match x
    case Clause(_, _, _, names) =>
      ClauseLooksAt(e, plans, t, x, leaves, negative, vs);
    case And(children) => ListLooksAt(e, plans, t, children, leaves, negative, vs);
    case Or(children) => ListLooksAt(e, plans, t, children, leaves, negative, vs);
    case Not(child) => PreparedLooksAt(e, plans, t, child, leaves, true, vs);
    case Boost(_, child) => PreparedLooksAt(e, plans, t, child, leaves, negative, vs);
    case Optional(required, optional) =>
      PreparedLooksAt(e, plans, t, required, leaves, negative, vs);
      ListLooksAt(e, plans, t, optional, Prepare(e, plans, required, leaves, negative).value.1, negative, vs);
  }

  lemma {:induction false} ListLooksAt(e: Engine, plans: Expression -> Option<TP.Plan>, t: TR.Tracer, xs: seq<Expression>,
                                       leaves: seq<TR.TracedLeaf>, negative: bool, vs: seq<TR.Value>)
    requires (forall i :: 0 <= i < |xs| ==> Bags(xs[i])) && PrepareAll(e, plans, xs, leaves, negative).Some?
    ensures LooksAt(e, t, field => exists i :: 0 <= i < |xs| && Searches(e, xs[i], field), WorkAll(e, t, xs, vs),
                    PrepareAll(e, plans, xs, leaves, negative).value.1, leaves, vs)
    decreases xs, 1
  {
    hide Searches, Bags, InLeaves;
    if xs != [] {
      var middle := Prepare(e, plans, xs[0], leaves, negative).value.1;
      PreparedLooksAt(e, plans, t, xs[0], leaves, negative, vs);
      ListLooksAt(e, plans, t, xs[1..], middle, negative, vs);
      forall field ensures (exists i :: 0 <= i < |xs| && Searches(e, xs[i], field))
          <==> Searches(e, xs[0], field) || exists i :: 0 <= i < |xs[1..]| && Searches(e, xs[1..][i], field) {
        if i :| 0 <= i < |xs| && Searches(e, xs[i], field) { if i > 0 { assert xs[1..][i - 1] == xs[i]; } }
      }
    }
  }

  // ---- what can be traced at all ----

  /** Some clause of the expression searches a field. */
  predicate SearchesAny(e: Engine, x: Expression) {
    match x
    case Clause(_, _, _, names) => names != [] || e.fields != []
    case And(children) => exists i :: 0 <= i < |children| && SearchesAny(e, children[i])
    case Or(children) => exists i :: 0 <= i < |children| && SearchesAny(e, children[i])
    case Not(child) => SearchesAny(e, child)
    case Boost(_, child) => SearchesAny(e, child)
    case Optional(required, optional) =>
      SearchesAny(e, required) || exists i :: 0 <= i < |optional| && SearchesAny(e, optional[i])
  }

  lemma LeafPreparedExactly(e: Engine, plans: Expression -> Option<TP.Plan>, x: Expression, negative: bool)
    requires Bag(x)
    ensures PrepareLeaf(e, plans, x, negative).Some? <==> LeavesFit(e, x) && (e.surfaceTerms || !SearchesAny(e, x))
  {
    SelectsExactly(e, x.fields);
  }

  /** An expression can be traced iff its clauses name known fields, have no more distinct terms than allowed, and the
      fields they search carry surface terms. */
  lemma {:induction false} PreparedExactly(e: Engine, plans: Expression -> Option<TP.Plan>, x: Expression,
                                           leaves: seq<TR.TracedLeaf>, negative: bool)
    requires Bags(x)
    ensures Prepare(e, plans, x, leaves, negative).Some? <==> LeavesFit(e, x) && (e.surfaceTerms || !SearchesAny(e, x))
    decreases x, 0
  {
    hide PrepareLeaf;
    match x
    case Clause(_, _, _, _) => LeafPreparedExactly(e, plans, x, negative);
    case And(children) => ListPreparedExactly(e, plans, children, leaves, negative);
    case Or(children) => ListPreparedExactly(e, plans, children, leaves, negative);
    case Not(child) => PreparedExactly(e, plans, child, leaves, true);
    case Boost(_, child) => PreparedExactly(e, plans, child, leaves, negative);
    case Optional(required, optional) =>
      PreparedExactly(e, plans, required, leaves, negative);
      if Prepare(e, plans, required, leaves, negative).Some? {
        ListPreparedExactly(e, plans, optional, Prepare(e, plans, required, leaves, negative).value.1, negative);
      }
  }

  lemma {:induction false} ListPreparedExactly(e: Engine, plans: Expression -> Option<TP.Plan>, xs: seq<Expression>,
                                               leaves: seq<TR.TracedLeaf>, negative: bool)
    requires forall i :: 0 <= i < |xs| ==> Bags(xs[i])
    ensures PrepareAll(e, plans, xs, leaves, negative).Some? <==>
      (forall i :: 0 <= i < |xs| ==> LeavesFit(e, xs[i])) && (e.surfaceTerms || !exists i :: 0 <= i < |xs| && SearchesAny(e, xs[i]))
    decreases xs, 1
  {
    hide LeavesFit, SearchesAny, Prepare, Bags;
    if xs != [] {
      PreparedExactly(e, plans, xs[0], leaves, negative);
      var first := Prepare(e, plans, xs[0], leaves, negative);
      forall i | 0 < i < |xs| ensures xs[i] == xs[1..][i - 1] {}
      if first.Some? { ListPreparedExactly(e, plans, xs[1..], first.value.1, negative); }
    }
  }

  // ---- when a record is decided ----

  lemma {:induction false} ValuesAgree(fields: seq<(Text, seq<Text>)>, a: set<Text>, b: set<Text>)
    requires forall i :: 0 <= i < |fields| ==> (fields[i].0 in a <==> fields[i].0 in b)
    ensures TR.Values(fields, a) == TR.Values(fields, b)
  {
    if fields != [] { ValuesAgree(fields[..|fields| - 1], a, b); }
  }

  lemma {:induction false} ValuesAreSelected(fields: seq<(Text, seq<Text>)>, selected: set<Text>)
    ensures forall k :: 0 <= k < |TR.Values(fields, selected)| ==> TR.Values(fields, selected)[k].field in selected
  {
    if fields != [] { ValuesAreSelected(fields[..|fields| - 1], selected); }
  }

  lemma BagsNeedNoSurface(leaves: seq<TR.TracedLeaf>)
    requires BagLeaves(leaves)
    ensures TPage.SurfaceFieldsOf(leaves) == {}
  {
  }

  /** Over bags of terms the panel of a record is known iff the record fits and the work suffices. */
  lemma PanelKnownExactly(t: TR.Tracer, leaves: seq<TR.TracedLeaf>, vs: seq<TR.Value>, work: nat)
    requires BagLeaves(leaves) && forall k :: 0 <= k < |vs| ==> InLeaves(leaves, vs[k].field)
    ensures TR.Judge(t, leaves, TR.Analyze(t, {}, vs), work).known
      <==> ValuesFit(t, {}, vs) && CostOfLeaves(leaves, WholeSources(t, {}, vs)) <= work
  {
    var a := TR.Analyze(t, {}, vs);
    JudgeExactly(t, leaves, a, work);
    LeftOutExactly(t, vs);
    hide TR.Analyze, TR.Judge, ValuesFit, CostOfLeaves, WholeSources;
    if ValuesFit(t, {}, vs) {
      AnalyzedWhole(t, {}, vs);
      NoneLeftOut(t, vs);
      forall i | 0 <= i < |leaves| ensures Undisturbed(leaves[i], a) {
        WholeUndisturbed(t, leaves[i], a);
      }
    } else {
      var field :| LeftOut(a, field);
      LeftOutOfValues(t, vs, field);
      var k :| 0 <= k < |vs| && vs[k].field == field;
      var i :| 0 <= i < |leaves| && field in leaves[i].fields;
      LeftOutDisturbs(leaves[i], a, field);
    }
  }

  lemma WholeUndisturbed(t: TR.Tracer, leaf: TR.TracedLeaf, a: TR.Analysis)
    requires leaf.plan.Any? || leaf.plan.All?
    requires a.missing == {} && forall i :: 0 <= i < |a.sources| ==> !a.sources[i].analyzedTruncated
    ensures Undisturbed(leaf, a)
  {
  }

  lemma LeftOutDisturbs(leaf: TR.TracedLeaf, a: TR.Analysis, field: Text)
    requires field in leaf.fields && LeftOut(a, field)
    ensures !Undisturbed(leaf, a)
  {
    if field !in a.missing {
      var i :| 0 <= i < |a.sources| && a.sources[i].field == field && a.sources[i].analyzedTruncated;
      assert TR.Cut(leaf, a.sources[i]);
      assert SeesCut(leaf, a.sources);
    }
  }

  lemma SummaryCutStep(t: TR.Tracer, plan: TP.Plan, vs: seq<TR.Value>)
    requires vs != []
    ensures TPage.Summarize(t, plan, vs).cut == (TPage.Summarize(t, plan, vs[..|vs| - 1]).cut || TPage.ValueCut(t, plan, vs[|vs| - 1]))
  {
    hide TPage.ValueEvents, TPage.ValueCut;
  }

  lemma NothingCut(t: TR.Tracer, plan: TP.Plan)
    ensures !TPage.Summarize(t, plan, []).cut
  {
  }

  lemma CutIsTooLong(t: TR.Tracer, plan: TP.Plan, v: TR.Value)
    requires plan.Any? || plan.All?
    ensures TPage.ValueCut(t, plan, v) == TooLong(t, v)
  {
  }

  lemma {:induction false} SummaryCutExactly(t: TR.Tracer, plan: TP.Plan, vs: seq<TR.Value>)
    requires plan.Any? || plan.All?
    ensures TPage.Summarize(t, plan, vs).cut <==> AnyTooLong(t, vs)
  {
    hide TPage.Summarize, TPage.ValueCut, TooLong;
    if vs == [] {
      NothingCut(t, plan);
    } else {
      var front := vs[..|vs| - 1];
      SummaryCutExactly(t, plan, front);
      SummaryCutStep(t, plan, vs);
      CutIsTooLong(t, plan, vs[|vs| - 1]);
      if k :| 0 <= k < |front| && TooLong(t, front[k]) { assert TooLong(t, vs[k]); }
    }
  }

  lemma LeafIsBag(e: Engine, plans: Expression -> Option<TP.Plan>, x: Expression)
    requires Bag(x) && PrepareLeaf(e, plans, x, false).Some?
    ensures var plan := PrepareLeaf(e, plans, x, false).value.plan; (plan.Any? || plan.All?) && plan.DistinctTerms()
  {
  }

  lemma ClauseDecidedExactly(e: Engine, plans: Expression -> Option<TP.Plan>, t: TR.Tracer, x: Expression, record: TR.Record)
    requires Bag(x) && PrepareLeaf(e, plans, x, false).Some?
    ensures var leaf := PrepareLeaf(e, plans, x, false).value;
      && leaf.plan.DistinctTerms()
      && (TPage.Judgement(t, TPage.ClauseSearch(leaf.plan, leaf.fields), record).1 <==> Decidable(e, t, x, record))
  {
    hide PrepareLeaf, TPage.Summarize, NamesField;
    LeafIsBag(e, plans, x);
    var leaf := PrepareLeaf(e, plans, x, false).value;
    forall field ensures field in leaf.fields <==> Searches(e, x, field) { LeafLooksAt(e, plans, x, false, field); }
    ValuesAgree(record.fields, leaf.fields, SearchedFields(e, x, record));
    SummaryCutExactly(t, leaf.plan, TR.Values(record.fields, leaf.fields));
  }

  lemma ExpressionDecidedExactly(e: Engine, plans: Expression -> Option<TP.Plan>, t: TR.Tracer, x: Expression, record: TR.Record)
    requires Bags(x) && !x.Clause? && Prepare(e, plans, x, [], false).Some? && BagLeaves(Prepare(e, plans, x, [], false).value.1)
    requires TPage.ExpressionSearch(Prepare(e, plans, x, [], false).value.0, Prepare(e, plans, x, [], false).value.1).Valid()
    ensures var (traced, leaves) := Prepare(e, plans, x, [], false).value;
      TPage.Judgement(t, TPage.ExpressionSearch(traced, leaves), record).1 <==> Decidable(e, t, x, record)
  {
    var (traced, leaves) := Prepare(e, plans, x, [], false).value;
    var vs := SearchedValues(e, x, record);
    PreparedLooksAt(e, plans, t, x, [], false, vs);
    hide Prepare, Searches, Work, TR.Judge;
    BagsNeedNoSurface(leaves);
    forall i | 0 <= i < |record.fields| ensures record.fields[i].0 in TPage.FieldsOf(leaves) <==> Searches(e, x, record.fields[i].0) {
      assert !InLeaves([], record.fields[i].0);
    }
    ValuesAgree(record.fields, TPage.FieldsOf(leaves), SearchedFields(e, x, record));
    ValuesAreSelected(record.fields, TPage.FieldsOf(leaves));
    PanelKnownExactly(t, leaves, vs, TPage.MAX_TRACE_WORK_TOKENS);
  }

  /** The tracer decides exactly the decidable records, and says of them exactly whether the expression means the document
      with the record's values: nothing within the allowances is ever left open. */
  lemma TraceDecidesExactly(e: Engine, plans: Expression -> Option<TP.Plan>, t: TR.Tracer, x: Expression, record: TR.Record)
    requires TR.Lawful(t) && Bags(x) && e.surfaceTerms && CompileRequest(e, x).Some?
    ensures var search := PrepareRequest(e, plans, x);
      search.Some? && search.value.Valid() &&
      var (verdict, known) := TPage.Judgement(t, search.value, record);
      && (known <==> Decidable(e, t, x, record))
      && (Decidable(e, t, x, record) ==> verdict == Some(Means(e, x, DocOf(t, record))))
  {
    TraceAgreesWithQuery(e, plans, t, x, record);
    TraceMeans(e, plans, t, x, record);
    hide TPage.Judgement, Means, DocOf, Decidable, CompileRequest;
    if x.Clause? {
      ClauseDecidedExactly(e, plans, t, x, record);
    } else {
      PreparedBags(e, plans, x);
      ExpressionDecidedExactly(e, plans, t, x, record);
    }
  }

  lemma PreparedBags(e: Engine, plans: Expression -> Option<TP.Plan>, x: Expression)
    requires Bags(x) && e.surfaceTerms && CompileRequest(e, x).Some?
    ensures Prepare(e, plans, x, [], false).Some? && BagLeaves(Prepare(e, plans, x, [], false).value.1)
  {
    if x.Boost? && Bag(x.child) {
      var fields := SelectedFields(e, x.child.fields).value;
      LeafAgrees(e, plans, x.child, false, Reweighted(e, fields, x.boost), Doc([], {}));
    } else {
      Preparable(e, plans, x, [], false);
    }
  }

  /** In numbers: a record with at most 4096 searched values of at most 262144 tokens each, fewer than 524288 tokens in all
      and at most 8388608 to look at over all clauses is decided, and its verdict is what the expression means. */
  lemma SmallRecordsAreDecided(e: Engine, plans: Expression -> Option<TP.Plan>, t: TR.Tracer, x: Expression, record: TR.Record)
    requires TR.Lawful(t) && Bags(x) && e.surfaceTerms && CompileRequest(e, x).Some?
    requires var vs := SearchedValues(e, x, record);
      && |vs| <= 4096 && (forall k :: 0 <= k < |vs| ==> |t.index(vs[k].text)| <= 262144)
      && AllTokens(t, {}, vs) < 524288 && Work(e, t, x, vs) <= 8388608
    ensures var search := PrepareRequest(e, plans, x);
      search.Some? && search.value.Valid()
      && TPage.Judgement(t, search.value, record) == (Some(Means(e, x, DocOf(t, record))), true)
  {
    var vs := SearchedValues(e, x, record);
    SmallFits(t, {}, vs);
    assert !AnyTooLong(t, vs);
    TraceDecidesExactly(e, plans, t, x, record);
    hide TPage.Judgement, Means, DocOf;
  }

  /** The j-th value of the record's k-th field entry belongs to the field and has a token of that text. */
  ghost predicate HoldsAt(t: TR.Tracer, record: TR.Record, field: Text, term: Text, k: nat, j: nat) {
    && k < |record.fields| && j < |record.fields[k].1| && record.fields[k].0 == field
    && exists i :: 0 <= i < |t.index(record.fields[k].1[j])| && t.index(record.fields[k].1[j])[i].text == term
  }

  /** A term is in a field of the record's document iff some value of that field has a token of that text. */
  lemma DocumentHolds(t: TR.Tracer, record: TR.Record, field: Text, term: Text)
    ensures (field, term) in DocOf(t, record).terms <==> exists k: nat, j: nat :: HoldsAt(t, record, field, term, k, j)
  {
    var vs := TR.Values(record.fields, FieldNames(record));
    if m :| 0 <= m < |vs| && vs[m].field == field && HasToken(t.index(vs[m].text), term) {
      ValuesAreTheRecords(record.fields, FieldNames(record), vs[m]);
      assert FromRecord(record.fields, vs[m]);
      var k :| 0 <= k < |record.fields| && record.fields[k].0 == field && vs[m].index < |record.fields[k].1|
        && record.fields[k].1[vs[m].index] == vs[m].text;
      assert HoldsAt(t, record, field, term, k, vs[m].index);
    }
    if k: nat, j: nat :| HoldsAt(t, record, field, term, k, j) {
      var v := TR.Value(field, j, record.fields[k].1[j]);
      assert record.fields[k].0 in FieldNames(record) && FromRecord(record.fields, v);
      ValuesAreTheRecords(record.fields, FieldNames(record), v);
      assert v in vs && HasToken(t.index(v.text), term);
    }
  }
}
