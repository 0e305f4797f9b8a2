/**
 What an expression means, said of the documents' terms alone, and which expressions compile, said of the expression alone:
 the compiler meets both, and so does the tracer.
 */
module QueryMeaning {
  import opened Wrappers
  import opened SearchAst
  import opened QueryCompiler
  import opened TraceQuery
  import TP = TracePlan
  import TR = TraceRecord
  import TPage = TracePage

  // ---- what an expression means ----

  /** The term occurs in one of the named fields of the document, or in any field of the engine if none is named. */
  predicate Occurs(e: Engine, names: seq<Text>, term: Text, doc: Doc) {
    if names == [] then exists i :: 0 <= i < |e.fields| && (e.fields[i].name, term) in doc.terms
    else exists i :: 0 <= i < |names| && (names[i], term) in doc.terms
  }

  predicate SomeTokenOccurs(e: Engine, tokens: seq<Text>, names: seq<Text>, doc: Doc) {
    exists k :: 0 <= k < |tokens| && Occurs(e, names, tokens[k], doc)
  }

  predicate EveryTokenOccurs(e: Engine, tokens: seq<Text>, names: seq<Text>, doc: Doc) {
    forall k :: 0 <= k < |tokens| ==> Occurs(e, names, tokens[k], doc)
  }

  /** The Boolean reading of an expression over bags of terms: boosts and optional parts do not matter. */
  predicate Means(e: Engine, x: Expression, doc: Doc) {
    match x
    case Clause(text, mode, _, names) =>
      var tokens := e.analyzer(text);
      if mode.All? then tokens != [] && EveryTokenOccurs(e, tokens, names, doc) else SomeTokenOccurs(e, tokens, names, doc)
    case And(children) => forall i :: 0 <= i < |children| ==> Means(e, children[i], doc)
    case Or(children) => exists i :: 0 <= i < |children| && Means(e, children[i], doc)
    case Not(child) => !Means(e, child, doc)
    case Boost(_, child) => Means(e, child, doc)
    case Optional(required, _) => Means(e, required, doc)
  }

  lemma HoldsSomeIsOccurs(e: Engine, names: seq<Text>, fields: seq<Field>, term: Text, doc: Doc)
    requires SelectedFields(e, names).Some? && |fields| == |SelectedFields(e, names).value|
    requires forall i :: 0 <= i < |fields| ==> fields[i].name == SelectedFields(e, names).value[i].name
    ensures HoldsSome(doc, term, fields) <==> Occurs(e, names, term, doc)
  {
    var selected := SelectedFields(e, names).value;
    if i :| 0 <= i < |fields| && (fields[i].name, term) in doc.terms {
      assert if names == [] then (e.fields[i].name, term) in doc.terms else (names[i], term) in doc.terms;
    }
    if names == [] {
      if i :| 0 <= i < |e.fields| && (e.fields[i].name, term) in doc.terms { assert (fields[i].name, term) in doc.terms; }
    } else {
      if i :| 0 <= i < |names| && (names[i], term) in doc.terms { assert (fields[i].name, term) in doc.terms; }
    }
  }

  /** A compiled bag of terms, whatever the weights. */
  lemma BagMeans(e: Engine, x: Expression, fields: seq<Field>, doc: Doc)
    requires Bag(x) && SelectedFields(e, x.fields).Some? && |fields| == |SelectedFields(e, x.fields).value|
    requires forall i :: 0 <= i < |fields| ==> fields[i].name == SelectedFields(e, x.fields).value[i].name
    requires TermQueryOf(e, x.text, fields, x.mode.All?).Some?
    ensures Matches(TermQueryOf(e, x.text, fields, x.mode.All?).value.query, doc) <==> Means(e, x, doc)
  {
    hide Matches, HoldsSome, Occurs, SelectedFields;
    TermQueryMatches(e, x.text, fields, x.mode.All?, doc);
    var tokens := e.analyzer(x.text);
    var terms := QueryTerms(e, x.text).value;
    forall term: Text ensures HoldsSome(doc, term, fields) <==> Occurs(e, x.fields, term, doc) {
      HoldsSomeIsOccurs(e, x.fields, fields, term, doc);
    }
    forall k | 0 <= k < |tokens| ensures tokens[k] in terms { assert tokens[k] in tokens; }
    assert forall t :: t in terms ==> t in tokens;
    assert terms == [] <==> tokens == [] by { if tokens != [] { assert tokens[0] in terms; } }
  }

  lemma {:induction false} CompiledMeans(e: Engine, x: Expression, depth: nat, doc: Doc)
    requires Bags(x) && Shape(x, depth, |e.fields|) && Compile(e, x).Some?
    ensures Matches(Compile(e, x).value.query, doc) <==> Means(e, x, doc)
    decreases x, 0
  {
    match x
    case Clause(_, _, _, names) => BagMeans(e, x, SelectedFields(e, names).value, doc);
    case And(children) =>
      var queries := CompileList(e, children, |children|).value.0;
      ListMeans(e, children, |children|, depth + 1, doc);
      AllRequired(queries, doc);
    case Or(children) =>
      var queries := CompileList(e, children, |children|).value.0;
      ListMeans(e, children, |children|, depth + 1, doc);
      SomeRequired(queries, doc);
      hide Compile, CompileList, Means;
      SomeOfEach(queries, doc);
    case Not(child) =>
      CompiledMeans(e, child, depth + 1, doc);
      NotMatches(Compile(e, child).value.query, doc);
    case Boost(_, child) => CompiledMeans(e, child, depth + 1, doc);
    case Optional(required, optional) =>
      CompiledMeans(e, required, depth + 1, doc);
      var start := |optional| + 1 + Compile(e, required).value.clauses;
      OptionalMatches(Compile(e, required).value.query, CompileList(e, optional, start).value.0, doc);
  }

  lemma SomeOfEach(qs: seq<Query>, doc: Doc)
    ensures SomeMatches(qs, doc) <==> exists i :: 0 <= i < |qs| && Matches(qs[i], doc)
  {
  }

  lemma {:induction false} ListMeans(e: Engine, xs: seq<Expression>, start: nat, depth: nat, doc: Doc)
    requires forall i :: 0 <= i < |xs| ==> Bags(xs[i]) && Shape(xs[i], depth, |e.fields|)
    requires CompileList(e, xs, start).Some?
    ensures forall i :: 0 <= i < |xs| ==> (Matches(CompileList(e, xs, start).value.0[i], doc) <==> Means(e, xs[i], doc))
    decreases xs, 1
  {
    hide Matches, Means;
    forall i | 0 <= i < |xs| ensures Matches(CompileList(e, xs, start).value.0[i], doc) <==> Means(e, xs[i], doc) {
      CompiledParts(e, xs, start, i);
      CompiledMeans(e, xs[i], depth, doc);
    }
  }

  /** The compiled request matches exactly the documents the expression means. */
  lemma RequestMeans(e: Engine, x: Expression, doc: Doc)
    requires Bags(x) && CompileRequest(e, x).Some?
    ensures Matches(CompileRequest(e, x).value.query, doc) <==> Means(e, x, doc)
  {
    hide Matches, SelectedFields;
    if x.Boost? && Bag(x.child) {
      BagMeans(e, x.child, Reweighted(e, SelectedFields(e, x.child.fields).value, x.boost), doc);
    } else {
      CompiledMeans(e, x, 0, doc);
    }
  }

  /** And so does a decided trace verdict, of the document with the record's values. */
  lemma TraceMeans(e: Engine, plans: Expression -> Option<TP.Plan>, t: TR.Tracer, x: Expression, record: TR.Record)
    requires TR.Lawful(t) && Bags(x) && e.surfaceTerms && CompileRequest(e, x).Some?
    ensures var search := PrepareRequest(e, plans, x);
      search.Some? && search.value.Valid() &&
      var (verdict, _) := TPage.Judgement(t, search.value, record);
      verdict.Some? ==> verdict.value == Means(e, x, DocOf(t, record))
  {
    TraceAgreesWithQuery(e, plans, t, x, record);
    RequestMeans(e, x, DocOf(t, record));
  }

  // ---- which expressions compile ----

  /** How many fields a clause searches: those it names, or all. */
  function Searched(e: Engine, names: seq<Text>): nat { if names == [] then |e.fields| else |names| }

  predicate IsField(e: Engine, name: Text) { exists k :: 0 <= k < |e.fields| && e.fields[k].name == name }

  /** Every name is a field's, and none is repeated. */
  predicate Known(e: Engine, names: seq<Text>) {
    && (forall i :: 0 <= i < |names| ==> IsField(e, names[i]))
    && (forall i, j :: 0 <= i < j < |names| ==> names[i] != names[j])
  }

  /** The clauses a compiled expression has: its nodes' charges, and each bag's distinct terms times its fields. */
  function Size(e: Engine, x: Expression): nat
    decreases x, 0
  {
    match x
    case Clause(text, _, _, names) => |Deduplicated(e.analyzer(text))| * Searched(e, names)
    case And(children) => |children| + SizeAll(e, children)
    case Or(children) => |children| + SizeAll(e, children)
    case Not(child) => 2 + Size(e, child)
    case Boost(_, child) => 1 + Size(e, child)
    case Optional(required, optional) => |optional| + 1 + Size(e, required) + SizeAll(e, optional)
  }

  function SizeAll(e: Engine, xs: seq<Expression>): nat
    decreases xs, 1
  {
    if xs == [] then 0 else SizeAll(e, xs[..|xs| - 1]) + Size(e, xs[|xs| - 1])
  }

  /** Every clause names known fields and has no more distinct terms than allowed. */
  predicate LeavesFit(e: Engine, x: Expression) {
    match x
    case Clause(text, _, _, names) => Known(e, names) && |Deduplicated(e.analyzer(text))| <= e.maxTerms
    case And(children) => forall i :: 0 <= i < |children| ==> LeavesFit(e, children[i])
    case Or(children) => forall i :: 0 <= i < |children| ==> LeavesFit(e, children[i])
    case Not(child) => LeavesFit(e, child)
    case Boost(_, child) => LeavesFit(e, child)
    case Optional(required, optional) => LeavesFit(e, required) && forall i :: 0 <= i < |optional| ==> LeavesFit(e, optional[i])
  }

  /** What the bags of terms alone add: each its distinct terms times its fields. */
  function LeafSize(e: Engine, x: Expression): nat
    decreases x, 0
  {
    match x
    case Clause(text, _, _, names) => |Deduplicated(e.analyzer(text))| * Searched(e, names)
    case And(children) => LeafSizeAll(e, children)
    case Or(children) => LeafSizeAll(e, children)
    case Not(child) => LeafSize(e, child)
    case Boost(_, child) => LeafSize(e, child)
    case Optional(required, optional) => LeafSize(e, required) + LeafSizeAll(e, optional)
  }

  function LeafSizeAll(e: Engine, xs: seq<Expression>): nat
    decreases xs, 1
  {
    if xs == [] then 0 else LeafSizeAll(e, xs[..|xs| - 1]) + LeafSize(e, xs[|xs| - 1])
  }

  /** What validation charges for the structure is what compiling it adds to the leaves. */
  lemma {:induction false} SizeIsChargeAndLeaves(e: Engine, x: Expression)
    ensures Size(e, x) == Charge(x) + LeafSize(e, x)
    decreases x, 0
  {
    match x
    case Clause(_, _, _, _) =>
    case And(children) => ListSizeIsChargeAndLeaves(e, children);
    case Or(children) => ListSizeIsChargeAndLeaves(e, children);
    case Not(child) => SizeIsChargeAndLeaves(e, child);
    case Boost(_, child) => SizeIsChargeAndLeaves(e, child);
    case Optional(required, optional) =>
      SizeIsChargeAndLeaves(e, required);
      ListSizeIsChargeAndLeaves(e, optional);
  }

  lemma {:induction false} ListSizeIsChargeAndLeaves(e: Engine, xs: seq<Expression>)
    ensures SizeAll(e, xs) == ChargeAll(xs) + LeafSizeAll(e, xs)
    decreases xs, 1
  {
    if xs != [] {
      ListSizeIsChargeAndLeaves(e, xs[..|xs| - 1]);
      SizeIsChargeAndLeaves(e, xs[|xs| - 1]);
    }
  }

  lemma SelectsExactly(e: Engine, names: seq<Text>)
    ensures SelectedFields(e, names).Some? <==> Known(e, names)
    ensures SelectedFields(e, names).Some? ==> |SelectedFields(e, names).value| == Searched(e, names)
  {
    forall i | 0 <= i < |names| ensures IndexOf(e.fields, names[i]).Some? <==> IsField(e, names[i]) {
      var found := IndexOf(e.fields, names[i]);
      if found.Some? { assert e.fields[found.value].name == names[i]; }
    }
  }

  /** A built query of the expected size, if the leaves fit and the size is within the limit; nothing otherwise. */
  predicate BuiltAs(built: Option<Built>, fit: bool, size: nat, limit: nat) {
    if fit && size <= limit then built.Some? && built.value.clauses == size else built.None?
  }

  lemma TermQuerySize(e: Engine, text: Text, fields: seq<Field>, all: bool)
    ensures var terms := |Deduplicated(e.analyzer(text))|;
      BuiltAs(TermQueryOf(e, text, fields, all), terms <= e.maxTerms, terms * |fields|, e.maxClauses)
  {
  }

  lemma {:induction false} CompilesExactly(e: Engine, x: Expression, depth: nat)
    requires Bags(x) && Shape(x, depth, |e.fields|)
    ensures BuiltAs(Compile(e, x), LeavesFit(e, x), Size(e, x), e.maxClauses)
    decreases x, 0
  {
    match x
    case Clause(text, mode, _, names) =>
      SelectsExactly(e, names);
      if SelectedFields(e, names).Some? { TermQuerySize(e, text, SelectedFields(e, names).value, mode.All?); }
    case And(children) => ListCompilesExactly(e, children, |children|, depth + 1);
    case Or(children) => ListCompilesExactly(e, children, |children|, depth + 1);
    case Not(child) => CompilesExactly(e, child, depth + 1);
    case Boost(_, child) => CompilesExactly(e, child, depth + 1);
    case Optional(required, optional) =>
      CompilesExactly(e, required, depth + 1);
      ListCompilesExactly(e, optional, |optional| + 1 + Size(e, required), depth + 1);
  }

  lemma {:induction false} ListCompilesExactly(e: Engine, xs: seq<Expression>, start: nat, depth: nat)
    requires forall i :: 0 <= i < |xs| ==> Bags(xs[i]) && Shape(xs[i], depth, |e.fields|)
    ensures var list := CompileList(e, xs, start);
      var fit := forall i :: 0 <= i < |xs| ==> LeavesFit(e, xs[i]);
      && (list.Some? ==> fit && list.value.1 == start + SizeAll(e, xs))
      && (xs != [] ==> (list.Some? <==> fit && start + SizeAll(e, xs) <= e.maxClauses))
      && (xs == [] ==> list.Some?)
    decreases xs, 1
  {
    hide LeavesFit, Shape, Bags;
    if xs != [] {
      var front := xs[..|xs| - 1];
      ListCompilesExactly(e, front, start, depth);
      CompilesExactly(e, xs[|xs| - 1], depth);
      assert forall i :: 0 <= i < |front| ==> front[i] == xs[i];
    }
  }

  /** A request over bags of terms compiles iff its structure is accepted, its clauses name known fields, none has too many
      distinct terms, and all clauses together, structure included, stay within the limit; that sum is what it is charged. */
  lemma RequestCompilesExactly(e: Engine, x: Expression)
    requires Bags(x)
    ensures BuiltAs(CompileRequest(e, x), Accepted(x, e.maxClauses, |e.fields|) && LeavesFit(e, x), Size(e, x), e.maxClauses)
  {
    if Accepted(x, e.maxClauses, |e.fields|) {
      if x.Boost? && Bag(x.child) {
        SelectsExactly(e, x.child.fields);
        assert LeavesFit(e, x) <==> LeavesFit(e, x.child);
        assert Size(e, x) == 1 + Size(e, x.child);
        if SelectedFields(e, x.child.fields).Some? {
          TermQuerySize(e, x.child.text, Reweighted(e, SelectedFields(e, x.child.fields).value, x.boost), x.child.mode.All?);
        }
      } else {
        CompilesExactly(e, x, 0);
      }
    }
  }
}
