/** The tracer's view of an expression agrees with the query the same expression compiles to. */
module TraceQuery {
  import opened Wrappers
  import opened SearchAst
  import opened QueryCompiler
  import TP = TracePlan
  import TR = TraceRecord
  import TE = TraceExpression
  import TPage = TracePage

  // ---- preparing a trace ----

  function Names(fields: seq<Field>): (r: set<Text>)
    ensures forall n :: n in r <==> exists i :: 0 <= i < |fields| && fields[i].name == n
  {
    set i | 0 <= i < |fields| :: fields[i].name
  }

  /** One leaf: its fields must carry surface terms, and a bag of terms becomes the plan of its distinct terms. */
  function PrepareLeaf(e: Engine, plans: Expression -> Option<TP.Plan>, x: Expression, negative: bool): Option<TR.TracedLeaf>
    requires x.Clause?
  {
    var fields := SelectedFields(e, x.fields);
    if fields.None? || (!e.surfaceTerms && fields.value != []) then None
    else
      var plan :=
        if Bag(x) then
          var terms := QueryTerms(e, x.text);
          if terms.None? then None else Some(if x.mode.All? then TP.All(terms.value) else TP.Any(terms.value))
        else plans(x);
      if plan.None? then None else Some(TR.TracedLeaf(plan.value, Names(fields.value), negative))
  }

  /** The expression over numbered leaves; leaves are appended in the order they are met. */
  function Prepare(e: Engine, plans: Expression -> Option<TP.Plan>, x: Expression, leaves: seq<TR.TracedLeaf>, negative: bool)
    : (r: Option<(TE.Traced, seq<TR.TracedLeaf>)>)
    ensures r.Some? ==> leaves <= r.value.1
    decreases x, 0
  {
    match x
    case Clause(_, _, _, _) =>
      var leaf := PrepareLeaf(e, plans, x, negative);
      if leaf.None? then None else Some((TE.Leaf(|leaves|), leaves + [leaf.value]))
    case And(children) =>
      var all := PrepareAll(e, plans, children, leaves, negative);
      if all.None? then None else Some((TE.And(all.value.0), all.value.1))
    case Or(children) =>
      var all := PrepareAll(e, plans, children, leaves, negative);
      if all.None? then None else Some((TE.Or(all.value.0), all.value.1))
    case Not(child) =>
      var one := Prepare(e, plans, child, leaves, true);
      if one.None? then None else Some((TE.Not(one.value.0), one.value.1))
    case Boost(_, child) => Prepare(e, plans, child, leaves, negative)
    case Optional(required, optional) =>
      var one := Prepare(e, plans, required, leaves, negative);
      if one.None? then None
      else
        var all := PrepareAll(e, plans, optional, one.value.1, negative);
        if all.None? then None else Some((TE.Optional(one.value.0, all.value.0), all.value.1))
  }

  function PrepareAll(e: Engine, plans: Expression -> Option<TP.Plan>, xs: seq<Expression>, leaves: seq<TR.TracedLeaf>, negative: bool)
    : (r: Option<(seq<TE.Traced>, seq<TR.TracedLeaf>)>)
    ensures r.Some? ==> |r.value.0| == |xs| && leaves <= r.value.1
    decreases xs, 1
  {
    if xs == [] then Some(([], leaves))
    else
      var first := Prepare(e, plans, xs[0], leaves, negative);
      if first.None? then None
      else
        var rest := PrepareAll(e, plans, xs[1..], first.value.1, negative);
        if rest.None? then None else Some(([first.value.0] + rest.value.0, rest.value.1))
  }

  /** A bare clause is traced directly; anything else is validated and prepared as an expression. */
  function PrepareRequest(e: Engine, plans: Expression -> Option<TP.Plan>, x: Expression): Option<TPage.Search> {
    if x.Clause? then
      var leaf := PrepareLeaf(e, plans, x, false);
      if leaf.None? then None else Some(TPage.ClauseSearch(leaf.value.plan, leaf.value.fields))
    else if !Accepted(x, e.maxClauses, |e.fields|) then None
    else
      var prepared := Prepare(e, plans, x, [], false);
      if prepared.None? then None else Some(TPage.ExpressionSearch(prepared.value.0, prepared.value.1))
  }

  // ---- records as documents ----

  predicate HasToken(tokens: seq<TP.Token>, text: Text) { exists k :: 0 <= k < |tokens| && tokens[k].text == text }

  function TokenTexts(tokens: seq<TP.Token>): (r: set<Text>)
    ensures forall x :: x in r <==> HasToken(tokens, x)
  {
    set k | 0 <= k < |tokens| :: tokens[k].text
  }

  function ValueTerms(t: TR.Tracer, vs: seq<TR.Value>): (r: set<(Text, Text)>)
    ensures forall f, x :: (f, x) in r <==> exists i :: 0 <= i < |vs| && vs[i].field == f && HasToken(t.index(vs[i].text), x)
  {
    set i, x | 0 <= i < |vs| && x in TokenTexts(t.index(vs[i].text)) :: (vs[i].field, x)
  }

  function FieldNames(record: TR.Record): set<Text> { set i | 0 <= i < |record.fields| :: record.fields[i].0 }

  /** The document indexed from the same values. */
  function DocOf(t: TR.Tracer, record: TR.Record): Doc {
    Doc(record.id, ValueTerms(t, TR.Values(record.fields, FieldNames(record))))
  }

  predicate FromRecord(fields: seq<(Text, seq<Text>)>, v: TR.Value) {
    exists k :: 0 <= k < |fields| && fields[k].0 == v.field && v.index < |fields[k].1| && fields[k].1[v.index] == v.text
  }

  lemma {:induction false} ValuesAreTheRecords(fields: seq<(Text, seq<Text>)>, selected: set<Text>, v: TR.Value)
    ensures v in TR.Values(fields, selected) <==> v.field in selected && FromRecord(fields, v)
  {
    if fields != [] {
      var front := fields[..|fields| - 1];
      var (field, texts) := fields[|fields| - 1];
      ValuesAreTheRecords(front, selected, v);
      var last := TR.FieldValues(field, texts);
      assert v in last <==> v.field == field && v.index < |texts| && texts[v.index] == v.text by {
        if v.field == field && v.index < |texts| && texts[v.index] == v.text { assert last[v.index] == v; }
      }
      assert FromRecord(fields, v) <==> FromRecord(front, v) || (field == v.field && v.index < |texts| && texts[v.index] == v.text) by {
        if k :| 0 <= k < |fields| && fields[k].0 == v.field && v.index < |fields[k].1| && fields[k].1[v.index] == v.text {
          if k < |front| { assert front[k] == fields[k]; }
        }
        if FromRecord(front, v) {
          var k :| 0 <= k < |front| && front[k].0 == v.field && v.index < |front[k].1| && front[k].1[v.index] == v.text;
          assert fields[k] == front[k];
        }
        assert fields[|fields| - 1] == (field, texts);
      }
    }
  }

  lemma SelectedTerms(t: TR.Tracer, record: TR.Record, selected: set<Text>, f: Text, x: Text)
    requires f in selected
    ensures (f, x) in ValueTerms(t, TR.Values(record.fields, selected)) <==> (f, x) in DocOf(t, record).terms
  {
    var some, all := TR.Values(record.fields, selected), TR.Values(record.fields, FieldNames(record));
    if i :| 0 <= i < |some| && some[i].field == f && HasToken(t.index(some[i].text), x) {
      ValuesAreTheRecords(record.fields, selected, some[i]);
      ValuesAreTheRecords(record.fields, FieldNames(record), some[i]);
      assert some[i] in all;
    }
    if i :| 0 <= i < |all| && all[i].field == f && HasToken(t.index(all[i].text), x) {
      ValuesAreTheRecords(record.fields, selected, all[i]);
      ValuesAreTheRecords(record.fields, FieldNames(record), all[i]);
      assert all[i] in some;
    }
  }

  // ---- one leaf ----

  predicate InSome(doc: Doc, term: Text, fields: set<Text>) { exists f :: f in fields && (f, term) in doc.terms }

  /** What a bag-of-terms leaf says of a document. */
  predicate LeafHolds(leaf: TR.TracedLeaf, doc: Doc)
    requires leaf.plan.Any? || leaf.plan.All?
  {
    if leaf.plan.All? then leaf.plan.terms != [] && forall x :: x in leaf.plan.terms ==> InSome(doc, x, leaf.fields)
    else exists x :: x in leaf.plan.terms && InSome(doc, x, leaf.fields)
  }

  lemma {:induction false} WholeFinds(t: TR.Tracer, leaf: TR.TracedLeaf, vs: seq<TR.Value>, x: Text)
    requires leaf.plan.Any? || leaf.plan.All?
    ensures TP.Term(x) in TR.Whole(t, leaf, vs)
      <==> x in leaf.plan.terms && exists f :: f in leaf.fields && (f, x) in ValueTerms(t, vs)
  {
    if vs != [] {
      var front, v := vs[..|vs| - 1], vs[|vs| - 1];
      WholeFinds(t, leaf, front, x);
      assert forall f :: (f, x) in ValueTerms(t, vs) <==> (f, x) in ValueTerms(t, front) || (v.field == f && HasToken(t.index(v.text), x)) by {
        forall f ensures (f, x) in ValueTerms(t, vs) <==> (f, x) in ValueTerms(t, front) || (v.field == f && HasToken(t.index(v.text), x)) {
          LastValueTerms(t, vs, f, x);
        }
      }
      assert TP.Term(x) in TP.FoundIn(TR.Hits(leaf.plan.terms, t.index(v.text))) <==> x in leaf.plan.terms && HasToken(t.index(v.text), x);
    }
  }

  lemma LastValueTerms(t: TR.Tracer, vs: seq<TR.Value>, f: Text, x: Text)
    requires vs != []
    ensures (f, x) in ValueTerms(t, vs) <==>
      || (f, x) in ValueTerms(t, vs[..|vs| - 1])
      || (vs[|vs| - 1].field == f && HasToken(t.index(vs[|vs| - 1].text), x))
  {
    var front := vs[..|vs| - 1];
    if i :| 0 <= i < |vs| && vs[i].field == f && HasToken(t.index(vs[i].text), x) {
      if i < |front| { assert front[i] == vs[i]; }
    }
    if i :| 0 <= i < |front| && front[i].field == f && HasToken(t.index(front[i].text), x) { assert vs[i] == front[i]; }
  }

  /** Matching on what the whole record holds is matching on its document. */
  lemma WholeIsDocument(t: TR.Tracer, leaf: TR.TracedLeaf, record: TR.Record, selected: set<Text>)
    requires (leaf.plan.Any? || leaf.plan.All?) && leaf.plan.DistinctTerms() && leaf.fields <= selected
    ensures leaf.plan.RecordMatches(TR.Whole(t, leaf, TR.Values(record.fields, selected))) <==> LeafHolds(leaf, DocOf(t, record))
  {
    var vs, doc := TR.Values(record.fields, selected), DocOf(t, record);
    var whole := TR.Whole(t, leaf, vs);
    TR.WholeFindsOnly(t, leaf, vs);
    TP.CountingIsFindingAll(leaf.plan, whole);
    forall x ensures TP.Term(x) in whole <==> x in leaf.plan.terms && InSome(doc, x, leaf.fields) {
      WholeFinds(t, leaf, vs, x);
      forall f | f in leaf.fields ensures (f, x) in ValueTerms(t, vs) <==> (f, x) in doc.terms {
        SelectedTerms(t, record, selected, f, x);
      }
    }
    if leaf.plan.Any? && whole != {} {
      var found :| found in whole;
      assert found == TP.Term(found.text);
    }
  }

  /** A prepared leaf and the compiled clause hold of the same documents, whatever the weights. */
  lemma LeafAgrees(e: Engine, plans: Expression -> Option<TP.Plan>, x: Expression, negative: bool, fields: seq<Field>, doc: Doc)
    requires Bag(x) && e.surfaceTerms && SelectedFields(e, x.fields).Some?
    requires Names(fields) == Names(SelectedFields(e, x.fields).value)
    requires TermQueryOf(e, x.text, fields, x.mode.All?).Some?
    ensures var leaf := PrepareLeaf(e, plans, x, negative);
      && leaf.Some? && (leaf.value.plan.Any? || leaf.value.plan.All?) && leaf.value.plan.DistinctTerms()
      && (Matches(TermQueryOf(e, x.text, fields, x.mode.All?).value.query, doc) <==> LeafHolds(leaf.value, doc))
  {
    var leaf := PrepareLeaf(e, plans, x, negative).value;
    TermQueryMatches(e, x.text, fields, x.mode.All?, doc);
    forall term: Text ensures HoldsSome(doc, term, fields) <==> InSome(doc, term, leaf.fields) {
      if i :| 0 <= i < |fields| && (fields[i].name, term) in doc.terms { assert fields[i].name in leaf.fields; }
    }
  }

  // ---- whole expressions ----

  predicate BagLeaves(leaves: seq<TR.TracedLeaf>) {
    forall i :: 0 <= i < |leaves| ==> (leaves[i].plan.Any? || leaves[i].plan.All?) && leaves[i].plan.DistinctTerms()
  }

  function Truths(leaves: seq<TR.TracedLeaf>, doc: Doc): (r: seq<bool>)
    requires BagLeaves(leaves)
    ensures |r| == |leaves|
  {
    seq(|leaves|, i requires 0 <= i < |leaves| => LeafHolds(leaves[i], doc))
  }

  lemma {:induction false} CompiledParts(e: Engine, xs: seq<Expression>, start: nat, i: nat)
    requires CompileList(e, xs, start).Some? && i < |xs|
    ensures Compile(e, xs[i]).Some? && CompileList(e, xs, start).value.0[i] == Compile(e, xs[i]).value.query
  {
    if i < |xs| - 1 { CompiledParts(e, xs[..|xs| - 1], start, i); }
  }

  /** Whatever compiles can be traced, and every leaf of a bags-only expression is a bag of distinct terms. */
  lemma {:induction false} Preparable(e: Engine, plans: Expression -> Option<TP.Plan>, x: Expression, leaves: seq<TR.TracedLeaf>, negative: bool)
    requires Bags(x) && e.surfaceTerms && Compile(e, x).Some? && BagLeaves(leaves)
    ensures var r := Prepare(e, plans, x, leaves, negative); r.Some? && BagLeaves(r.value.1)
    decreases x, 0
  {
    match x
    case Clause(_, _, _, _) =>
      LeafAgrees(e, plans, x, negative, SelectedFields(e, x.fields).value, Doc([], {}));
    case And(children) => ListPreparable(e, plans, children, |children|, leaves, negative);
    case Or(children) => ListPreparable(e, plans, children, |children|, leaves, negative);
    case Not(child) => Preparable(e, plans, child, leaves, true);
    case Boost(_, child) => Preparable(e, plans, child, leaves, negative);
    case Optional(required, optional) =>
      Preparable(e, plans, required, leaves, negative);
      var start := |optional| + 1 + Compile(e, required).value.clauses;
      ListPreparable(e, plans, optional, start, Prepare(e, plans, required, leaves, negative).value.1, negative);
  }

  lemma {:induction false} ListPreparable(e: Engine, plans: Expression -> Option<TP.Plan>, xs: seq<Expression>, start: nat,
                                          leaves: seq<TR.TracedLeaf>, negative: bool)
    requires (forall i :: 0 <= i < |xs| ==> Bags(xs[i])) && e.surfaceTerms && CompileList(e, xs, start).Some? && BagLeaves(leaves)
    ensures var r := PrepareAll(e, plans, xs, leaves, negative); r.Some? && BagLeaves(r.value.1)
    decreases xs, 1
  {
    forall i | 0 <= i < |xs| ensures Compile(e, xs[i]).Some? { CompiledParts(e, xs, start, i); }
    EachPreparable(e, plans, xs, leaves, negative);
  }

  lemma {:induction false} EachPreparable(e: Engine, plans: Expression -> Option<TP.Plan>, xs: seq<Expression>, leaves: seq<TR.TracedLeaf>, negative: bool)
    requires (forall i :: 0 <= i < |xs| ==> Bags(xs[i]) && Compile(e, xs[i]).Some?) && e.surfaceTerms && BagLeaves(leaves)
    ensures var r := PrepareAll(e, plans, xs, leaves, negative); r.Some? && BagLeaves(r.value.1)
    decreases xs, 0
  {
    if xs != [] {
      Preparable(e, plans, xs[0], leaves, negative);
      EachPreparable(e, plans, xs[1..], Prepare(e, plans, xs[0], leaves, negative).value.1, negative);
    }
  }

  /** The prepared expression, numbered in order, holds over the leaves' truths exactly when the compiled query matches. */
  ghost predicate Agrees(e: Engine, plans: Expression -> Option<TP.Plan>, x: Expression, leaves: seq<TR.TracedLeaf>, negative: bool,
                         final: seq<TR.TracedLeaf>, doc: Doc)
    requires BagLeaves(final) && Compile(e, x).Some? && Prepare(e, plans, x, leaves, negative).Some?
  {
    var (traced, more) := Prepare(e, plans, x, leaves, negative).value;
    && TE.Numbered(traced, |leaves|, |more|) && TE.Within(traced, |final|)
    && (TE.Holds(traced, Truths(final, doc)) <==> Matches(Compile(e, x).value.query, doc))
  }

  lemma {:induction false} PreparedAgrees(e: Engine, plans: Expression -> Option<TP.Plan>, x: Expression, depth: nat,
    leaves: seq<TR.TracedLeaf>, negative: bool, final: seq<TR.TracedLeaf>, doc: Doc)
    requires Bags(x) && Shape(x, depth, |e.fields|) && e.surfaceTerms && Compile(e, x).Some? && BagLeaves(final)
    requires var r := Prepare(e, plans, x, leaves, negative); r.Some? && r.value.1 <= final
    ensures Agrees(e, plans, x, leaves, negative, final, doc)
    decreases x, 1
  {
    match x
    case Clause(_, _, _, _) =>
      LeafAgrees(e, plans, x, negative, SelectedFields(e, x.fields).value, doc);
      assert final[|leaves|] == PrepareLeaf(e, plans, x, negative).value;
    case And(_) => CombinationAgrees(e, plans, x, depth, leaves, negative, final, doc);
    case Or(_) => CombinationAgrees(e, plans, x, depth, leaves, negative, final, doc);
    case Not(child) =>
      PreparedAgrees(e, plans, child, depth + 1, leaves, true, final, doc);
      NotMatches(Compile(e, child).value.query, doc);
    case Boost(_, child) => PreparedAgrees(e, plans, child, depth + 1, leaves, negative, final, doc);
    case Optional(_, _) => OptionalAgrees(e, plans, x, depth, leaves, negative, final, doc);
  }

  lemma {:induction false} CombinationAgrees(e: Engine, plans: Expression -> Option<TP.Plan>, x: Expression, depth: nat,
    leaves: seq<TR.TracedLeaf>, negative: bool, final: seq<TR.TracedLeaf>, doc: Doc)
    requires Bags(x) && Shape(x, depth, |e.fields|) && e.surfaceTerms && Compile(e, x).Some? && BagLeaves(final)
    requires var r := Prepare(e, plans, x, leaves, negative); r.Some? && r.value.1 <= final
    requires x.And? || x.Or?
    ensures Agrees(e, plans, x, leaves, negative, final, doc)
    decreases x, 0
  {
    hide Matches, Truths, CompileList, PrepareAll;
    var queries := CompileList(e, x.children, |x.children|).value.0;
    ListAgrees(e, plans, x.children, |x.children|, depth + 1, leaves, negative, final, doc);
    if x.And? { AllRequired(queries, doc); } else { SomeRequired(queries, doc); }
    var (traced, more) := PrepareAll(e, plans, x.children, leaves, negative).value;
    assert forall i :: 0 <= i < |traced| ==> (TE.Holds(traced[i], Truths(final, doc)) <==> Matches(queries[i], doc));
  }

  lemma {:induction false} OptionalAgrees(e: Engine, plans: Expression -> Option<TP.Plan>, x: Expression, depth: nat,
    leaves: seq<TR.TracedLeaf>, negative: bool, final: seq<TR.TracedLeaf>, doc: Doc)
    requires Bags(x) && Shape(x, depth, |e.fields|) && e.surfaceTerms && Compile(e, x).Some? && BagLeaves(final)
    requires var r := Prepare(e, plans, x, leaves, negative); r.Some? && r.value.1 <= final
    requires x.Optional?
    ensures Agrees(e, plans, x, leaves, negative, final, doc)
    decreases x, 0
  {
    hide Matches, Truths, CompileList, PrepareAll, TE.Numbered, TE.NumberedAll, TE.Holds, TE.Within;
    var (first, middle) := Prepare(e, plans, x.required, leaves, negative).value;
    PreparedAgrees(e, plans, x.required, depth + 1, leaves, negative, final, doc);
    var start := |x.optional| + 1 + Compile(e, x.required).value.clauses;
    ListAgrees(e, plans, x.optional, start, depth + 1, middle, negative, final, doc);
    OptionalMatches(Compile(e, x.required).value.query, CompileList(e, x.optional, start).value.0, doc);
    var (rest, more) := PrepareAll(e, plans, x.optional, middle, negative).value;
    OptionalTraced(first, rest, |leaves|, |middle|, |more|, Truths(final, doc));
  }

  lemma OptionalTraced(first: TE.Traced, rest: seq<TE.Traced>, lo: nat, mid: nat, hi: nat, truths: seq<bool>)
    requires lo <= mid <= hi && TE.Numbered(first, lo, mid) && TE.NumberedAll(rest, mid, hi)
    requires TE.Within(first, |truths|) && forall i :: 0 <= i < |rest| ==> TE.Within(rest[i], |truths|)
    ensures TE.Numbered(TE.Optional(first, rest), lo, hi) && TE.Within(TE.Optional(first, rest), |truths|)
    ensures TE.Holds(TE.Optional(first, rest), truths) == TE.Holds(first, truths)
  {
  }

  lemma NotMatches(q: Query, doc: Doc)
    ensures Matches(ConstScoreQuery(BooleanQuery([AllQuery, q], [Must, MustNot])), doc) <==> !Matches(q, doc)
  {
    var qs, occurs := [AllQuery, q], [Must, MustNot];
    assert qs[0] == AllQuery && qs[1] == q && occurs[0].Must? && occurs[1].MustNot?;
    assert Matches(AllQuery, doc);
  }

  lemma OptionalMatches(q: Query, qs: seq<Query>, doc: Doc)
    ensures Matches(BooleanQuery([q] + qs, [Must] + Always(Should, |qs|)), doc) <==> Matches(q, doc)
  {
    var occurs := [Must] + Always(Should, |qs|);
    assert ([q] + qs)[0] == q && occurs[0].Must?;
    assert forall i :: 0 < i < |occurs| ==> occurs[i] == Always(Should, |qs|)[i - 1];
  }

  lemma {:induction false} ListAgrees(e: Engine, plans: Expression -> Option<TP.Plan>, xs: seq<Expression>, start: nat, depth: nat,
                                      leaves: seq<TR.TracedLeaf>, negative: bool, final: seq<TR.TracedLeaf>, doc: Doc)
    requires (forall i :: 0 <= i < |xs| ==> Bags(xs[i]) && Shape(xs[i], depth, |e.fields|))
    requires e.surfaceTerms && CompileList(e, xs, start).Some? && BagLeaves(final)
    requires var r := PrepareAll(e, plans, xs, leaves, negative); r.Some? && r.value.1 <= final
    ensures var (traced, more) := PrepareAll(e, plans, xs, leaves, negative).value;
      && TE.NumberedAll(traced, |leaves|, |more|)
      && (forall i :: 0 <= i < |xs| ==> TE.Within(traced[i], |final|))
      && (forall i :: 0 <= i < |xs| ==>
            (TE.Holds(traced[i], Truths(final, doc)) <==> Matches(CompileList(e, xs, start).value.0[i], doc)))
    decreases xs, 1
  {
    forall i | 0 <= i < |xs|
      ensures Compile(e, xs[i]).Some? && CompileList(e, xs, start).value.0[i] == Compile(e, xs[i]).value.query
    {
      CompiledParts(e, xs, start, i);
    }
    EachAgrees(e, plans, xs, depth, leaves, negative, final, doc);
  }

  lemma {:induction false} EachAgrees(e: Engine, plans: Expression -> Option<TP.Plan>, xs: seq<Expression>, depth: nat,
                                      leaves: seq<TR.TracedLeaf>, negative: bool, final: seq<TR.TracedLeaf>, doc: Doc)
    requires (forall i :: 0 <= i < |xs| ==> Bags(xs[i]) && Shape(xs[i], depth, |e.fields|) && Compile(e, xs[i]).Some?)
    requires e.surfaceTerms && BagLeaves(final)
    requires var r := PrepareAll(e, plans, xs, leaves, negative); r.Some? && r.value.1 <= final
    ensures var (traced, more) := PrepareAll(e, plans, xs, leaves, negative).value;
      && TE.NumberedAll(traced, |leaves|, |more|)
      && (forall i :: 0 <= i < |xs| ==> TE.Within(traced[i], |final|))
      && (forall i :: 0 <= i < |xs| ==>
            (TE.Holds(traced[i], Truths(final, doc)) <==> Matches(Compile(e, xs[i]).value.query, doc)))
    decreases xs, 0
  {
    hide Matches;
    if xs != [] {
      var (first, middle) := Prepare(e, plans, xs[0], leaves, negative).value;
      var (rest, more) := PrepareAll(e, plans, xs[1..], middle, negative).value;
      PreparedAgrees(e, plans, xs[0], depth, leaves, negative, final, doc);
      EachAgrees(e, plans, xs[1..], depth, middle, negative, final, doc);
      var traced := [first] + rest;
      assert traced[1..] == rest;
      forall i | 0 <= i < |xs|
        ensures TE.Within(traced[i], |final|)
        ensures TE.Holds(traced[i], Truths(final, doc)) <==> Matches(Compile(e, xs[i]).value.query, doc)
      {
        if i > 0 { assert traced[i] == rest[i - 1] && xs[i] == xs[1..][i - 1]; }
      }
    }
  }

  // ---- the verdict ----

  /** Every decided leaf is right about the record's document, and only cut-off analysis leaves one undecided. */
  lemma {:induction false} PanelIsHonest(t: TR.Tracer, leaves: seq<TR.TracedLeaf>, surfaceFields: set<Text>, record: TR.Record,
                                         selected: set<Text>, work: nat)
    requires TR.Lawful(t) && BagLeaves(leaves) && forall i :: 0 <= i < |leaves| ==> leaves[i].fields <= selected
    ensures var p := TR.Judge(t, leaves, TR.Analyze(t, surfaceFields, TR.Values(record.fields, selected)), work);
      && TE.Completes(Truths(leaves, DocOf(t, record)), p.membership)
      && (p.known ==> forall i :: 0 <= i < |p.membership| ==> p.membership[i].Some?)
  {
    if leaves != [] {
      var front, leaf := leaves[..|leaves| - 1], leaves[|leaves| - 1];
      var vs := TR.Values(record.fields, selected);
      PanelIsHonest(t, front, surfaceFields, record, selected, work);
      var p := TR.Judge(t, front, TR.Analyze(t, surfaceFields, vs), work);
      hide TR.Analyze, TR.Judge, TR.Verdict;
      TR.DecidedLeafIsTrue(t, leaf, surfaceFields, vs, p.work);
      WholeIsDocument(t, leaf, record, selected);
      PanelStep(t, leaves, TR.Analyze(t, surfaceFields, vs), work, DocOf(t, record));
    }
  }

  lemma PanelStep(t: TR.Tracer, leaves: seq<TR.TracedLeaf>, a: TR.Analysis, work: nat, doc: Doc)
    requires leaves != [] && BagLeaves(leaves) && BagLeaves(leaves[..|leaves| - 1])
    requires var p := TR.Judge(t, leaves[..|leaves| - 1], a, work);
      && TE.Completes(Truths(leaves[..|leaves| - 1], doc), p.membership)
      && (p.known ==> forall i :: 0 <= i < |p.membership| ==> p.membership[i].Some?)
      && var leaf := leaves[|leaves| - 1]; var j := TR.WeighLeaf(t, leaf, a, p.work);
      var truth := TR.Verdict(leaf.plan, j.found, j.unknown);
      (truth.Some? ==> truth.value == LeafHolds(leaf, doc)) && (!j.unknown ==> truth.Some?)
    ensures var p := TR.Judge(t, leaves, a, work);
      && TE.Completes(Truths(leaves, doc), p.membership)
      && (p.known ==> forall i :: 0 <= i < |p.membership| ==> p.membership[i].Some?)
  {
    hide TR.WeighLeaf, TR.Verdict, LeafHolds;
    var front := leaves[..|leaves| - 1];
    assert forall i :: 0 <= i < |front| ==> Truths(leaves, doc)[i] == Truths(front, doc)[i];
  }

  /** Values of a clause traced on its own: nothing found is false, nothing is missed unless something was cut off. */
  lemma {:induction false} SummaryIsHonest(t: TR.Tracer, leaf: TR.TracedLeaf, vs: seq<TR.Value>)
    requires TR.Lawful(t) && (leaf.plan.Any? || leaf.plan.All?)
    requires forall i :: 0 <= i < |vs| ==> vs[i].field in leaf.fields
    ensures var s := TPage.Summarize(t, leaf.plan, vs);
      s.found <= TR.Whole(t, leaf, vs) && (!s.cut ==> s.found == TR.Whole(t, leaf, vs))
  {
    if vs != [] {
      var v := vs[|vs| - 1];
      SummaryIsHonest(t, leaf, vs[..|vs| - 1]);
      var kept := TPage.Kept(t.index(v.text));
      TR.EventsAreLawful(t, leaf.plan, kept, [], false);
      TR.HitsOfPrefix(leaf.plan.terms, t.index(v.text), |kept|);
      assert !TPage.ValueCut(t, leaf.plan, v) ==> kept == t.index(v.text);
    }
  }

  lemma ClauseVerdict(t: TR.Tracer, leaf: TR.TracedLeaf, record: TR.Record)
    requires TR.Lawful(t) && (leaf.plan.Any? || leaf.plan.All?) && leaf.plan.DistinctTerms()
    ensures
      var search := TPage.ClauseSearch(leaf.plan, leaf.fields);
      var (verdict, known) := TPage.Judgement(t, search, record);
      && (verdict.Some? ==> verdict.value == LeafHolds(leaf, DocOf(t, record)))
      && (known ==> verdict.Some?)
  {
    var vs := TR.Values(record.fields, leaf.fields);
    forall i | 0 <= i < |vs| ensures vs[i].field in leaf.fields {
      assert vs[i] in vs;
      ValuesAreTheRecords(record.fields, leaf.fields, vs[i]);
    }
    SummaryIsHonest(t, leaf, vs);
    TR.WholeFindsOnly(t, leaf, vs);
    TP.MatchingIsMonotone(leaf.plan, TPage.Summarize(t, leaf.plan, vs).found, TR.Whole(t, leaf, vs));
    WholeIsDocument(t, leaf, record, leaf.fields);
  }

  lemma ExpressionVerdict(t: TR.Tracer, traced: TE.Traced, leaves: seq<TR.TracedLeaf>, record: TR.Record)
    requires TR.Lawful(t) && BagLeaves(leaves) && TE.Numbered(traced, 0, |leaves|)
    ensures TPage.ExpressionSearch(traced, leaves).Valid()
    ensures
      var (verdict, known) := TPage.Judgement(t, TPage.ExpressionSearch(traced, leaves), record);
      && (verdict.Some? ==> verdict.value == TE.Holds(traced, Truths(leaves, DocOf(t, record))))
      && (known ==> verdict.Some?)
  {
    TE.NumberedWithin(traced, 0, |leaves|, |leaves|);
    var selected, surfaceFields := TPage.FieldsOf(leaves), TPage.SurfaceFieldsOf(leaves);
    PanelIsHonest(t, leaves, surfaceFields, record, selected, TPage.MAX_TRACE_WORK_TOKENS);
    var a := TPage.SourcesOf(t, leaves, record);
    var p := TR.Judge(t, leaves, a, TPage.MAX_TRACE_WORK_TOKENS);
    var truths := Truths(leaves, DocOf(t, record));
    TE.DecidedIsSound(traced, p.membership, truths);
    if p.known {
      assert forall truth: seq<bool> :: TE.Completes(truth, p.membership) ==> truth == truths;
      TE.EvaluationIsExact(traced, |leaves|, p.membership, TE.Holds(traced, truths));
    }
  }

  /** The tracer agrees with the search engine: whenever an expression over bags of terms compiles, it can be traced,
      and a decided verdict on a record is whether the compiled query matches the document with the same values. A
      verdict stays open only if analysis was cut off. */
  lemma TraceAgreesWithQuery(e: Engine, plans: Expression -> Option<TP.Plan>, t: TR.Tracer, x: Expression, record: TR.Record)
    requires TR.Lawful(t) && Bags(x) && e.surfaceTerms && CompileRequest(e, x).Some?
    ensures var search := PrepareRequest(e, plans, x);
      search.Some? && search.value.Valid() &&
      var (verdict, known) := TPage.Judgement(t, search.value, record);
      && (verdict.Some? ==> verdict.value == Matches(CompileRequest(e, x).value.query, DocOf(t, record)))
      && (known ==> verdict.Some?)
  {
    var doc := DocOf(t, record);
    hide Matches, TPage.Judgement, DocOf;
    if x.Clause? {
      var fields := SelectedFields(e, x.fields).value;
      LeafAgrees(e, plans, x, false, fields, doc);
      ClauseVerdict(t, PrepareLeaf(e, plans, x, false).value, record);
    } else if x.Boost? && Bag(x.child) {
      var fields := SelectedFields(e, x.child.fields).value;
      var weighted := Reweighted(e, fields, x.boost);
      assert Names(weighted) == Names(fields);
      LeafAgrees(e, plans, x.child, false, weighted, doc);
      var leaf := PrepareLeaf(e, plans, x.child, false).value;
      assert [] + [leaf] == [leaf];
      assert Prepare(e, plans, x, [], false) == Prepare(e, plans, x.child, [], false) == Some((TE.Leaf(0), [leaf]));
      ExpressionVerdict(t, TE.Leaf(0), [leaf], record);
    } else {
      Preparable(e, plans, x, [], false);
      var (traced, leaves) := Prepare(e, plans, x, [], false).value;
      PreparedAgrees(e, plans, x, 0, [], false, leaves, doc);
      ExpressionVerdict(t, traced, leaves, record);
    }
  }

  /** With candidate IDs: a page excludes what the restricted query excludes, and otherwise agrees with it. */
  lemma PageAgreesWithRestrictedQuery(e: Engine, plans: Expression -> Option<TP.Plan>, t: TR.Tracer, x: Expression,
                                      candidates: Option<set<Text>>, record: TR.Record, n: nat)
    requires TR.Lawful(t) && Bags(x) && e.surfaceTerms && CompileRequest(e, x).Some? && n <= TPage.MAX_TRACE_RECORDS
    ensures var search := PrepareRequest(e, plans, x);
      search.Some? && search.value.Valid() &&
      var state := TPage.StateOf(t, search.value, candidates, record, n);
      && (state.membership.Some? ==>
            state.membership.value == Matches(WithCandidates(CompileRequest(e, x).value.query, candidates), DocOf(t, record)))
      && (state.analysisComplete ==> state.membership.Some?)
  {
    TraceAgreesWithQuery(e, plans, t, x, record);
    if candidates.Some? && candidates.value != {} {
      RestrictionMatches(CompileRequest(e, x).value.query, candidates.value, DocOf(t, record));
    }
  }

  lemma RestrictionMatches(q: Query, ids: set<Text>, doc: Doc)
    requires ids != {}
    ensures Matches(WithCandidates(q, Some(ids)), doc) <==> Matches(q, doc) && doc.id in ids
  {
    var qs, occurs := [q, ConstScoreQuery(IdSetQuery(ids))], [Must, Must];
    assert qs[0] == q && qs[1] == ConstScoreQuery(IdSetQuery(ids)) && occurs[0].Must? && occurs[1].Must?;
    assert Matches(qs[1], doc) <==> doc.id in ids;
  }
}
