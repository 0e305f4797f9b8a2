/** Tracing one record against an expression: its token sources, the membership of every leaf, and the spans of the
    leaves the verdict is credited to. */
module TraceRecord {
  import opened Wrappers
  import opened TracePlan
  import opened TraceExpression

  const MAX_TRACE_EXPRESSION_TOKENS := 524288
  const MAX_TRACE_EXPRESSION_VALUES := 4096

  /** The analyzers the engine was configured with, and where a plan that is not a bag of terms is satisfied. */
  datatype Tracer = Tracer(
    index: Text -> seq<Token>,
    surface: Text -> seq<Token>,
    occurrences: (Plan, seq<Token>, seq<Token>, bool) -> seq<seq<Event>>)

  datatype Record = Record(id: Text, fields: seq<(Text, seq<Text>)>)

  datatype Value = Value(field: Text, index: nat, text: Text)

  datatype Source = Source(field: Text, index: nat, analyzed: seq<Token>, surface: seq<Token>, analyzedTruncated: bool, surfaceTruncated: bool)

  datatype TracedLeaf = TracedLeaf(plan: Plan, fields: set<Text>, analyzedFuzzy: bool)

  function Hits(terms: seq<Text>, tokens: seq<Token>): (r: seq<Event>)
    ensures forall e :: e in r ==> e.found.Term? && e.found.text in terms
    ensures forall t :: Term(t) in FoundIn(r) <==> t in terms && exists k :: 0 <= k < |tokens| && tokens[k].text == t
  {
    if tokens == [] then []
    else
      var front, last := tokens[..|tokens| - 1], tokens[|tokens| - 1];
      var before := Hits(terms, front);
      assert forall k :: 0 <= k < |front| ==> front[k] == tokens[k];
      if last.text in terms then
        var all := before + [Event(Term(last.text), last.span)];
        assert FoundIn(all) == FoundIn(before) + {Term(last.text)};
        all
      else before
  }

  function Passes(t: Tracer, plan: Plan, analyzed: seq<Token>, surface: seq<Token>, analyzedFuzzy: bool): seq<seq<Event>> {
    match plan
    case Any(terms) => [Hits(terms, analyzed)]
    case All(terms) => [Hits(terms, analyzed)]
    case _ => t.occurrences(plan, analyzed, surface, analyzedFuzzy)
  }

  function Events(t: Tracer, plan: Plan, analyzed: seq<Token>, surface: seq<Token>, analyzedFuzzy: bool): seq<Event> {
    Flatten(Passes(t, plan, analyzed, surface, analyzedFuzzy))
  }

  /** Each pass inserts only its plan's own terms or its private mark. */
  ghost predicate Lawful(t: Tracer) {
    forall plan, analyzed, surface, analyzedFuzzy ::
      FindsOnly(plan, FoundIn(Flatten(t.occurrences(plan, analyzed, surface, analyzedFuzzy))))
  }

  lemma EventsAreLawful(t: Tracer, plan: Plan, analyzed: seq<Token>, surface: seq<Token>, analyzedFuzzy: bool)
    requires Lawful(t)
    ensures FindsOnly(plan, FoundIn(Events(t, plan, analyzed, surface, analyzedFuzzy)))
    ensures plan.Any? || plan.All? ==> Events(t, plan, analyzed, surface, analyzedFuzzy) == Hits(plan.terms, analyzed)
  {
    if plan.Any? || plan.All? {
      var pass := Hits(plan.terms, analyzed);
      assert [pass][..0] == [];
      assert Flatten([pass]) == pass;
    }
  }

  // ---- token sources ----

  /** The values of the selected fields, in record order. */
  function Values(fields: seq<(Text, seq<Text>)>, selected: set<Text>): seq<Value> {
    if fields == [] then []
    else
      var (field, texts) := fields[|fields| - 1];
      Values(fields[..|fields| - 1], selected) +
      (if field in selected then FieldValues(field, texts) else [])
  }

  datatype Analysis = Analysis(sources: seq<Source>, missing: set<Text>, left: nat)

  /** One more value of a selected field: skipped and marked missing, or tokenized as far as the record's allowance goes. */
  function Admit(t: Tracer, surfaceFields: set<Text>, a: Analysis, v: Value): Analysis {
    if |a.sources| >= MAX_TRACE_EXPRESSION_VALUES || (a.left == 0 && v.text != []) then
      a.(missing := a.missing + {v.field})
    else
      var stream := t.index(v.text);
      var kept: nat := Min(Min(|stream|, MAX_TRACE_TOKENS_PER_VALUE), a.left);
      var left: nat := a.left - kept;
      var exposed := t.surface(v.text);
      var shown: nat := if v.field in surfaceFields then Min(Min(|exposed|, MAX_TRACE_TOKENS_PER_VALUE), left) else 0;
      var hidden := v.field in surfaceFields && (if left == 0 then v.text != [] else shown < |exposed|);
      if kept == 0 && shown == 0 && kept == |stream| && !hidden then a.(left := left - shown)
      else
        Analysis(a.sources + [Source(v.field, v.index, stream[..kept], exposed[..shown], kept < |stream|, hidden)],
                 a.missing, left - shown)
  }

  function Analyze(t: Tracer, surfaceFields: set<Text>, vs: seq<Value>): Analysis {
    if vs == [] then Analysis([], {}, MAX_TRACE_EXPRESSION_TOKENS)
    else Admit(t, surfaceFields, Analyze(t, surfaceFields, vs[..|vs| - 1]), vs[|vs| - 1])
  }

  function FieldValues(field: Text, texts: seq<Text>): seq<Value> {
    seq(|texts|, i requires 0 <= i < |texts| => Value(field, i, texts[i]))
  }

  method AdmitField(t: Tracer, surfaceFields: set<Text>, ghost before: seq<Value>, field: Text, texts: seq<Text>, start: Analysis)
    returns (a: Analysis)
    requires start == Analyze(t, surfaceFields, before)
    ensures a == Analyze(t, surfaceFields, before + FieldValues(field, texts))
  {
    ghost var here := FieldValues(field, texts);
    a := start;
    var i := 0;
    assert before + here[..0] == before && here[..|here|] == here;
    while i < |texts|
      invariant i <= |texts|
      invariant a == Analyze(t, surfaceFields, before + here[..i])
    {
      hide Admit;
      ghost var next := before + here[..i + 1];
      assert next[..|next| - 1] == before + here[..i] && next[|next| - 1] == here[i];
      a := Admit(t, surfaceFields, a, Value(field, i, texts[i]));
      i := i + 1;
    }
  }

  method AnalyzeRecord(t: Tracer, surfaceFields: set<Text>, selected: set<Text>, record: Record) returns (a: Analysis)
    ensures a == Analyze(t, surfaceFields, Values(record.fields, selected))
  {
    a := Analysis([], {}, MAX_TRACE_EXPRESSION_TOKENS);
    var f := 0;
    while f < |record.fields|
      invariant f <= |record.fields|
      invariant a == Analyze(t, surfaceFields, Values(record.fields[..f], selected))
    {
      hide Analyze;
      var (field, texts) := record.fields[f];
      ghost var before := Values(record.fields[..f], selected);
      assert record.fields[..f + 1][..f] == record.fields[..f];
      if field in selected {
        a := AdmitField(t, surfaceFields, before, field, texts, a);
        assert Values(record.fields[..f + 1], selected) == before + FieldValues(field, texts);
      } else {
        assert before + [] == before;
      }
      f := f + 1;
    }
    assert record.fields[..f] == record.fields;
  }

  // ---- membership of the leaves ----

  function Cost(leaf: TracedLeaf, source: Source): nat {
    |source.analyzed| + if leaf.plan.NeedsSurface(leaf.analyzedFuzzy) then |source.surface| else 0
  }

  function FoundBy(t: Tracer, leaf: TracedLeaf, source: Source): set<Found> {
    FoundIn(Events(t, leaf.plan, source.analyzed, source.surface, leaf.analyzedFuzzy))
  }

  predicate Cut(leaf: TracedLeaf, source: Source) {
    source.analyzedTruncated || (leaf.plan.NeedsSurface(leaf.analyzedFuzzy) && source.surfaceTruncated)
  }

  datatype Judged = Judged(found: set<Found>, unknown: bool, work: nat, exhausted: bool)

  /** A leaf over the record's sources: a source it cannot afford leaves it unknown. */
  function Weigh(t: Tracer, leaf: TracedLeaf, sources: seq<Source>, start: Judged): (r: Judged)
    ensures r.work <= start.work
  {
    if sources == [] then start
    else
      var j, source := Weigh(t, leaf, sources[..|sources| - 1], start), sources[|sources| - 1];
      if source.field !in leaf.fields then j
      else if Cost(leaf, source) > j.work then Judged(j.found, true, j.work, true)
      else Judged(j.found + FoundBy(t, leaf, source), j.unknown || Cut(leaf, source), j.work - Cost(leaf, source), j.exhausted)
  }

  predicate MissesField(leaf: TracedLeaf, missing: set<Text>) { exists f :: f in leaf.fields && f in missing }

  function WeighLeaf(t: Tracer, leaf: TracedLeaf, a: Analysis, work: nat): Judged {
    Weigh(t, leaf, a.sources, Judged({}, MissesField(leaf, a.missing), work, false))
  }

  function Verdict(plan: Plan, found: set<Found>, unknown: bool): Truth {
    if plan.RecordMatches(found) then Some(true) else if unknown then None else Some(false)
  }

  datatype Panel = Panel(membership: seq<Truth>, known: bool, work: nat, exhausted: bool)

  function Judge(t: Tracer, leaves: seq<TracedLeaf>, a: Analysis, work: nat): (r: Panel)
    ensures |r.membership| == |leaves| && r.work <= work
  {
    if leaves == [] then Panel([], true, work, false)
    else
      var p, leaf := Judge(t, leaves[..|leaves| - 1], a, work), leaves[|leaves| - 1];
      var j := WeighLeaf(t, leaf, a, p.work);
      Panel(p.membership + [Verdict(leaf.plan, j.found, j.unknown)], p.known && !j.unknown, j.work, p.exhausted || j.exhausted)
  }

  ghost predicate ValidLeaf(leaf: TracedLeaf) { leaf.plan.DistinctTerms() }

  lemma {:induction false} WeighFindsOnly(t: Tracer, leaf: TracedLeaf, sources: seq<Source>, start: Judged)
    requires Lawful(t) && FindsOnly(leaf.plan, start.found)
    ensures FindsOnly(leaf.plan, Weigh(t, leaf, sources, start).found)
  {
    if sources != [] {
      var source := sources[|sources| - 1];
      WeighFindsOnly(t, leaf, sources[..|sources| - 1], start);
      EventsAreLawful(t, leaf.plan, source.analyzed, source.surface, leaf.analyzedFuzzy);
    }
  }

  /** The early exit of the token pass loses findings only once they cannot matter. */
  ghost predicate Stands(plan: Plan, found: set<Found>, whole: set<Found>) {
    found <= whole && (found == whole || plan.RecordMatches(found))
  }

  lemma StandsTogether(plan: Plan, found: set<Found>, whole: set<Found>, more: set<Found>, wholeMore: set<Found>)
    requires plan.DistinctTerms() && FindsOnly(plan, whole + wholeMore)
    requires Stands(plan, found, whole) && Stands(plan, more, wholeMore)
    ensures Stands(plan, found + more, whole + wholeMore)
  {
    if plan.RecordMatches(found) { MatchingIsMonotone(plan, found, found + more); }
    if plan.RecordMatches(more) { MatchingIsMonotone(plan, more, found + more); }
  }

  lemma StandsDecides(plan: Plan, found: set<Found>, whole: set<Found>)
    requires plan.DistinctTerms() && FindsOnly(plan, whole) && Stands(plan, found, whole)
    ensures plan.RecordMatches(found) <==> plan.RecordMatches(whole)
  {
    MatchingIsMonotone(plan, found, whole);
  }

  /** One leaf over all sources. A page that may defer the record gives up at the first source it cannot afford. */
  method JudgeLeaf(t: Tracer, leaf: TracedLeaf, a: Analysis, work: nat, mayDefer: bool)
    returns (deferred: bool, truth: Truth, unknown: bool, left: nat, exhausted: bool)
    requires Lawful(t) && ValidLeaf(leaf)
    ensures var j := WeighLeaf(t, leaf, a, work);
      && (deferred ==> mayDefer && j.exhausted)
      && (!deferred ==> truth == Verdict(leaf.plan, j.found, j.unknown) && unknown == j.unknown && left == j.work
                        && exhausted == j.exhausted && !(mayDefer && exhausted))
  {
    ghost var start := Judged({}, MissesField(leaf, a.missing), work, false);
    var found: set<Found> := {};
    unknown, left, exhausted := MissesField(leaf, a.missing), work, false;
    truth, deferred := None, false;
    var s := 0;
    while s < |a.sources|
      invariant s <= |a.sources|
      invariant var j := Weigh(t, leaf, a.sources[..s], start);
        && Stands(leaf.plan, found, j.found) && FindsOnly(leaf.plan, j.found)
        && unknown == j.unknown && left == j.work && exhausted == j.exhausted && !(mayDefer && exhausted)
    {
      var source := a.sources[s];
      assert a.sources[..s + 1][..s] == a.sources[..s];
      if source.field in leaf.fields {
        if Cost(leaf, source) > left {
          if mayDefer {
            ExhaustionStays(t, leaf, a.sources, start, s + 1);
            deferred := true;
            return;
          }
          exhausted, unknown := true, true;
        } else {
          left := left - Cost(leaf, source);
          EventsAreLawful(t, leaf.plan, source.analyzed, source.surface, leaf.analyzedFuzzy);
          var spans, terms, cut := TraceTokens(leaf.plan, Passes(t, leaf.plan, source.analyzed, source.surface, leaf.analyzedFuzzy), 0);
          StandsTogether(leaf.plan, found, Weigh(t, leaf, a.sources[..s], start).found, terms, FoundBy(t, leaf, source));
          found := found + terms;
          unknown := unknown || Cut(leaf, source);
        }
      }
      s := s + 1;
    }
    assert a.sources[..s] == a.sources;
    StandsDecides(leaf.plan, found, Weigh(t, leaf, a.sources, start).found);
    truth := Verdict(leaf.plan, found, unknown);
  }

  lemma {:induction false} ExhaustionStays(t: Tracer, leaf: TracedLeaf, sources: seq<Source>, start: Judged, n: nat)
    requires n <= |sources| && Weigh(t, leaf, sources[..n], start).exhausted
    ensures Weigh(t, leaf, sources, start).exhausted
  {
    if n == |sources| {
      assert sources[..n] == sources;
    } else {
      assert sources[..|sources| - 1][..n] == sources[..n];
      ExhaustionStays(t, leaf, sources[..|sources| - 1], start, n);
    }
  }

  /** All leaves of a record under the page's remaining work allowance. */
  method JudgeRecord(t: Tracer, leaves: seq<TracedLeaf>, a: Analysis, work: nat, mayDefer: bool)
    returns (deferred: bool, p: Panel)
    requires Lawful(t) && forall i :: 0 <= i < |leaves| ==> ValidLeaf(leaves[i])
    ensures deferred ==> mayDefer && Judge(t, leaves, a, work).exhausted
    ensures !deferred ==> p == Judge(t, leaves, a, work) && !(mayDefer && p.exhausted)
  {
    p := Panel([], true, work, false);
    deferred := false;
    var l := 0;
    while l < |leaves|
      invariant l <= |leaves|
      invariant p == Judge(t, leaves[..l], a, work) && !(mayDefer && p.exhausted)
    {
      assert leaves[..l + 1][..l] == leaves[..l];
      var gaveUp, truth, unknown, left, exhausted := JudgeLeaf(t, leaves[l], a, p.work, mayDefer);
      if gaveUp {
        PanelExhaustionStays(t, leaves, a, work, l + 1);
        deferred := true;
        return;
      }
      p := Panel(p.membership + [truth], p.known && !unknown, left, p.exhausted || exhausted);
      l := l + 1;
    }
    assert leaves[..l] == leaves;
  }

  lemma {:induction false} PanelExhaustionStays(t: Tracer, leaves: seq<TracedLeaf>, a: Analysis, work: nat, n: nat)
    requires n <= |leaves| && Judge(t, leaves[..n], a, work).exhausted
    ensures Judge(t, leaves, a, work).exhausted
  {
    if n == |leaves| {
      assert leaves[..n] == leaves;
    } else {
      assert leaves[..|leaves| - 1][..n] == leaves[..n];
      PanelExhaustionStays(t, leaves[..|leaves| - 1], a, work, n);
    }
  }

  // ---- more work never changes an unexhausted judgement ----

  lemma {:induction false} WeighMoreWork(t: Tracer, leaf: TracedLeaf, sources: seq<Source>, start: Judged, extra: nat)
    requires !Weigh(t, leaf, sources, start).exhausted
    ensures Weigh(t, leaf, sources, start.(work := start.work + extra))
      == Weigh(t, leaf, sources, start).(work := Weigh(t, leaf, sources, start).work + extra)
  {
    if sources != [] {
      WeighMoreWork(t, leaf, sources[..|sources| - 1], start, extra);
    }
  }

  /** A record judged within its page's remaining work is judged the same with any larger allowance. */
  lemma {:induction false} JudgeMoreWork(t: Tracer, leaves: seq<TracedLeaf>, a: Analysis, work: nat, extra: nat)
    requires !Judge(t, leaves, a, work).exhausted
    ensures Judge(t, leaves, a, work + extra) == Judge(t, leaves, a, work).(work := Judge(t, leaves, a, work).work + extra)
  {
    if leaves != [] {
      var front, leaf := leaves[..|leaves| - 1], leaves[|leaves| - 1];
      JudgeMoreWork(t, front, a, work, extra);
      var p := Judge(t, front, a, work);
      WeighMoreWork(t, leaf, a.sources, Judged({}, MissesField(leaf, a.missing), p.work, false), extra);
    }
  }

  // ---- decided leaves are right about the whole record ----

  /** What a bag-of-terms leaf finds when nothing is cut off. */
  function Whole(t: Tracer, leaf: TracedLeaf, vs: seq<Value>): set<Found>
    requires leaf.plan.Any? || leaf.plan.All?
  {
    if vs == [] then {}
    else
      var v := vs[|vs| - 1];
      Whole(t, leaf, vs[..|vs| - 1])
      + if v.field in leaf.fields then FoundIn(Hits(leaf.plan.terms, t.index(v.text))) else {}
  }

  lemma {:induction false} WholeFindsOnly(t: Tracer, leaf: TracedLeaf, vs: seq<Value>)
    requires leaf.plan.Any? || leaf.plan.All?
    ensures FindsOnly(leaf.plan, Whole(t, leaf, vs))
  {
    if vs != [] { WholeFindsOnly(t, leaf, vs[..|vs| - 1]); }
  }

  lemma HitsOfPrefix(terms: seq<Text>, tokens: seq<Token>, n: nat)
    requires n <= |tokens|
    ensures FoundIn(Hits(terms, tokens[..n])) <= FoundIn(Hits(terms, tokens))
  {
    forall f | f in FoundIn(Hits(terms, tokens[..n])) ensures f in FoundIn(Hits(terms, tokens)) {
      assert f == Term(f.text);
      var k :| 0 <= k < n && tokens[..n][k].text == f.text;
      assert tokens[k].text == f.text;
    }
  }

  /** What is found is really there; and nothing is missed unless the leaf is marked unknown. */
  lemma {:induction false} WeighIsHonest(t: Tracer, leaf: TracedLeaf, surfaceFields: set<Text>, vs: seq<Value>, work: nat)
    requires Lawful(t) && (leaf.plan.Any? || leaf.plan.All?)
    ensures var j := WeighLeaf(t, leaf, Analyze(t, surfaceFields, vs), work);
      && j.found <= Whole(t, leaf, vs)
      && (!j.unknown ==> j.found == Whole(t, leaf, vs))
  {
    if vs != [] {
      var front, v := vs[..|vs| - 1], vs[|vs| - 1];
      WeighIsHonest(t, leaf, surfaceFields, front, work);
      var a, b := Analyze(t, surfaceFields, front), Analyze(t, surfaceFields, vs);
      if b.sources == a.sources {
        AdmitWithoutSource(t, leaf, surfaceFields, a, v);
        WeighMissing(t, leaf, a.sources, work, MissesField(leaf, a.missing), MissesField(leaf, b.missing));
      } else {
        var source := b.sources[|a.sources|];
        assert b.sources[..|b.sources| - 1] == a.sources && b.missing == a.missing;
        if v.field in leaf.fields {
          EventsAreLawful(t, leaf.plan, source.analyzed, source.surface, leaf.analyzedFuzzy);
          HitsOfPrefix(leaf.plan.terms, t.index(v.text), |source.analyzed|);
          assert !source.analyzedTruncated ==> source.analyzed == t.index(v.text);
        }
      }
    }
  }

  lemma AdmitWithoutSource(t: Tracer, leaf: TracedLeaf, surfaceFields: set<Text>, a: Analysis, v: Value)
    requires leaf.plan.Any? || leaf.plan.All?
    requires Admit(t, surfaceFields, a, v).sources == a.sources
    ensures var b := Admit(t, surfaceFields, a, v);
      || b.missing == a.missing + {v.field}
      || (b.missing == a.missing && FoundIn(Hits(leaf.plan.terms, t.index(v.text))) == {})
  {
  }

  lemma {:induction false} WeighMissing(t: Tracer, leaf: TracedLeaf, sources: seq<Source>, work: nat, before: bool, after: bool)
    requires before ==> after
    ensures var a, b := Weigh(t, leaf, sources, Judged({}, before, work, false)), Weigh(t, leaf, sources, Judged({}, after, work, false));
      a.found == b.found && (b.unknown <==> a.unknown || after) && a.work == b.work && a.exhausted == b.exhausted
  {
    if sources != [] { WeighMissing(t, leaf, sources[..|sources| - 1], work, before, after); }
  }

  /** Whatever was cut off or skipped, a decided leaf agrees with the whole record. */
  lemma DecidedLeafIsTrue(t: Tracer, leaf: TracedLeaf, surfaceFields: set<Text>, vs: seq<Value>, work: nat)
    requires Lawful(t) && ValidLeaf(leaf) && (leaf.plan.Any? || leaf.plan.All?)
    ensures var j := WeighLeaf(t, leaf, Analyze(t, surfaceFields, vs), work);
      var truth := Verdict(leaf.plan, j.found, j.unknown);
      && (truth.Some? ==> truth.value == leaf.plan.RecordMatches(Whole(t, leaf, vs)))
      && (!j.unknown ==> truth.Some?)
  {
    WeighIsHonest(t, leaf, surfaceFields, vs, work);
    WholeFindsOnly(t, leaf, vs);
    MatchingIsMonotone(leaf.plan, WeighLeaf(t, leaf, Analyze(t, surfaceFields, vs), work).found, Whole(t, leaf, vs));
  }
}
