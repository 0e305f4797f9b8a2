/**
 Recoverable tracing: one page walks the records in order under shared work, span and byte allowances and stops
 before the first later record it cannot finish. What a page says about a record depends on that record alone.
 */
module TracePage {
  import opened Wrappers
  import opened TracePlan
  import opened TraceRecord
  import opened TraceExpression
  import opened TraceSpans

  const MAX_TRACE_SPANS := 1024
  const MAX_TRACE_RECORDS := 100
  const MAX_RECORD_ID_BYTES := 4096
  const MAX_TRACE_WORK_TOKENS := 8388608
  const MAX_SEARCH_RESPONSE_BYTES := 8388608

  datatype State = State(membership: Truth, analysisComplete: bool, spansComplete: bool)

  datatype Match = Match(id: Text, values: seq<Pending>)

  /** The next record is the one after the recorded states. */
  datatype Page = Page(complete: bool, matches: seq<Match>, states: seq<State>)

  datatype Error = UnknownField

  /** A prepared search: one clause with its selected fields, or an expression over leaves. */
  datatype Search =
    | ClauseSearch(plan: Plan, selected: set<Text>)
    | ExpressionSearch(expression: Traced, leaves: seq<TracedLeaf>)
  {
    ghost predicate Valid() {
      match this
      case ClauseSearch(plan, _) => plan.DistinctTerms()
      case ExpressionSearch(expression, leaves) =>
        Within(expression, |leaves|) && forall i :: 0 <= i < |leaves| ==> ValidLeaf(leaves[i])
    }
  }

  function FieldsOf(leaves: seq<TracedLeaf>): set<Text> {
    set i, f | 0 <= i < |leaves| && f in leaves[i].fields :: f
  }

  function SurfaceFieldsOf(leaves: seq<TracedLeaf>): set<Text> {
    set i, f | 0 <= i < |leaves| && leaves[i].plan.NeedsSurface(leaves[i].analyzedFuzzy) && f in leaves[i].fields :: f
  }

  // ---- a clause on one record ----

  function Kept(stream: seq<Token>): seq<Token> { stream[..Min(|stream|, MAX_TRACE_TOKENS_PER_VALUE)] }

  function ValueEvents(t: Tracer, plan: Plan, v: Value): seq<Event> {
    Events(t, plan, Kept(t.index(v.text)), if plan.NeedsSurface(false) then Kept(t.surface(v.text)) else [], false)
  }

  predicate ValueCut(t: Tracer, plan: Plan, v: Value) {
    || |t.index(v.text)| > MAX_TRACE_TOKENS_PER_VALUE
    || (plan.NeedsSurface(false) && |t.surface(v.text)| > MAX_TRACE_TOKENS_PER_VALUE)
  }

  datatype Summary = Summary(found: set<Found>, cut: bool, report: seq<Pending>)

  function Extend(s: Summary, v: Value, events: seq<Event>, cut: bool): (r: Summary)
    ensures AllNonempty(s.report) ==> AllNonempty(r.report)
  {
    var spans := Sorted(SpansOf(events));
    Summary(s.found + FoundIn(events), s.cut || cut, if spans == [] then s.report else s.report + [Pending(v.field, v.index, spans)])
  }

  /** Everything the values say when no allowance is shared. */
  function Summarize(t: Tracer, plan: Plan, vs: seq<Value>): (r: Summary)
    ensures AllNonempty(r.report)
  {
    if vs == [] then Summary({}, false, [])
    else
      var s, v := Summarize(t, plan, vs[..|vs| - 1]), vs[|vs| - 1];
      Extend(s, v, ValueEvents(t, plan, v), ValueCut(t, plan, v))
  }

  method TraceValue(t: Tracer, plan: Plan, v: Value, max: nat) returns (spans: seq<Span>, found: set<Found>, truncated: bool, cut: bool)
    requires Lawful(t) && plan.DistinctTerms()
    ensures var events := ValueEvents(t, plan, v);
      && FindsOnly(plan, FoundIn(events)) && Stands(plan, found, FoundIn(events))
      && cut == ValueCut(t, plan, v)
      && (truncated <==> |SpansOf(events)| > max)
      && |spans| == Min(|SpansOf(events)|, max)
      && AsSet(spans) <= AsSet(Sorted(SpansOf(events)))
      && (!truncated ==> spans == Sorted(SpansOf(events)))
  {
    var analyzed, analyzedTruncated := SourceTokens(t.index(v.text));
    var surface: seq<Token>, surfaceTruncated := [], false;
    if plan.NeedsSurface(false) {
      surface, surfaceTruncated := SourceTokens(t.surface(v.text));
    }
    cut := analyzedTruncated || surfaceTruncated;
    EventsAreLawful(t, plan, analyzed, surface, false);
    spans, found, truncated := TraceTokens(plan, Passes(t, plan, analyzed, surface, false), max);
    ghost var all := SpansOf(ValueEvents(t, plan, v));
    SortedSet(all);
    SortedSet(all[..Min(max, |all|)]);
    assert !truncated ==> all[..Min(max, |all|)] == all;
  }

  /** The examined values against their summary: exact until the shared spans run out, and never false. */
  ghost predicate Examined(plan: Plan, s: Summary, found: set<Found>, pending: seq<Pending>, truncated: bool, left: nat, allowance: nat) {
    && FindsOnly(plan, s.found) && Stands(plan, found, s.found)
    && (if truncated then SpansIn(s.report) > allowance else pending == s.report && left == allowance - SpansIn(s.report))
    && AllNonempty(pending) && AllClip(pending, s.report)
  }

  lemma ExaminedStep(plan: Plan, s: Summary, events: seq<Event>, cut: bool, found: set<Found>, terms: set<Found>, pending: seq<Pending>,
                     truncated: bool, v: Value, spans: seq<Span>, left: nat, allowance: nat, over: bool)
    requires plan.DistinctTerms() && FindsOnly(plan, FoundIn(events)) && AllNonempty(s.report)
    requires Examined(plan, s, found, pending, truncated, left, allowance) && Stands(plan, terms, FoundIn(events))
    requires var all := Sorted(SpansOf(events));
      (over <==> |all| > left) && |spans| == Min(|all|, left) && AsSet(spans) <= AsSet(all) && (!over ==> spans == all)
    ensures Examined(plan, Extend(s, v, events, cut), found + terms,
                     if spans == [] then pending else pending + [Pending(v.field, v.index, spans)], truncated || over, left - |spans|, allowance)
  {
    var all := Sorted(SpansOf(events));
    StandsTogether(plan, found, s.found, terms, FoundIn(events));
    if all != [] {
      var whole := Pending(v.field, v.index, all);
      AppendPending(s.report, whole);
      WiderClips(pending, s.report, whole);
      if spans != [] {
        ClipMore(pending, Pending(v.field, v.index, spans), s.report + [whole], |s.report|);
      }
    }
  }

  lemma SortedLength(events: seq<Event>)
    ensures |Sorted(SpansOf(events))| == |SpansOf(events)|
  {
  }

  /** A clause over a record's values with the spans the page has left. */
  method ExamineClause(t: Tracer, plan: Plan, vs: seq<Value>, allowance: nat)
    returns (pending: seq<Pending>, matched: bool, truncated: bool, cut: bool)
    requires Lawful(t) && plan.DistinctTerms()
    ensures var s := Summarize(t, plan, vs);
      && (matched <==> plan.RecordMatches(s.found)) && cut == s.cut
      && (truncated <==> SpansIn(s.report) > allowance)
      && (!truncated ==> pending == s.report)
      && AllNonempty(pending) && AllClip(pending, s.report)
  {
    hide Examined, ValueEvents, ValueCut, FindsOnly, Stands, AsSet, Sorted, SpansOf, FoundIn, Extend, AllClip, AllNonempty, SpansIn;
    pending, truncated, cut := [], false, false;
    var found: set<Found> := {};
    var left: nat := allowance;
    var k := 0;
    ExaminedNothing(plan, allowance);
    while k < |vs|
      invariant k <= |vs|
      invariant cut == Summarize(t, plan, vs[..k]).cut
      invariant Examined(plan, Summarize(t, plan, vs[..k]), found, pending, truncated, left, allowance)
    {
      var v := vs[k];
      assert vs[..k + 1][..k] == vs[..k];
      var spans, terms, over, shortened := TraceValue(t, plan, v, left);
      SortedLength(ValueEvents(t, plan, v));
      ExaminedStep(plan, Summarize(t, plan, vs[..k]), ValueEvents(t, plan, v), shortened, found, terms, pending, truncated, v, spans,
                   left, allowance, over);
      found := found + terms;
      cut := cut || shortened;
      truncated := truncated || over;
      if spans != [] {
        pending := pending + [Pending(v.field, v.index, spans)];
      }
      left := left - |spans|;
      assert cut == Summarize(t, plan, vs[..k + 1]).cut by { ExtendCut(Summarize(t, plan, vs[..k]), v, ValueEvents(t, plan, v), shortened); }
      k := k + 1;
    }
    assert vs[..k] == vs;
    ExaminedDecides(plan, Summarize(t, plan, vs), found, pending, truncated, left, allowance);
    matched := plan.RecordMatches(found);
  }

  lemma ExtendCut(s: Summary, v: Value, events: seq<Event>, cut: bool)
    ensures Extend(s, v, events, cut).cut == (s.cut || cut)
  {
  }

  lemma ExaminedNothing(plan: Plan, allowance: nat)
    ensures Examined(plan, Summary({}, false, []), {}, [], false, allowance, allowance)
  {
  }

  lemma ExaminedDecides(plan: Plan, s: Summary, found: set<Found>, pending: seq<Pending>, truncated: bool, left: nat, allowance: nat)
    requires plan.DistinctTerms() && Examined(plan, s, found, pending, truncated, left, allowance)
    ensures plan.RecordMatches(found) <==> plan.RecordMatches(s.found)
    ensures truncated <==> SpansIn(s.report) > allowance
    ensures !truncated ==> pending == s.report
    ensures AllNonempty(pending) && AllClip(pending, s.report)
  {
    StandsDecides(plan, found, s.found);
  }

  // ---- what a record says on its own ----

  datatype Budget = Budget(work: nat, spans: nat, bytes: nat) {
    predicate AtMost(other: Budget) { work <= other.work && spans <= other.spans && bytes <= other.bytes }
  }

  /** What a page of n records starts with; each record's state takes one byte of the response. */
  function Initial(n: nat): Budget
    requires n <= MAX_TRACE_RECORDS
  {
    Budget(MAX_TRACE_WORK_TOKENS, MAX_TRACE_SPANS, MAX_SEARCH_RESPONSE_BYTES - 3 - 2 - n)
  }

  function SourcesOf(t: Tracer, leaves: seq<TracedLeaf>, record: Record): Analysis {
    Analyze(t, SurfaceFieldsOf(leaves), Values(record.fields, FieldsOf(leaves)))
  }

  function CreditedBy(expression: Traced, membership: seq<Truth>): (r: seq<nat>)
    requires Within(expression, |membership|)
    ensures forall i :: 0 <= i < |r| ==> r[i] < |membership|
  {
    var leaves := Evaluate(expression, membership).leaves;
    assert forall i :: 0 <= i < |leaves| ==> leaves[i] < |membership| by {
      forall i | 0 <= i < |leaves| ensures leaves[i] < |membership| {
        CreditedLeavesAreMembers(expression, membership, leaves[i]);
      }
    }
    leaves
  }

  /** The verdict and whether nothing was cut off, with a whole page's work for this record alone. */
  ghost function Judgement(t: Tracer, search: Search, record: Record): (Truth, bool)
    requires search.Valid()
  {
    match search
    case ClauseSearch(plan, selected) =>
      var s := Summarize(t, plan, Values(record.fields, selected));
      (Verdict(plan, s.found, s.cut), !s.cut)
    case ExpressionSearch(expression, leaves) =>
      var p := Judge(t, leaves, SourcesOf(t, leaves, record), MAX_TRACE_WORK_TOKENS);
      (Evaluate(expression, p.membership).matched, p.known)
  }

  ghost function CreditOf(t: Tracer, expression: Traced, leaves: seq<TracedLeaf>, record: Record): Tally
    requires Within(expression, |leaves|)
  {
    var a := SourcesOf(t, leaves, record);
    Credit(t, leaves, CreditedBy(expression, Judge(t, leaves, a, MAX_TRACE_WORK_TOKENS).membership), a.sources)
  }

  /** Every span the record is credited with. */
  ghost function FullReport(t: Tracer, search: Search, record: Record): seq<Pending>
    requires search.Valid()
  {
    match search
    case ClauseSearch(plan, selected) => Summarize(t, plan, Values(record.fields, selected)).report
    case ExpressionSearch(expression, leaves) =>
      Report(SourcesOf(t, leaves, record).sources, CreditOf(t, expression, leaves, record).entries)
  }

  /** The record can be finished with this budget. */
  ghost predicate Affordable(t: Tracer, search: Search, record: Record, b: Budget)
    requires search.Valid()
  {
    match search
    case ClauseSearch(_, _) =>
      Judgement(t, search, record).0 == Some(true) ==> Fits(record.id, FullReport(t, search, record), b.spans, b.bytes)
    case ExpressionSearch(expression, leaves) =>
      var p := Judge(t, leaves, SourcesOf(t, leaves, record), b.work);
      && !p.exhausted
      && (Judgement(t, search, record).0 == Some(true) ==>
            CreditOf(t, expression, leaves, record).cost <= p.work && Fits(record.id, FullReport(t, search, record), b.spans, b.bytes))
  }

  /** What a record that can be afforded leaves of a budget: less the work of judging it and of finding its spans, and less
      the spans and bytes of its match. */
  ghost function Spent(t: Tracer, search: Search, record: Record, b: Budget): Budget
    requires search.Valid()
  {
    var matched := Judgement(t, search, record).0 == Some(true);
    var full := FullReport(t, search, record);
    var spans: nat, bytes: nat :=
      if matched then Max(b.spans - SpansIn(full), 0) else b.spans,
      if matched then Max(b.bytes - RecordBytes(record.id, full), 0) else b.bytes;
    match search
    case ClauseSearch(_, _) => Budget(b.work, spans, bytes)
    case ExpressionSearch(expression, leaves) =>
      var work := Judge(t, leaves, SourcesOf(t, leaves, record), b.work).work;
      Budget(if matched then Max(work - CreditOf(t, expression, leaves, record).cost, 0) else work, spans, bytes)
  }

  lemma AffordableWithMore(t: Tracer, search: Search, record: Record, less: Budget, more: Budget)
    requires search.Valid() && less.AtMost(more)
    ensures Affordable(t, search, record, less) ==> Affordable(t, search, record, more)
  {
    if search.ExpressionSearch? && Affordable(t, search, record, less) {
      JudgeMoreWork(t, search.leaves, SourcesOf(t, search.leaves, record), less.work, more.work - less.work);
    }
  }

  predicate Excluded(candidates: Option<set<Text>>, record: Record) { candidates.Some? && record.id !in candidates.value }

  /** The state of a record in any page of n records that reaches it. */
  ghost function StateOf(t: Tracer, search: Search, candidates: Option<set<Text>>, record: Record, n: nat): State
    requires search.Valid() && n <= MAX_TRACE_RECORDS
  {
    if Excluded(candidates, record) then State(Some(false), true, true)
    else
      var (membership, known) := Judgement(t, search, record);
      State(membership, known, known && Affordable(t, search, record, Initial(n)))
  }

  /** A match of a record: everything it is credited with, unless even a fresh page could not afford that. */
  ghost predicate MatchOf(t: Tracer, search: Search, record: Record, n: nat, m: Match)
    requires search.Valid() && n <= MAX_TRACE_RECORDS
  {
    && m.id == record.id
    && AllClip(m.values, FullReport(t, search, record))
    && (Affordable(t, search, record, Initial(n)) ==> m.values == FullReport(t, search, record))
  }

  /** The matches are those of the records whose membership is known true, in order. */
  ghost predicate Aligned(t: Tracer, search: Search, records: seq<Record>, states: seq<State>, matches: seq<Match>, n: nat)
    requires search.Valid() && n <= MAX_TRACE_RECORDS && |records| == |states|
  {
    if states == [] then matches == []
    else
      var k := |states| - 1;
      if states[k].membership == Some(true) then
        && matches != [] && MatchOf(t, search, records[k], n, matches[|matches| - 1])
        && Aligned(t, search, records[..k], states[..k], matches[..|matches| - 1], n)
      else Aligned(t, search, records[..k], states[..k], matches, n)
  }

  predicate Finished(s: State) { s.analysisComplete && s.spansComplete }

  predicate AllFinished(states: seq<State>) { forall k :: 0 <= k < |states| ==> Finished(states[k]) }

  function ResponseBytes(matches: seq<Match>): nat {
    if matches == [] then 0
    else ResponseBytes(matches[..|matches| - 1]) + RecordBytes(matches[|matches| - 1].id, matches[|matches| - 1].values)
  }

  /** The page so far: every consumed record has its own state, whatever was traced before it. */
  ghost predicate PageSoFar(t: Tracer, search: Search, candidates: Option<set<Text>>, records: seq<Record>,
                            matches: seq<Match>, states: seq<State>)
    requires search.Valid() && |records| <= MAX_TRACE_RECORDS
  {
    && |states| <= |records|
    && (forall k :: 0 <= k < |states| ==> states[k] == StateOf(t, search, candidates, records[k], |records|))
    && (forall k :: 0 < k < |states| ==>
          Excluded(candidates, records[k]) || Affordable(t, search, records[k], Initial(|records|)))
    && Aligned(t, search, records[..|states|], states, matches, |records|)
    && ResponseBytes(matches) <= Initial(|records|).bytes
  }

  /** What the first k records leave of a page's budget, if each can be afforded. */
  ghost function LeftAfter(t: Tracer, search: Search, candidates: Option<set<Text>>, records: seq<Record>, k: nat): Budget
    requires search.Valid() && k <= |records| <= MAX_TRACE_RECORDS
  {
    if k == 0 then Initial(|records|)
    else
      var before := LeftAfter(t, search, candidates, records, k - 1);
      if Excluded(candidates, records[k - 1]) then before else Spent(t, search, records[k - 1], before)
  }

  /** The k-th record can be traced with what those before it leave. */
  ghost predicate Goes(t: Tracer, search: Search, candidates: Option<set<Text>>, records: seq<Record>, k: nat)
    requires search.Valid() && k < |records| <= MAX_TRACE_RECORDS
  {
    Excluded(candidates, records[k]) || Affordable(t, search, records[k], LeftAfter(t, search, candidates, records, k))
  }

  /** A page takes records as long as each can be traced with what those before it leave, and no longer; the first it takes
      in any case, and none after it if that one could not be afforded. */
  ghost predicate StopsAt(t: Tracer, search: Search, candidates: Option<set<Text>>, records: seq<Record>, count: nat)
    requires search.Valid() && |records| <= MAX_TRACE_RECORDS
  {
    && count <= |records| && (records != [] ==> count > 0)
    && (count > 1 ==> Goes(t, search, candidates, records, 0))
    && (forall k :: 0 < k < count ==> Goes(t, search, candidates, records, k))
    && (0 < count < |records| ==> !Goes(t, search, candidates, records, 0) || !Goes(t, search, candidates, records, count))
  }

  /** The contract of one recoverable page. */
  ghost predicate PageOf(t: Tracer, search: Search, candidates: Option<set<Text>>, records: seq<Record>, page: Page)
    requires search.Valid() && |records| <= MAX_TRACE_RECORDS
  {
    && PageSoFar(t, search, candidates, records, page.matches, page.states)
    && (records != [] ==> page.states != [])
    && (page.complete <==> |page.states| == |records| && AllFinished(page.states))
  }

  lemma Consume(t: Tracer, search: Search, candidates: Option<set<Text>>, records: seq<Record>, matches: seq<Match>, states: seq<State>,
                state: State, found: Option<Match>)
    requires search.Valid() && |states| < |records| <= MAX_TRACE_RECORDS
    requires PageSoFar(t, search, candidates, records, matches, states)
    requires var record := records[|states|];
      && state == StateOf(t, search, candidates, record, |records|)
      && (|states| > 0 ==> Excluded(candidates, record) || Affordable(t, search, record, Initial(|records|)))
      && (found.Some? <==> state.membership == Some(true))
      && (found.Some? ==> MatchOf(t, search, record, |records|, found.value))
    requires found.Some? ==> ResponseBytes(matches) + RecordBytes(found.value.id, found.value.values) <= Initial(|records|).bytes
    ensures PageSoFar(t, search, candidates, records, if found.Some? then matches + [found.value] else matches, states + [state])
  {
    hide StateOf, Affordable, MatchOf;
    var k := |states|;
    assert (states + [state])[..k] == states && records[..k + 1][..k] == records[..k];
    if found.Some? { assert (matches + [found.value])[..|matches|] == matches; }
  }

  lemma FinishedSoFar(states: seq<State>, state: State)
    ensures AllFinished(states + [state]) <==> AllFinished(states) && Finished(state)
  {
    if AllFinished(states + [state]) {
      forall k | 0 <= k < |states| ensures Finished(states[k]) { assert (states + [state])[k] == states[k]; }
      assert (states + [state])[|states|] == state;
    }
  }

  // ---- one record of a page ----

  /** What tracing one record did: put off, or consumed with its state, its match and the budget left. */
  datatype Step = Deferred | Consumed(state: State, found: Option<Match>, left: Budget, exhausted: bool, complete: bool)

  /** A consumed record has the state and match it has on its own; only the first record of a page may exhaust it. */
  ghost predicate StepOf(t: Tracer, search: Search, record: Record, n: nat, b: Budget, first: bool, step: Step)
    requires search.Valid() && n <= MAX_TRACE_RECORDS
  {
    match step
    case Deferred => !first && !Affordable(t, search, record, b)
    case Consumed(state, found, left, exhausted, complete) =>
      && state == StateOf(t, search, None, record, n)
      && (complete <==> Finished(state))
      && (exhausted ==> first) && (exhausted <==> !Affordable(t, search, record, b))
      && (!exhausted ==> left == Spent(t, search, record, b))
      && (!first ==> Affordable(t, search, record, Initial(n)))
      && (found.Some? <==> state.membership == Some(true))
      && (found.Some? ==> MatchOf(t, search, record, n, found.value))
      && left.AtMost(b)
      && (left.bytes + (if found.Some? then RecordBytes(found.value.id, found.value.values) else 0) == b.bytes)
  }

  method ClauseRecord(t: Tracer, plan: Plan, selected: set<Text>, record: Record, n: nat, b: Budget, first: bool) returns (step: Step)
    requires Lawful(t) && plan.DistinctTerms() && n <= MAX_TRACE_RECORDS && |record.id| <= MAX_RECORD_ID_BYTES
    requires b.AtMost(Initial(n)) && (first ==> b == Initial(n))
    ensures StepOf(t, ClauseSearch(plan, selected), record, n, b, first, step)
  {
    hide Affordable, Judgement, FullReport, Spent, Summarize, Values, AllClip, AllNonempty, SpansIn;
    ghost var search := ClauseSearch(plan, selected);
    ghost var s := Summarize(t, plan, Values(record.fields, selected));
    ClauseSays(t, plan, selected, record, b);
    ClauseSays(t, plan, selected, record, Initial(n));
    AffordableWithMore(t, search, record, b, Initial(n));
    var pending, matched, truncated, cut := ExamineClause(t, plan, Values(record.fields, selected), b.spans);
    if !matched {
      return Consumed(State(if cut then None else Some(false), !cut, !cut), None, b, false, !cut);
    }
    var values, used, bytes, clipped := Emit(record.id, pending, b.spans, b.bytes);
    ClipsChain(values, pending, s.report);
    var exhausted := truncated || clipped || bytes > b.bytes;
    assert exhausted <==> !Fits(record.id, s.report, b.spans, b.bytes);
    if exhausted && !first { return Deferred; }
    step := Consumed(State(Some(true), !cut, !cut && !exhausted), Some(Match(record.id, values)),
                     Budget(b.work, b.spans - used, Max(b.bytes - bytes, 0)), exhausted, !cut && !truncated && !clipped);
  }

  /** What a clause says of a record, in terms of what its values say. */
  lemma ClauseSays(t: Tracer, plan: Plan, selected: set<Text>, record: Record, b: Budget)
    requires plan.DistinctTerms()
    ensures var search := ClauseSearch(plan, selected);
      var s := Summarize(t, plan, Values(record.fields, selected));
      var matched := plan.RecordMatches(s.found);
      && FullReport(t, search, record) == s.report
      && Judgement(t, search, record) == (if matched then Some(true) else if s.cut then None else Some(false), !s.cut)
      && (Affordable(t, search, record, b) <==> (matched ==> Fits(record.id, s.report, b.spans, b.bytes)))
      && Spent(t, search, record, b) == (if matched
           then Budget(b.work, Max(b.spans - SpansIn(s.report), 0), Max(b.bytes - RecordBytes(record.id, s.report), 0)) else b)
  {
    hide Summarize, Values, SpansIn, BytesOf, RecordBytes, Fits;
  }

  lemma {:induction false} ExhaustedIsUnknown(t: Tracer, leaves: seq<TracedLeaf>, a: Analysis, work: nat)
    ensures Judge(t, leaves, a, work).exhausted ==> !Judge(t, leaves, a, work).known
  {
    if leaves != [] {
      ExhaustedIsUnknown(t, leaves[..|leaves| - 1], a, work);
      var p, leaf := Judge(t, leaves[..|leaves| - 1], a, work), leaves[|leaves| - 1];
      UnaffordedIsUnknown(t, leaf, a.sources, Judged({}, MissesField(leaf, a.missing), p.work, false));
    }
  }

  lemma {:induction false} UnaffordedIsUnknown(t: Tracer, leaf: TracedLeaf, sources: seq<Source>, start: Judged)
    requires start.exhausted ==> start.unknown
    ensures Weigh(t, leaf, sources, start).exhausted ==> Weigh(t, leaf, sources, start).unknown
  {
    if sources != [] { UnaffordedIsUnknown(t, leaf, sources[..|sources| - 1], start); }
  }

  method ExpressionRecord(t: Tracer, expression: Traced, leaves: seq<TracedLeaf>, record: Record, n: nat, b: Budget, first: bool)
    returns (step: Step)
    requires Lawful(t) && ExpressionSearch(expression, leaves).Valid() && n <= MAX_TRACE_RECORDS && |record.id| <= MAX_RECORD_ID_BYTES
    requires b.AtMost(Initial(n)) && (first ==> b == Initial(n))
    ensures StepOf(t, ExpressionSearch(expression, leaves), record, n, b, first, step)
  {
    hide Fits, Evaluate, Within, Judge, Report, Credit, AllClip;
    ghost var search := ExpressionSearch(expression, leaves);
    var a := AnalyzeRecord(t, SurfaceFieldsOf(leaves), FieldsOf(leaves), record);
    ghost var own := Judge(t, leaves, a, MAX_TRACE_WORK_TOKENS);
    AffordableWithMore(t, search, record, b, Initial(n));
    ExhaustedIsUnknown(t, leaves, a, MAX_TRACE_WORK_TOKENS);
    var putOff, p := JudgeRecord(t, leaves, a, b.work, !first);
    if putOff { return Deferred; }
    if !first { JudgeMoreWork(t, leaves, a, b.work, MAX_TRACE_WORK_TOKENS - b.work); }
    assert p.membership == own.membership && p.known == own.known;
    var decision := Evaluate(expression, p.membership);
    if decision.matched != Some(true) {
      return Consumed(State(decision.matched, p.known, p.known), None, Budget(p.work, b.spans, b.bytes), p.exhausted, p.known);
    }
    step := SpanStep(t, expression, leaves, record, a, p, n, b, first);
  }

  method SpanStep(t: Tracer, expression: Traced, leaves: seq<TracedLeaf>, record: Record, a: Analysis, p: Panel, n: nat, b: Budget, first: bool)
    returns (step: Step)
    requires Lawful(t) && ExpressionSearch(expression, leaves).Valid() && n <= MAX_TRACE_RECORDS && |record.id| <= MAX_RECORD_ID_BYTES
    requires b.AtMost(Initial(n)) && (first ==> b == Initial(n))
    requires a == SourcesOf(t, leaves, record) && p == Judge(t, leaves, a, b.work) && (!first ==> !p.exhausted)
    requires var own := Judge(t, leaves, a, MAX_TRACE_WORK_TOKENS); p.membership == own.membership && p.known == own.known
    requires Evaluate(expression, p.membership).matched == Some(true) && (p.exhausted ==> !p.known)
    ensures StepOf(t, ExpressionSearch(expression, leaves), record, n, b, first, step)
  {
    hide Evaluate, Within, Judge, Report, Credit, AllClip, Overspends;
    ghost var search := ExpressionSearch(expression, leaves);
    ghost var whole := CreditOf(t, expression, leaves, record);
    ghost var full := FullReport(t, search, record);
    AffordableWithMore(t, search, record, b, Initial(n));
    var deferred, entries, workLeft, spansLeft, exhausted :=
      CreditRecord(t, leaves, CreditedBy(expression, p.membership), a.sources, p.work, b.spans, !first);
    ReportTotals(a.sources, whole.entries);
    if deferred {
      Unaffordable(whole, p.work, b, record.id, full);
      return Deferred;
    }
    AccountsSpans(whole, p.work, b, entries, workLeft, spansLeft, exhausted);
    ReportTotals(a.sources, entries);
    ReportClips(a.sources, entries, whole.entries);
    var values, used, bytes, clipped := Emit(record.id, Report(a.sources, entries), b.spans, b.bytes);
    ClipsChain(values, Report(a.sources, entries), full);
    exhausted := exhausted || clipped || bytes > b.bytes;
    if !exhausted {
      assert Affordable(t, search, record, b) <==> !p.exhausted;
    } else {
      assert !Affordable(t, search, record, b) by {
        if Overspends(whole, p.work, b.spans) { Unaffordable(whole, p.work, b, record.id, full); }
      }
    }
    if exhausted && !first { return Deferred; }
    step := Consumed(State(Some(true), p.known, !exhausted && p.known), Some(Match(record.id, values)),
                     Budget(workLeft, b.spans - used, Max(b.bytes - bytes, 0)), exhausted || p.exhausted, p.known && !exhausted);
  }

  lemma Unaffordable(whole: Tally, work: nat, b: Budget, id: Text, full: seq<Pending>)
    requires Overspends(whole, work, b.spans) && SpansIn(full) == Total(whole.entries)
    ensures whole.cost > work || !Fits(id, full, b.spans, b.bytes)
  {
  }

  lemma AccountsSpans(whole: Tally, work: nat, b: Budget, entries: seq<set<Span>>, workLeft: nat, spansLeft: nat, exhausted: bool)
    requires Accounts(whole, work, b.spans, entries, workLeft, spansLeft, exhausted)
    ensures |entries| == |whole.entries| && workLeft <= work && Total(entries) <= b.spans
    ensures forall i :: 0 <= i < |entries| ==> entries[i] <= whole.entries[i]
    ensures if exhausted then Overspends(whole, work, b.spans) else entries == whole.entries && whole.cost <= work
  {
  }

  /** A consumed record keeps the page's promises and its accounts. */
  lemma TakeStep(t: Tracer, search: Search, candidates: Option<set<Text>>, records: seq<Record>, matches: seq<Match>, states: seq<State>,
                 b: Budget, step: Step)
    requires search.Valid() && |states| < |records| <= MAX_TRACE_RECORDS && !Excluded(candidates, records[|states|]) && step.Consumed?
    requires PageSoFar(t, search, candidates, records, matches, states)
    requires StepOf(t, search, records[|states|], |records|, b, states == [], step)
    requires b.AtMost(Initial(|records|)) && ResponseBytes(matches) + b.bytes == Initial(|records|).bytes
    ensures var more := if step.found.Some? then matches + [step.found.value] else matches;
      && PageSoFar(t, search, candidates, records, more, states + [step.state])
      && ResponseBytes(more) + step.left.bytes == Initial(|records|).bytes
      && step.left.AtMost(Initial(|records|)) && (step.exhausted ==> states == [])
      && (AllFinished(states + [step.state]) <==> AllFinished(states) && step.complete)
  {
    hide Aligned, StateOf, MatchOf, Affordable, AllFinished, Finished, Spent, Initial, PageSoFar, RecordBytes;
    IncludedState(t, search, candidates, records[|states|], |records|);
    FinishedSoFar(states, step.state);
    Consume(t, search, candidates, records, matches, states, step.state, step.found);
    if step.found.Some? { assert (matches + [step.found.value])[..|matches|] == matches; }
  }

  // ---- one page ----

  predicate Admissible(records: seq<Record>) {
    |records| <= MAX_TRACE_RECORDS && forall k :: 0 <= k < |records| ==> |records[k].id| <= MAX_RECORD_ID_BYTES
  }

  predicate KnowsFields(known: set<Text>, record: Record) {
    forall f :: 0 <= f < |record.fields| ==> record.fields[f].0 in known
  }

  /** One recoverable page of a clause or of an expression search. */
  method TraceMatchesPage(t: Tracer, search: Search, known: set<Text>, candidates: Option<set<Text>>, records: seq<Record>)
    returns (r: Result<Page, Error>)
    requires Lawful(t) && search.Valid() && Admissible(records)
    ensures r.Ok? ==> PageOf(t, search, candidates, records, r.value)
    ensures r.Ok? ==> StopsAt(t, search, candidates, records, |r.value.states|)
    ensures r.Err? ==> exists k :: 0 <= k < |records| && !Excluded(candidates, records[k]) && !KnowsFields(known, records[k])
  {
    hide Aligned, StateOf, MatchOf, Affordable, AllFinished, Finished, Spent, LeftAfter, Going, StopsAt, StepOf, PageSoFar, ResponseBytes;
    var n := |records|;
    var b := Initial(n);
    var complete, stopped := true, false;
    var matches: seq<Match>, states: seq<State> := [], [];
    GoingStarts(t, search, candidates, records);
    NothingTraced(t, search, candidates, records);
    assert AllFinished(states) by { NothingUnfinished(); }
    while |states| < n && !stopped
      invariant |states| <= n && PageSoFar(t, search, candidates, records, matches, states)
      invariant b.AtMost(Initial(n)) && ResponseBytes(matches) + b.bytes == Initial(n).bytes
      invariant states == [] ==> b == Initial(n) && !stopped
      invariant !stopped ==> b == LeftAfter(t, search, candidates, records, |states|)
      invariant Going(t, search, candidates, records, |states|, stopped)
      invariant (stopped && |states| < n) || (complete <==> AllFinished(states))
      decreases n - |states|, !stopped
    {
      var record := records[|states|];
      if Excluded(candidates, record) {
        var state := State(Some(false), true, true);
        ExcludedState(t, search, candidates, record, n);
        FinishedSoFar(states, state);
        Consume(t, search, candidates, records, matches, states, state, None);
        GoingExcluded(t, search, candidates, records, |states|);
        states := states + [state];
      } else {
        if !KnowsFields(known, record) { return Err(UnknownField); }
        var step: Step;
        match search {
          case ClauseSearch(plan, selected) =>
            step := ClauseRecord(t, plan, selected, record, n, b, states == []);
          case ExpressionSearch(expression, leaves) =>
            step := ExpressionRecord(t, expression, leaves, record, n, b, states == []);
        }
        GoingOn(t, search, candidates, records, |states|, step);
        if step.Deferred? {
          complete, stopped := false, true;
        } else {
          TakeStep(t, search, candidates, records, matches, states, b, step);
          complete := complete && step.complete;
          states := states + [step.state];
          if step.found.Some? { matches := matches + [step.found.value]; }
          b, stopped := step.left, step.exhausted;
        }
      }
    }
    GoingEnds(t, search, candidates, records, |states|, stopped);
    PageMade(t, search, candidates, records, matches, states, complete && |states| == n);
    r := Ok(Page(complete && |states| == n, matches, states));
  }

  /** How far a page has come, and that it did not stop early. */
  ghost predicate Going(t: Tracer, search: Search, candidates: Option<set<Text>>, records: seq<Record>, count: nat, stopped: bool)
    requires search.Valid() && |records| <= MAX_TRACE_RECORDS
  {
    && count <= |records|
    && (count > 1 ==> Goes(t, search, candidates, records, 0))
    && (forall k :: 0 < k < count ==> Goes(t, search, candidates, records, k))
    && (0 < count && !stopped ==> Goes(t, search, candidates, records, 0))
    && (stopped ==> count > 0)
    && (stopped && count < |records| ==> !Goes(t, search, candidates, records, 0) || !Goes(t, search, candidates, records, count))
  }

  lemma GoingStarts(t: Tracer, search: Search, candidates: Option<set<Text>>, records: seq<Record>)
    requires search.Valid() && |records| <= MAX_TRACE_RECORDS
    ensures Going(t, search, candidates, records, 0, false) && LeftAfter(t, search, candidates, records, 0) == Initial(|records|)
  {
  }

  lemma GoingExcluded(t: Tracer, search: Search, candidates: Option<set<Text>>, records: seq<Record>, count: nat)
    requires search.Valid() && count < |records| <= MAX_TRACE_RECORDS && Excluded(candidates, records[count])
    requires Going(t, search, candidates, records, count, false)
    ensures Going(t, search, candidates, records, count + 1, false)
    ensures LeftAfter(t, search, candidates, records, count + 1) == LeftAfter(t, search, candidates, records, count)
  {
    hide Affordable, Spent;
  }

  lemma GoingOn(t: Tracer, search: Search, candidates: Option<set<Text>>, records: seq<Record>, count: nat, step: Step)
    requires search.Valid() && count < |records| <= MAX_TRACE_RECORDS && !Excluded(candidates, records[count])
    requires Going(t, search, candidates, records, count, false)
    requires StepOf(t, search, records[count], |records|, LeftAfter(t, search, candidates, records, count), count == 0, step)
    ensures step.Deferred? ==> count > 0 && Going(t, search, candidates, records, count, true)
    ensures step.Consumed? ==> Going(t, search, candidates, records, count + 1, step.exhausted)
    ensures step.Consumed? && !step.exhausted ==> step.left == LeftAfter(t, search, candidates, records, count + 1)
  {
    hide Affordable, Spent, StateOf, MatchOf;
  }

  lemma GoingEnds(t: Tracer, search: Search, candidates: Option<set<Text>>, records: seq<Record>, count: nat, stopped: bool)
    requires search.Valid() && |records| <= MAX_TRACE_RECORDS && (count == |records| || stopped)
    requires Going(t, search, candidates, records, count, stopped)
    ensures StopsAt(t, search, candidates, records, count)
  {
    assert records != [] ==> |records| > 0;
  }

  lemma PageMade(t: Tracer, search: Search, candidates: Option<set<Text>>, records: seq<Record>, matches: seq<Match>, states: seq<State>,
                 complete: bool)
    requires search.Valid() && |records| <= MAX_TRACE_RECORDS && PageSoFar(t, search, candidates, records, matches, states)
    requires (records != [] ==> states != []) && (complete <==> |states| == |records| && AllFinished(states))
    ensures PageOf(t, search, candidates, records, Page(complete, matches, states))
  {
    hide PageSoFar, AllFinished;
  }

  lemma NothingTraced(t: Tracer, search: Search, candidates: Option<set<Text>>, records: seq<Record>)
    requires search.Valid() && |records| <= MAX_TRACE_RECORDS
    ensures PageSoFar(t, search, candidates, records, [], []) && ResponseBytes([]) == 0
  {
  }

  lemma NothingUnfinished()
    ensures AllFinished([])
  {
  }

  lemma ExcludedState(t: Tracer, search: Search, candidates: Option<set<Text>>, record: Record, n: nat)
    requires search.Valid() && n <= MAX_TRACE_RECORDS && Excluded(candidates, record)
    ensures StateOf(t, search, candidates, record, n) == State(Some(false), true, true)
    ensures Finished(State(Some(false), true, true))
  {
  }

  lemma IncludedState(t: Tracer, search: Search, candidates: Option<set<Text>>, record: Record, n: nat)
    requires search.Valid() && n <= MAX_TRACE_RECORDS && !Excluded(candidates, record)
    ensures StateOf(t, search, candidates, record, n) == StateOf(t, search, None, record, n)
  {
  }

  // ---- page independence ----

  function CountMatched(states: seq<State>): nat {
    if states == [] then 0
    else CountMatched(states[..|states| - 1]) + if states[|states| - 1].membership == Some(true) then 1 else 0
  }

  lemma {:induction false} AlignedAt(t: Tracer, search: Search, records: seq<Record>, states: seq<State>, matches: seq<Match>, n: nat, k: nat)
    requires search.Valid() && n <= MAX_TRACE_RECORDS && |records| == |states| && k < |states|
    requires Aligned(t, search, records, states, matches, n)
    ensures |matches| == CountMatched(states)
    ensures states[k].membership == Some(true) ==>
      CountMatched(states[..k]) < |matches| && MatchOf(t, search, records[k], n, matches[CountMatched(states[..k])])
  {
    hide MatchOf;
    var last := |states| - 1;
    var front := if states[last].membership == Some(true) then matches[..|matches| - 1] else matches;
    if last == 0 {
      assert states[..0] == [] && states[..k] == [];
    } else {
      AlignedAt(t, search, records[..last], states[..last], front, n, if k < last then k else 0);
      if k < last { assert states[..last][..k] == states[..k]; }
    }
  }

  /** What a page says about a record is what a page holding that record alone says: its verdict and whether its
      analysis was complete for every record, its whole state and its spans for every record after the first. */
  lemma LaterRecordsAsAlone(t: Tracer, search: Search, candidates: Option<set<Text>>, records: seq<Record>, page: Page, k: nat, alone: Page)
    requires search.Valid() && Admissible(records) && k < |page.states|
    requires PageOf(t, search, candidates, records, page) && PageOf(t, search, candidates, [records[k]], alone)
    ensures |alone.states| == 1
    ensures alone.states[0].membership == page.states[k].membership
    ensures alone.states[0].analysisComplete == page.states[k].analysisComplete
    ensures k > 0 ==> alone.states[0] == page.states[k]
    ensures k > 0 && page.states[k].membership == Some(true) ==>
      && CountMatched(page.states[..k]) < |page.matches|
      && alone.matches == [page.matches[CountMatched(page.states[..k])]]
  {
    hide Aligned, Affordable, FullReport;
    AffordableWithMore(t, search, records[k], Initial(|records|), Initial(1));
    if page.states[k].membership == Some(true) {
      AlignedAt(t, search, records[..|page.states|], page.states, page.matches, |records|, k);
      assert [records[k]][..1] == [records[k]];
      AlignedAt(t, search, [records[k]], alone.states, alone.matches, 1, 0);
      assert CountMatched(alone.states[..0]) == 0 && CountMatched(alone.states) == 1;
    }
  }

  /** Tracing any number of records by following pages of any admissible size: every record is reached, and its
      verdict and analysis flag are its own however the records were split. */
  method TraceAll(t: Tracer, search: Search, known: set<Text>, candidates: Option<set<Text>>, records: seq<Record>, sizes: nat -> nat)
    returns (r: Result<seq<State>, Error>)
    requires Lawful(t) && search.Valid()
    requires forall k :: 0 <= k < |records| ==> |records[k].id| <= MAX_RECORD_ID_BYTES
    requires forall k :: 0 < sizes(k) <= MAX_TRACE_RECORDS
    ensures r.Ok? ==> |r.value| == |records|
    ensures r.Ok? ==> forall k :: 0 <= k < |records| ==>
      if Excluded(candidates, records[k]) then r.value[k] == State(Some(false), true, true)
      else (r.value[k].membership, r.value[k].analysisComplete) == Judgement(t, search, records[k])
    ensures r.Err? ==> exists k :: 0 <= k < |records| && !Excluded(candidates, records[k]) && !KnowsFields(known, records[k])
  {
    hide Judgement, Affordable;
    var states: seq<State> := [];
    while |states| < |records|
      invariant |states| <= |records|
      invariant forall k :: 0 <= k < |states| ==>
        if Excluded(candidates, records[k]) then states[k] == State(Some(false), true, true)
        else (states[k].membership, states[k].analysisComplete) == Judgement(t, search, records[k])
      decreases |records| - |states|
    {
      var size: nat := Min(sizes(|states|), |records| - |states|);
      var batch := records[|states|..|states| + size];
      var page := TraceMatchesPage(t, search, known, candidates, batch);
      if page.Err? {
        var k :| 0 <= k < |batch| && !Excluded(candidates, batch[k]) && !KnowsFields(known, batch[k]);
        assert records[|states| + k] == batch[k];
        return Err(page.error);
      }
      states := states + page.value.states;
    }
    r := Ok(states);
  }
}
