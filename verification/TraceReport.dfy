/**
 What a trace reports, said of tokens, leaves and bytes: the hits of a bag of terms, the spans a matching record is credited
 with, their order, and the size of the encoded page.
 */
module TraceReport {
  import opened Wrappers
  import opened TracePlan
  import opened TraceRecord
  import opened TraceExpression
  import opened TraceSpans
  import opened TracePage
  import opened TraceAnalysis
  import SearchAst
  import TopN
  import Ranking

  // ---- hits ----

  /** Each hit is the token at its place, text and span, and the places are exactly those of the terms, in order. */
  ghost predicate HitsFrom(terms: seq<Text>, tokens: seq<Token>, hits: seq<Event>, from: seq<nat>) {
    && |from| == |hits|
    && (forall i, j :: 0 <= i < j < |from| ==> from[i] < from[j])
    && (forall i :: 0 <= i < |from| ==> from[i] < |tokens| && tokens[from[i]].text in terms)
    && (forall i :: 0 <= i < |from| ==> hits[i] == Event(Term(tokens[from[i]].text), tokens[from[i]].span))
    && (forall k :: 0 <= k < |tokens| && tokens[k].text in terms ==> k in from)
  }

  lemma HitsFromOneMore(terms: seq<Text>, tokens: seq<Token>, hits: seq<Event>, from: seq<nat>, last: Token)
    requires HitsFrom(terms, tokens, hits, from)
    ensures last.text !in terms ==> HitsFrom(terms, tokens + [last], hits, from)
    ensures last.text in terms ==> HitsFrom(terms, tokens + [last], hits + [Event(Term(last.text), last.span)], from + [|tokens|])
  {
  }

  /** The hits of a bag of terms are its tokens: nothing else, nothing less, in order and with their own spans. */
  lemma {:induction false} HitsAreTokens(terms: seq<Text>, tokens: seq<Token>) returns (from: seq<nat>)
    ensures HitsFrom(terms, tokens, Hits(terms, tokens), from)
  {
    if tokens == [] {
      from := [];
    } else {
      var front, last := tokens[..|tokens| - 1], tokens[|tokens| - 1];
      from := HitsAreTokens(terms, front);
      HitsFromOneMore(terms, front, Hits(terms, front), from, last);
      assert tokens == front + [last];
      HitsUnfold(terms, tokens);
      hide Hits, HitsFrom;
      if last.text in terms { from := from + [|front|]; }
    }
  }

  lemma HitsUnfold(terms: seq<Text>, tokens: seq<Token>)
    requires tokens != []
    ensures var front, last := tokens[..|tokens| - 1], tokens[|tokens| - 1];
      Hits(terms, tokens) == Hits(terms, front) + if last.text in terms then [Event(Term(last.text), last.span)] else []
  {
  }

  lemma {:induction false} SpansAreMet(events: seq<Event>, s: Span)
    ensures s in SpansOf(events) <==> exists i :: 0 <= i < |events| && events[i].span == Some(s)
  {
    if events != [] {
      var front := events[..|events| - 1];
      SpansAreMet(front, s);
      if i :| 0 <= i < |front| && front[i].span == Some(s) { assert events[i].span == Some(s); }
    }
  }

  /** The token at this place carries the span and is one of the terms. */
  predicate TokenAt(terms: seq<Text>, tokens: seq<Token>, s: Span, k: nat) {
    k < |tokens| && tokens[k].text in terms && tokens[k].span == Some(s)
  }

  /** The spans of a bag of terms in a value are exactly those of its tokens. */
  lemma SpansAreTokens(terms: seq<Text>, tokens: seq<Token>, s: Span)
    ensures s in SpansOf(Hits(terms, tokens)) <==> exists k: nat :: TokenAt(terms, tokens, s, k)
  {
    SpansAreMet(Hits(terms, tokens), s);
    var from := HitsAreTokens(terms, tokens);
    if i :| 0 <= i < |from| && Hits(terms, tokens)[i].span == Some(s) { assert TokenAt(terms, tokens, s, from[i]); }
    if k: nat :| TokenAt(terms, tokens, s, k) {
      var i :| 0 <= i < |from| && from[i] == k;
      assert Hits(terms, tokens)[i].span == Some(s);
    }
  }

  /** Where a span is first met. */
  predicate FirstAt(events: seq<Event>, s: Span, i: nat) {
    i < |events| && events[i].span == Some(s) && forall j :: 0 <= j < i ==> events[j].span != Some(s)
  }

  /** The spans kept when not all fit are those met first: an earlier one in the list is first met earlier. */
  lemma {:induction false} SpansInOrderMet(events: seq<Event>, a: nat, b: nat) returns (i: nat, j: nat)
    requires a < b < |SpansOf(events)|
    ensures i < j && FirstAt(events, SpansOf(events)[a], i) && FirstAt(events, SpansOf(events)[b], j)
  {
    var n := |events| - 1;
    var front := events[..n];
    if b < |SpansOf(front)| {
      i, j := SpansInOrderMet(front, a, b);
    } else {
      SpansAreMet(front, events[n].span.value);
      j := n;
      i := FirstMet(front, SpansOf(front)[a]);
    }
  }

  lemma {:induction false} FirstMet(events: seq<Event>, s: Span) returns (i: nat)
    requires s in SpansOf(events)
    ensures FirstAt(events, s, i)
  {
    var n := |events| - 1;
    if s in SpansOf(events[..n]) {
      i := FirstMet(events[..n], s);
    } else {
      SpansAreMet(events[..n], s);
      i := n;
    }
  }

  // ---- the spans a record is credited with ----

  /** A credited leaf that searches the source's field meets the span there. */
  predicate CreditedBySource(t: Tracer, leaf: TracedLeaf, source: Source, s: Span) {
    source.field in leaf.fields && s in SpansOf(SpanEvents(t, leaf, source))
  }

  lemma {:induction false} GrownEntry(t: Tracer, leaf: TracedLeaf, sources: seq<Source>, start: Tally, n: nat, i: nat, s: Span)
    requires n <= |sources| == |start.entries| && i < |sources|
    ensures s in Grow(t, leaf, sources, start, n).entries[i]
      <==> s in start.entries[i] || (i < n && CreditedBySource(t, leaf, sources[i], s))
  {
    hide SpanEvents, SpansOf, Cost;
    if n > 0 { GrownEntry(t, leaf, sources, start, n - 1, i, s); }
  }

  /** The span is credited by one of these leaves. */
  ghost predicate CreditedBySome(t: Tracer, leaves: seq<TracedLeaf>, credited: seq<nat>, source: Source, s: Span)
    requires forall c :: 0 <= c < |credited| ==> credited[c] < |leaves|
  {
    exists c :: 0 <= c < |credited| && CreditedBySource(t, leaves[credited[c]], source, s)
  }

  lemma {:induction false} CreditEntry(t: Tracer, leaves: seq<TracedLeaf>, credited: seq<nat>, sources: seq<Source>, i: nat, s: Span)
    requires (forall c :: 0 <= c < |credited| ==> credited[c] < |leaves|) && i < |sources|
    ensures s in Credit(t, leaves, credited, sources).entries[i] <==> CreditedBySome(t, leaves, credited, sources[i], s)
  {
    hide Grow, CreditedBySource;
    if credited != [] {
      var front, last := credited[..|credited| - 1], credited[|credited| - 1];
      CreditEntry(t, leaves, front, sources, i, s);
      GrownEntry(t, leaves[last], sources, Credit(t, leaves, front, sources), |sources|, i, s);
      if c :| 0 <= c < |front| && CreditedBySource(t, leaves[front[c]], sources[i], s) {
        assert CreditedBySource(t, leaves[credited[c]], sources[i], s);
      }
    }
  }

  /** The report says this span of this value. */
  predicate Reports(report: seq<Pending>, field: Text, index: nat, s: Span) {
    exists k :: 0 <= k < |report| && report[k].field == field && report[k].index == index && s in report[k].spans
  }

  lemma {:induction false} ReportedSpans(sources: seq<Source>, entries: seq<set<Span>>, field: Text, index: nat, s: Span)
    requires |sources| == |entries|
    ensures Reports(Reported(sources, entries), field, index, s)
      <==> exists i :: 0 <= i < |sources| && sources[i].field == field && sources[i].index == index && s in entries[i]
  {
    if sources != [] {
      var n := |sources| - 1;
      ReportedSpans(sources[..n], entries[..n], field, index, s);
      InOrderIsOrdered(entries[n]);
      assert s in InOrder(entries[n]) <==> s in AsSet(InOrder(entries[n]));
      hide InOrder;
      ReportsOneMore(sources, entries, field, index, s);
    }
  }

  lemma ReportsOneMore(sources: seq<Source>, entries: seq<set<Span>>, field: Text, index: nat, s: Span)
    requires sources != [] && |sources| == |entries|
    requires s in InOrder(entries[|sources| - 1]) <==> s in entries[|sources| - 1]
    ensures var n := |sources| - 1;
      var here := sources[n].field == field && sources[n].index == index && s in entries[n];
      Reports(Reported(sources, entries), field, index, s) <==> Reports(Reported(sources[..n], entries[..n]), field, index, s) || here
  {
    hide InOrder;
    var n := |sources| - 1;
    var before, last := Reported(sources[..n], entries[..n]), Pending(sources[n].field, sources[n].index, InOrder(entries[n]));
    assert Reported(sources, entries) == if entries[n] == {} then before else before + [last];
    hide Reported;
    ReportsAppended(before, last, field, index, s);
  }

  lemma ReportsAppended(before: seq<Pending>, last: Pending, field: Text, index: nat, s: Span)
    ensures Reports(before + [last], field, index, s)
      <==> Reports(before, field, index, s) || (last.field == field && last.index == index && s in last.spans)
  {
    var all := before + [last];
    if k :| 0 <= k < |before| && before[k].field == field && before[k].index == index && s in before[k].spans { assert all[k] == before[k]; }
    if k :| 0 <= k < |all| && all[k].field == field && all[k].index == index && s in all[k].spans {
      if k < |before| { assert all[k] == before[k]; }
    }
    assert all[|before|] == last;
  }

  lemma SortedReports(report: seq<Pending>, field: Text, index: nat, s: Span)
    ensures Reports(TopN.Sort(PendingLess, report), field, index, s) <==> Reports(report, field, index, s)
  {
    var sorted := TopN.Sort(PendingLess, report);
    SortedMembers(report);
    if k :| 0 <= k < |sorted| && sorted[k].field == field && sorted[k].index == index && s in sorted[k].spans {
      assert sorted[k] in multiset(report);
      var j :| 0 <= j < |report| && report[j] == sorted[k];
    }
    if k :| 0 <= k < |report| && report[k].field == field && report[k].index == index && s in report[k].spans {
      assert report[k] in multiset(sorted);
      var j :| 0 <= j < |sorted| && sorted[j] == report[k];
    }
  }

  /** Over bags of terms: a value's span is in the full report of a record iff a credited leaf that searches its field has
      one of its terms there, at a token with that span. */
  lemma ReportIsTheCreditedTokens(t: Tracer, expression: Traced, leaves: seq<TracedLeaf>, record: Record, field: Text, index: nat, s: Span)
    requires Lawful(t) && ExpressionSearch(expression, leaves).Valid()
    requires forall i :: 0 <= i < |leaves| ==> leaves[i].plan.Any? || leaves[i].plan.All?
    ensures var a := SourcesOf(t, leaves, record);
      var credited := CreditedBy(expression, Judge(t, leaves, a, MAX_TRACE_WORK_TOKENS).membership);
      Reports(FullReport(t, ExpressionSearch(expression, leaves), record), field, index, s) <==> exists i, c, k: nat ::
        && 0 <= i < |a.sources| && 0 <= c < |credited| && a.sources[i].field == field && a.sources[i].index == index
        && field in leaves[credited[c]].fields && TokenAt(leaves[credited[c]].plan.terms, a.sources[i].analyzed, s, k)
  {
    var a := SourcesOf(t, leaves, record);
    var credited := CreditedBy(expression, Judge(t, leaves, a, MAX_TRACE_WORK_TOKENS).membership);
    var entries := Credit(t, leaves, credited, a.sources).entries;
    SortedReports(Reported(a.sources, entries), field, index, s);
    ReportedSpans(a.sources, entries, field, index, s);
    hide Reported, Credit, Judge, CreditedBy, Reports, Analyze;
    forall i | 0 <= i < |a.sources| ensures s in entries[i] <==> CreditedBySome(t, leaves, credited, a.sources[i], s) {
      CreditEntry(t, leaves, credited, a.sources, i, s);
    }
    forall i, c | 0 <= i < |a.sources| && 0 <= c < |credited|
      ensures CreditedBySource(t, leaves[credited[c]], a.sources[i], s)
        == (a.sources[i].field in leaves[credited[c]].fields
            && exists k: nat :: TokenAt(leaves[credited[c]].plan.terms, a.sources[i].analyzed, s, k))
    {
      var leaf := leaves[credited[c]];
      EventsAreLawful(t, leaf.plan, a.sources[i].analyzed, a.sources[i].surface, false);
      SpansAreTokens(leaf.plan.terms, a.sources[i].analyzed, s);
    }
  }

  lemma {:induction false} SummaryReports(t: Tracer, plan: Plan, vs: seq<Value>, field: Text, index: nat, s: Span)
    ensures Reports(Summarize(t, plan, vs).report, field, index, s)
      <==> exists k :: 0 <= k < |vs| && vs[k].field == field && vs[k].index == index && s in SpansOf(ValueEvents(t, plan, vs[k]))
  {
    hide ValueEvents, ValueCut, SpansOf, Sorted;
    if vs != [] {
      var front, v := vs[..|vs| - 1], vs[|vs| - 1];
      SummaryReports(t, plan, front, field, index, s);
      var spans := SpansOf(ValueEvents(t, plan, v));
      SortedSet(spans);
      assert s in spans <==> s in AsSet(spans);
      assert s in Sorted(spans) <==> s in AsSet(Sorted(spans));
      ReportsAppended(Summarize(t, plan, front).report, Pending(v.field, v.index, Sorted(spans)), field, index, s);
      if k :| 0 <= k < |front| && front[k].field == field && front[k].index == index && s in SpansOf(ValueEvents(t, plan, front[k])) {
        assert vs[k] == front[k];
      }
    }
  }

  /** A bare clause reports of every selected value exactly the spans of its terms' tokens among those kept. */
  lemma ClauseReportIsTheTokens(t: Tracer, plan: Plan, selected: set<Text>, record: Record, field: Text, index: nat, s: Span)
    requires Lawful(t) && (plan.Any? || plan.All?) && plan.DistinctTerms()
    ensures var vs := Values(record.fields, selected);
      Reports(FullReport(t, ClauseSearch(plan, selected), record), field, index, s) <==> exists i, k: nat ::
        0 <= i < |vs| && vs[i].field == field && vs[i].index == index && TokenAt(plan.terms, Kept(t.index(vs[i].text)), s, k)
  {
    var vs := Values(record.fields, selected);
    SummaryReports(t, plan, vs, field, index, s);
    hide Summarize, Reports, TokenAt;
    forall i | 0 <= i < |vs|
      ensures s in SpansOf(ValueEvents(t, plan, vs[i])) <==> exists k: nat :: TokenAt(plan.terms, Kept(t.index(vs[i].text)), s, k)
    {
      EventsAreLawful(t, plan, Kept(t.index(vs[i].text)), [], false);
      SpansAreTokens(plan.terms, Kept(t.index(vs[i].text)), s);
    }
  }

  /** The spans of a value go by start, then by end. */
  lemma SpansAscend(spans: seq<Span>, i: nat, j: nat)
    requires i < j < |spans|
    ensures var (a, b) := (Sorted(spans)[i], Sorted(spans)[j]); a.start < b.start || (a.start == b.start && a.end <= b.end)
  {
    SpanOrder();
    TopN.SortOrdered(SpanLess, spans);
  }

  /** Finding the spans of a credited leaf costs what judging it cost. */
  lemma {:induction false} CreditCost(t: Tracer, leaves: seq<TracedLeaf>, credited: seq<nat>, sources: seq<Source>)
    requires forall c :: 0 <= c < |credited| ==> credited[c] < |leaves|
    ensures Credit(t, leaves, credited, sources).cost == CostOfLeaves(Chosen(leaves, credited), sources)
  {
    if credited != [] {
      var front, last := credited[..|credited| - 1], credited[|credited| - 1];
      CreditCost(t, leaves, front, sources);
      GrowCost(t, leaves[last], sources, Credit(t, leaves, front, sources), |sources|);
      assert Chosen(leaves, credited)[..|front|] == Chosen(leaves, front);
      assert sources[..|sources|] == sources;
    }
  }

  function Chosen(leaves: seq<TracedLeaf>, credited: seq<nat>): (r: seq<TracedLeaf>)
    requires forall c :: 0 <= c < |credited| ==> credited[c] < |leaves|
    ensures |r| == |credited| && forall c :: 0 <= c < |r| ==> r[c] == leaves[credited[c]]
  {
    seq(|credited|, c requires 0 <= c < |credited| => leaves[credited[c]])
  }

  lemma {:induction false} GrowCost(t: Tracer, leaf: TracedLeaf, sources: seq<Source>, start: Tally, n: nat)
    requires n <= |sources| == |start.entries|
    ensures Grow(t, leaf, sources, start, n).cost == start.cost + CostAll(leaf, sources[..n])
  {
    if n > 0 {
      GrowCost(t, leaf, sources, start, n - 1);
      assert sources[..n][..n - 1] == sources[..n - 1];
      hide SpanSet, SpanEvents, Cost;
    }
  }

  // ---- the order of a report ----

  lemma OrderTransitive(a: Pending, b: Pending, c: Pending)
    requires !PendingLess(b, a) && !PendingLess(c, b)
    ensures !PendingLess(c, a)
  {
    Ranking.IdTotal(a.field, b.field);
    Ranking.IdTotal(b.field, c.field);
    Ranking.IdTotal(a.field, c.field);
    if Ranking.IdLess(a.field, b.field) && Ranking.IdLess(b.field, c.field) { Ranking.IdTransitive(a.field, b.field, c.field); }
  }

  lemma NotBoth(a: Pending, b: Pending)
    ensures !(PendingLess(a, b) && PendingLess(b, a))
  {
    Ranking.IdTotal(a.field, b.field);
    Ranking.IdTotal(a.field, a.field);
  }

  lemma {:induction false} InsertInOrder(x: Pending, s: seq<Pending>)
    requires TopN.Ordered(PendingLess, s)
    ensures TopN.Ordered(PendingLess, TopN.Insert(PendingLess, x, s))
  {
    if s != [] {
      if PendingLess(x, s[0]) {
        forall j | 0 <= j < |s| ensures !PendingLess(s[j], x) {
          NotBoth(x, s[0]);
          if j > 0 { OrderTransitive(x, s[0], s[j]); }
        }
      } else {
        var rest := TopN.Insert(PendingLess, x, s[1..]);
        InsertInOrder(x, s[1..]);
        InsertMembers(x, s[1..]);
        forall j | 0 <= j < |rest| ensures !PendingLess(rest[j], s[0]) {
          assert rest[j] in multiset(s[1..]) + multiset{x};
          if rest[j] != x { var m :| 0 <= m < |s[1..]| && s[1..][m] == rest[j]; assert s[1 + m] == rest[j]; }
        }
      }
    }
  }

  lemma {:induction false} SortInOrder(s: seq<Pending>)
    ensures TopN.Ordered(PendingLess, TopN.Sort(PendingLess, s))
  {
    hide TopN.Ordered, PendingLess, TopN.Insert;
    if s == [] {
      NothingOrdered();
    } else {
      SortInOrder(s[..|s| - 1]);
      InsertInOrder(s[|s| - 1], TopN.Sort(PendingLess, s[..|s| - 1]));
    }
  }

  lemma NothingOrdered()
    ensures TopN.Ordered(PendingLess, [])
  {
  }

  /** The values of an expression's report go by their field's bytes, then by their index. */
  lemma ReportIsOrdered(sources: seq<Source>, entries: seq<set<Span>>, i: nat, j: nat)
    requires |sources| == |entries| && i < j < |Report(sources, entries)|
    ensures var (a, b) := (Report(sources, entries)[i], Report(sources, entries)[j]);
      (exists d: nat :: Ranking.FirstDifference(a.field, b.field, d)) || (a.field == b.field && a.index <= b.index)
  {
    SortInOrder(Reported(sources, entries));
    var (a, b) := (Report(sources, entries)[i], Report(sources, entries)[j]);
    Ranking.IdTotal(a.field, b.field);
    Ranking.IdLessIsByteOrder(a.field, b.field);
  }

  // ---- the encoded page ----

  type Bytes = seq<SearchAst.byte>

  /** A number in the given number of bytes, least significant first. */
  function LittleEndian(n: nat, width: nat): (r: Bytes)
    ensures |r| == width
  {
    if width == 0 then [] else [n % 256] + LittleEndian(n / 256, width - 1)
  }

  function PutText(s: Text): Bytes { LittleEndian(|s|, 4) + s }

  function PutSpans(spans: seq<Span>): Bytes {
    if spans == [] then []
    else PutSpans(spans[..|spans| - 1]) + LittleEndian(spans[|spans| - 1].start, 4) + LittleEndian(spans[|spans| - 1].end, 4)
  }

  function PutValues(values: seq<Pending>): Bytes {
    if values == [] then []
    else
      var v := values[|values| - 1];
      PutValues(values[..|values| - 1]) + PutText(v.field) + LittleEndian(v.index, 4) + LittleEndian(|v.spans|, 2) + PutSpans(v.spans)
  }

  function PutMatches(matches: seq<Match>): Bytes {
    if matches == [] then []
    else
      var m := matches[|matches| - 1];
      PutMatches(matches[..|matches| - 1]) + PutText(m.id) + LittleEndian(|m.values|, 2) + PutValues(m.values)
  }

  function StateByte(s: State): SearchAst.byte {
    (match s.membership case Some(false) => 0 case Some(true) => 1 case None => 2)
    + (if s.analysisComplete then 4 else 0) + (if s.spansComplete then 8 else 0)
  }

  function PutStates(states: seq<State>): (r: Bytes)
    ensures |r| == |states| && forall i :: 0 <= i < |r| ==> r[i] == StateByte(states[i])
  {
    seq(|states|, i requires 0 <= i < |states| => StateByte(states[i]))
  }

  /** The response to a page request: the complete flag, the matches, the number of the next record and the states. */
  function PageBody(page: Page): Bytes {
    [if page.complete then 1 else 0] + LittleEndian(|page.matches|, 2) + PutMatches(page.matches)
    + LittleEndian(|page.states|, 2) + PutStates(page.states)
  }

  lemma {:induction false} SpansSize(spans: seq<Span>)
    ensures |PutSpans(spans)| == 8 * |spans|
  {
    if spans != [] { SpansSize(spans[..|spans| - 1]); }
  }

  lemma {:induction false} ValuesSize(values: seq<Pending>)
    ensures |PutValues(values)| == BytesOf(values)
  {
    if values != [] {
      ValuesSize(values[..|values| - 1]);
      SpansSize(values[|values| - 1].spans);
    }
  }

  lemma {:induction false} MatchesSize(matches: seq<Match>)
    ensures |PutMatches(matches)| == ResponseBytes(matches)
  {
    if matches != [] {
      MatchesSize(matches[..|matches| - 1]);
      ValuesSize(matches[|matches| - 1].values);
    }
  }

  /** The bytes charged for a page are the bytes it is encoded in, and the encoded page stays within the response limit. */
  lemma PageFitsResponse(t: Tracer, search: Search, candidates: Option<set<Text>>, records: seq<Record>, page: Page)
    requires search.Valid() && |records| <= MAX_TRACE_RECORDS && PageOf(t, search, candidates, records, page)
    ensures |PageBody(page)| == 3 + ResponseBytes(page.matches) + 2 + |page.states| <= MAX_SEARCH_RESPONSE_BYTES
  {
    hide Aligned, StateOf, Affordable;
    MatchesSize(page.matches);
  }

  /** What a match of the record with this report takes of a page: at most 1024 spans, and a response to n records that
      holds just this match within 8388608 bytes. */
  ghost predicate ReportFitsPage(record: Record, report: seq<Pending>, states: seq<State>) {
    SpansIn(report) <= 1024 && |PageBody(Page(true, [Match(record.id, report)], states))| <= 8388608
  }

  lemma ReportFits(record: Record, report: seq<Pending>, states: seq<State>)
    requires |states| <= MAX_TRACE_RECORDS
    ensures ReportFitsPage(record, report, states)
      <==> Fits(record.id, report, Initial(|states|).spans, Initial(|states|).bytes)
  {
    var matches := [Match(record.id, report)];
    MatchesSize(matches);
    assert matches[..0] == [] && ResponseBytes(matches) == ResponseBytes([]) + RecordBytes(record.id, report) == RecordBytes(record.id, report);
    hide PutMatches, RecordBytes, SpansIn;
  }

  /** When the spans reported for an expression's record are all there are: iff its analysis was complete and, if it matches,
      judging all leaves and finding the credited ones' spans takes at most 8388608 tokens and the report fits a page. */
  lemma SpansCompleteExactly(t: Tracer, expression: Traced, leaves: seq<TracedLeaf>, record: Record, states: seq<State>)
    requires ExpressionSearch(expression, leaves).Valid() && |states| <= MAX_TRACE_RECORDS
    ensures var search := ExpressionSearch(expression, leaves);
      var s := StateOf(t, search, None, record, |states|);
      var sources := SourcesOf(t, leaves, record).sources;
      var credited := CreditedBy(expression, Judge(t, leaves, SourcesOf(t, leaves, record), MAX_TRACE_WORK_TOKENS).membership);
      s.spansComplete <==> s.analysisComplete && (s.membership == Some(true) ==>
        && CostOfLeaves(leaves, sources) + CostOfLeaves(Chosen(leaves, credited), sources) <= 8388608
        && ReportFitsPage(record, FullReport(t, search, record), states))
  {
    var a := SourcesOf(t, leaves, record);
    var credited := CreditedBy(expression, Judge(t, leaves, a, MAX_TRACE_WORK_TOKENS).membership);
    JudgeExactly(t, leaves, a, MAX_TRACE_WORK_TOKENS);
    CreditCost(t, leaves, credited, a.sources);
    ReportFits(record, FullReport(t, ExpressionSearch(expression, leaves), record), states);
    hide Judge, Credit, CostOfLeaves, Fits, ReportFitsPage, Analyze, Evaluate, Report;
  }

  /** Of a bare clause: iff no value was cut and, if the record matches, the report fits a page. */
  lemma ClauseSpansCompleteExactly(t: Tracer, plan: Plan, selected: set<Text>, record: Record, states: seq<State>)
    requires plan.DistinctTerms() && |states| <= MAX_TRACE_RECORDS
    ensures var search := ClauseSearch(plan, selected);
      var s := StateOf(t, search, None, record, |states|);
      s.spansComplete <==> s.analysisComplete && (s.membership == Some(true) ==> ReportFitsPage(record, FullReport(t, search, record), states))
  {
    ReportFits(record, FullReport(t, ClauseSearch(plan, selected), record), states);
    hide Summarize, Fits, ReportFitsPage;
  }
}
