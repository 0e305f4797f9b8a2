/** What one traced leaf looks for, what it finds in one source value, and which spans it reports. */
module TracePlan {
  import opened Wrappers
  import SearchAst
  import TopN

  type Text = seq<SearchAst.byte>

  datatype Span = Span(start: nat, end: nat)

  predicate SpanLess(a: Span, b: Span) { a.start < b.start || (a.start == b.start && a.end < b.end) }

  lemma SpanOrder()
    ensures TopN.StrictTotal(SpanLess)
  {
  }

  /** One analyzed token, with its UTF-16 span in the source when that can be represented. */
  datatype Token = Token(text: Text, position: nat, span: Option<Span>)

  datatype Found = Term(text: Text) | PhraseMark | PrefixMark

  /** A place where the plan is satisfied, in discovery order. */
  datatype Event = Event(found: Found, span: Option<Span>)

  datatype Plan =
    | Any(terms: seq<Text>)
    | All(terms: seq<Text>)
    | Phrase(words: seq<(nat, Text)>)
    | Prefix(completed: seq<Text>, prefix: Text)
    | Fuzzy(exact: seq<Text>, fuzzy: seq<(Text, Text)>)
  {
    predicate NeedsSurface(analyzedFuzzy: bool) { Prefix? || (!analyzedFuzzy && Fuzzy?) }

    predicate RecordMatches(found: set<Found>) {
      match this
      case Any(_) => found != {}
      case Fuzzy(_, _) => found != {}
      case All(terms) => |terms| != 0 && |found| == |terms|
      case Phrase(words) => words != [] && PhraseMark in found
      case Prefix(completed, prefix) => prefix != [] && PrefixMark in found && |found| == |completed| + 1
    }

    /** The only things a pass of this plan ever inserts. */
    predicate Finds(found: Found) {
      match this
      case Any(terms) => found.Term? && found.text in terms
      case All(terms) => found.Term? && found.text in terms
      case Phrase(_) => found.PhraseMark?
      case Prefix(completed, _) => found.PrefixMark? || (found.Term? && found.text in completed)
      case Fuzzy(_, _) => found.Term?
    }

    predicate DistinctTerms() {
      match this
      case All(terms) => Distinct(terms)
      case Prefix(completed, _) => Distinct(completed)
      case _ => true
    }
  }

  predicate Distinct(terms: seq<Text>) { forall i, j :: 0 <= i < j < |terms| ==> terms[i] != terms[j] }

  predicate FindsOnly(plan: Plan, found: set<Found>) { forall f :: f in found ==> plan.Finds(f) }

  function Terms(terms: seq<Text>): (r: set<Found>)
    ensures forall t :: Term(t) in r <==> t in terms
    ensures forall f :: f in r ==> f.Term?
  {
    set t | t in terms :: Term(t)
  }

  lemma {:induction false} TermCount(terms: seq<Text>)
    requires Distinct(terms)
    ensures |Terms(terms)| == |terms|
  {
    if terms != [] {
      var front, last := terms[..|terms| - 1], terms[|terms| - 1];
      TermCount(front);
      assert Terms(terms) == Terms(front) + {Term(last)};
      assert Term(last) !in Terms(front);
    }
  }

  lemma SubsetOfSameSize<T>(a: set<T>, b: set<T>)
    requires a <= b && |a| == |b|
    ensures a == b
  {
    assert |b - a| == |b| - |a|;
    assert b == a + (b - a);
  }

  lemma SubsetIsNoLarger<T>(a: set<T>, b: set<T>)
    requires a <= b
    ensures |a| <= |b|
  {
    assert |b - a| == |b| - |a|;
  }

  /** Comparing counts decides what the plan means: every required term was found, or one of the alternatives. */
  lemma CountingIsFindingAll(plan: Plan, found: set<Found>)
    requires plan.DistinctTerms() && FindsOnly(plan, found)
    ensures plan.Any? ==> (plan.RecordMatches(found) <==> exists t :: t in plan.terms && Term(t) in found)
    ensures plan.Fuzzy? ==> (plan.RecordMatches(found) <==> exists t :: Term(t) in found)
    ensures plan.Phrase? ==> (plan.RecordMatches(found) <==> plan.words != [] && found == {PhraseMark})
    ensures plan.All? ==> (plan.RecordMatches(found) <==> plan.terms != [] && forall t :: t in plan.terms ==> Term(t) in found)
    ensures plan.Prefix? ==> (plan.RecordMatches(found) <==>
      plan.prefix != [] && PrefixMark in found && forall t :: t in plan.completed ==> Term(t) in found)
  {
    if plan.All? {
      var all := Terms(plan.terms);
      TermCount(plan.terms);
      assert found <= all;
      if |found| == |plan.terms| { SubsetOfSameSize(found, all); }
      if forall t :: t in plan.terms ==> Term(t) in found { assert found == all; }
    } else if plan.Prefix? && PrefixMark in found {
      var all := Terms(plan.completed);
      var terms := found - {PrefixMark};
      TermCount(plan.completed);
      assert terms <= all && |terms| == |found| - 1;
      if |terms| == |plan.completed| { SubsetOfSameSize(terms, all); }
      if forall t :: t in plan.completed ==> Term(t) in found { assert terms == all; }
    } else if plan.Any? || plan.Fuzzy? {
      if f :| f in found { assert Term(f.text) in found; }
    }
  }

  /** Finding more never undoes a match. */
  lemma MatchingIsMonotone(plan: Plan, found: set<Found>, more: set<Found>)
    requires plan.DistinctTerms() && FindsOnly(plan, more) && found <= more
    ensures plan.RecordMatches(found) ==> plan.RecordMatches(more)
  {
    CountingIsFindingAll(plan, found);
    CountingIsFindingAll(plan, more);
  }

  // ---- the tokens of one value ----

  const MAX_TRACE_TOKENS_PER_VALUE := 262144

  /** The tokens kept of a value's whole token stream, and whether some were dropped. */
  method SourceTokens(stream: seq<Token>) returns (tokens: seq<Token>, truncated: bool)
    ensures tokens == stream[..Min(|stream|, MAX_TRACE_TOKENS_PER_VALUE)]
    ensures truncated <==> |stream| > MAX_TRACE_TOKENS_PER_VALUE
  {
    tokens := [];
    var next := 0;
    while next < |stream|
      invariant next <= |stream| && next <= MAX_TRACE_TOKENS_PER_VALUE
      invariant tokens == stream[..next]
    {
      if |tokens| == MAX_TRACE_TOKENS_PER_VALUE { return tokens, true; }
      tokens := tokens + [stream[next]];
      next := next + 1;
    }
    truncated := false;
  }

  // ---- spans and findings of a run of events ----

  function FoundIn(events: seq<Event>): set<Found> { set e | e in events :: e.found }

  /** The distinct spans, in the order they are first met. */
  function SpansOf(events: seq<Event>): (r: seq<Span>)
    ensures forall i, j :: 0 <= i < j < |r| ==> r[i] != r[j]
  {
    if events == [] then []
    else
      var before, span := SpansOf(events[..|events| - 1]), events[|events| - 1].span;
      if span.Some? && span.value !in before then before + [span.value] else before
  }

  function Sorted(spans: seq<Span>): (r: seq<Span>)
    ensures |r| == |spans|
  {
    TopN.Sort(SpanLess, spans)
  }

  function Flatten(passes: seq<seq<Event>>): seq<Event> {
    if passes == [] then [] else Flatten(passes[..|passes| - 1]) + passes[|passes| - 1]
  }

  lemma {:induction false} SpansGrow(a: seq<Event>, b: seq<Event>)
    ensures SpansOf(a) <= SpansOf(a + b)
    decreases |b|
  {
    if b == [] {
      assert a + b == a;
    } else {
      SpansGrow(a, b[..|b| - 1]);
      assert (a + b)[..|a + b| - 1] == a + b[..|b| - 1];
    }
  }

  /** How far a pass has come after the events seen: every further event is either applied or, once the spans are
      full and the record is known to match, irrelevant. */
  ghost predicate Progress(plan: Plan, events: seq<Event>, max: nat, spans: seq<Span>, found: set<Found>, truncated: bool) {
    && spans == SpansOf(events)[..Min(max, |SpansOf(events)|)]
    && (truncated <==> |SpansOf(events)| > max)
    && found <= FoundIn(events)
    && (found == FoundIn(events) || (truncated && plan.RecordMatches(found)))
  }

  lemma ProgressStart(plan: Plan, max: nat)
    ensures Progress(plan, [], max, [], {}, false)
  {
  }

  lemma ProgressStep(plan: Plan, events: seq<Event>, e: Event, max: nat, spans: seq<Span>, found: set<Found>, truncated: bool)
    requires plan.DistinctTerms() && FindsOnly(plan, FoundIn(events + [e]))
    requires Progress(plan, events, max, spans, found, truncated)
    ensures
      var full := e.span.Some? && e.span.value !in spans && |spans| >= max;
      var pushed := if e.span.Some? && e.span.value !in spans && |spans| < max then spans + [e.span.value] else spans;
      Progress(plan, events + [e], max, pushed, found + {e.found}, truncated || full)
  {
    assert (events + [e])[..|events|] == events;
    assert FoundIn(events + [e]) == FoundIn(events) + {e.found};
    SpansGrow(events, [e]);
    MatchingIsMonotone(plan, found, found + {e.found});
  }

  lemma ProgressSkips(plan: Plan, events: seq<Event>, rest: seq<Event>, max: nat, spans: seq<Span>, found: set<Found>, truncated: bool)
    requires Progress(plan, events, max, spans, found, truncated)
    requires truncated && plan.RecordMatches(found)
    ensures Progress(plan, events + rest, max, spans, found, truncated)
  {
    SpansGrow(events, rest);
    assert FoundIn(events) <= FoundIn(events + rest);
  }

  /** One pass over the tokens of a value; it stops once the spans are full and the record is known to match. */
  method RunPass(plan: Plan, ghost before: seq<Event>, pass: seq<Event>, max: nat, spans0: seq<Span>, found0: set<Found>, truncated0: bool)
    returns (spans: seq<Span>, found: set<Found>, truncated: bool)
    requires plan.DistinctTerms() && FindsOnly(plan, FoundIn(before + pass))
    requires Progress(plan, before, max, spans0, found0, truncated0)
    ensures Progress(plan, before + pass, max, spans, found, truncated)
  {
    hide SpansOf, FoundIn, Progress;
    spans, found, truncated := spans0, found0, truncated0;
    assert before + pass[..0] == before && pass[..|pass|] == pass;
    var k := 0;
    while k < |pass|
      invariant k <= |pass|
      invariant Progress(plan, before + pass[..k], max, spans, found, truncated)
    {
      var event := pass[k];
      assert before + pass[..k] + [event] == before + pass[..k + 1];
      assert before + pass[..k + 1] + pass[k + 1..] == before + pass;
      FoundInPrefix(plan, before + pass[..k + 1], pass[k + 1..]);
      ProgressStep(plan, before + pass[..k], event, max, spans, found, truncated);
      found := found + {event.found};
      if event.span.Some? && event.span.value !in spans {
        if |spans| < max { spans := spans + [event.span.value]; } else { truncated := true; }
      }
      k := k + 1;
      if truncated && plan.RecordMatches(found) {
        ProgressSkips(plan, before + pass[..k], pass[k..], max, spans, found, truncated);
        assert before + pass[..k] + pass[k..] == before + pass;
        return;
      }
    }
  }

  /** The findings and spans of one value: the earliest distinct spans that fit, in source order; whether more exist;
      and every finding, unless the record already matches. */
  method TraceTokens(plan: Plan, passes: seq<seq<Event>>, max: nat)
    returns (sorted: seq<Span>, found: set<Found>, truncated: bool)
    requires plan.DistinctTerms() && FindsOnly(plan, FoundIn(Flatten(passes)))
    ensures sorted == Sorted(SpansOf(Flatten(passes))[..Min(max, |SpansOf(Flatten(passes))|)])
    ensures truncated <==> |SpansOf(Flatten(passes))| > max
    ensures found <= FoundIn(Flatten(passes))
    ensures found == FoundIn(Flatten(passes)) || (truncated && plan.RecordMatches(found))
  {
    var spans: seq<Span> := [];
    found, truncated := {}, false;
    ProgressStart(plan, max);
    var p := 0;
    while p < |passes|
      invariant p <= |passes|
      invariant Progress(plan, Flatten(passes[..p]), max, spans, found, truncated)
    {
      hide SpansOf, FoundIn, Progress;
      FlattenedSoFar(plan, passes, p);
      spans, found, truncated := RunPass(plan, Flatten(passes[..p]), passes[p], max, spans, found, truncated);
      p := p + 1;
    }
    assert passes[..p] == passes;
    sorted := Sorted(spans);
  }

  lemma FoundInPrefix(plan: Plan, a: seq<Event>, b: seq<Event>)
    requires FindsOnly(plan, FoundIn(a + b))
    ensures FindsOnly(plan, FoundIn(a))
  {
    assert FoundIn(a) <= FoundIn(a + b);
  }

  lemma {:induction false} FlattenedSoFar(plan: Plan, passes: seq<seq<Event>>, p: nat)
    requires p < |passes| && FindsOnly(plan, FoundIn(Flatten(passes)))
    ensures Flatten(passes[..p + 1]) == Flatten(passes[..p]) + passes[p]
    ensures FindsOnly(plan, FoundIn(Flatten(passes[..p + 1])))
  {
    assert passes[..p + 1][..p] == passes[..p];
    if p + 1 == |passes| {
      assert passes[..p + 1] == passes;
    } else {
      FoundInPrefix(plan, Flatten(passes[..|passes| - 1]), passes[|passes| - 1]);
      FlattenedSoFar(plan, passes[..|passes| - 1], p);
      assert passes[..|passes| - 1][..p + 1] == passes[..p + 1];
      assert passes[..|passes| - 1][..p] == passes[..p];
    }
  }
}
