/** Collecting the spans a matching record is credited with, under shared span, work and byte allowances. */
module TraceSpans {
  import opened Wrappers
  import opened TracePlan
  import opened TraceRecord
  import TopN
  import Ranking

  datatype Pending = Pending(field: Text, index: nat, spans: seq<Span>)

  predicate PendingLess(a: Pending, b: Pending) {
    Ranking.IdLess(a.field, b.field) || (a.field == b.field && a.index < b.index)
  }

  predicate AllNonempty(pending: seq<Pending>) { forall i :: 0 <= i < |pending| ==> pending[i].spans != [] }

  function SpansIn(pending: seq<Pending>): nat {
    if pending == [] then 0 else SpansIn(pending[..|pending| - 1]) + |pending[|pending| - 1].spans|
  }

  function BytesOf(pending: seq<Pending>): nat {
    if pending == [] then 0
    else
      var last := pending[|pending| - 1];
      BytesOf(pending[..|pending| - 1]) + 10 + |last.field| + 8 * |last.spans|
  }

  function RecordBytes(id: Text, pending: seq<Pending>): nat { 6 + |id| + BytesOf(pending) }

  predicate Fits(id: Text, pending: seq<Pending>, spans: nat, bytes: nat) {
    SpansIn(pending) <= spans && RecordBytes(id, pending) <= bytes
  }

  lemma {:induction false} PrefixTotals(pending: seq<Pending>, n: nat)
    requires n <= |pending|
    ensures SpansIn(pending[..n]) <= SpansIn(pending) && BytesOf(pending[..n]) <= BytesOf(pending)
  {
    if n == |pending| {
      assert pending[..n] == pending;
    } else {
      PrefixTotals(pending[..|pending| - 1], n);
      assert pending[..|pending| - 1][..n] == pending[..n];
    }
  }

  lemma OneMorePending(pending: seq<Pending>, n: nat)
    requires n < |pending|
    ensures SpansIn(pending[..n + 1]) == SpansIn(pending[..n]) + |pending[n].spans|
    ensures BytesOf(pending[..n + 1]) == BytesOf(pending[..n]) + 10 + |pending[n].field| + 8 * |pending[n].spans|
  {
    assert pending[..n + 1][..n] == pending[..n];
  }

  lemma AppendPending(pending: seq<Pending>, last: Pending)
    ensures SpansIn(pending + [last]) == SpansIn(pending) + |last.spans|
    ensures BytesOf(pending + [last]) == BytesOf(pending) + 10 + |last.field| + 8 * |last.spans|
  {
    assert (pending + [last])[..|pending|] == pending;
  }

  function AsSet(spans: seq<Span>): set<Span> { set s | s in spans }

  /** v reports nothing but spans of the value p reports. */
  predicate Clips(v: Pending, p: Pending) {
    v.field == p.field && v.index == p.index && v.spans != [] && AsSet(v.spans) <= AsSet(p.spans)
  }

  predicate ClipsOne(v: Pending, pending: seq<Pending>) { exists i :: 0 <= i < |pending| && Clips(v, pending[i]) }

  predicate AllClip(values: seq<Pending>, pending: seq<Pending>) {
    forall k :: 0 <= k < |values| ==> ClipsOne(values[k], pending)
  }

  /** What has been emitted after n values: everything so far, or already a proof that not everything fits. */
  ghost predicate Emitted(id: Text, pending: seq<Pending>, n: nat, spansLeft: nat, bytesLeft: nat,
                          values: seq<Pending>, used: nat, bytes: nat, cut: bool)
    requires n <= |pending|
  {
    && used == SpansIn(values) <= spansLeft
    && bytes == RecordBytes(id, values) && (values == [] || bytes <= bytesLeft)
    && (if cut then !Fits(id, pending, spansLeft, bytesLeft) else values == pending[..n])
    && AllClip(values, pending)
  }

  lemma ClipMore(values: seq<Pending>, kept: Pending, pending: seq<Pending>, n: nat)
    requires n < |pending| && Clips(kept, pending[n]) && AllClip(values, pending)
    ensures AllClip(values + [kept], pending)
  {
    forall k | 0 <= k < |values + [kept]| ensures ClipsOne((values + [kept])[k], pending) {
      if k < |values| { assert (values + [kept])[k] == values[k]; } else { assert (values + [kept])[k] == kept; }
    }
  }

  function Keep(spans: nat, header: nat, spansLeft: nat, room: int): nat {
    Min(Min(spans, spansLeft), Max(room - header, 0) / 8)
  }

  lemma KeepBounds(spans: nat, header: nat, spansLeft: nat, room: int)
    ensures var keep := Keep(spans, header, spansLeft, room);
      && keep <= spans && keep <= spansLeft && (keep > 0 ==> header + 8 * keep <= room)
      && (keep < spans ==> spans > spansLeft || header + 8 * spans > room)
  {
  }

  lemma ShortMeansTooLarge(id: Text, pending: seq<Pending>, n: nat, spansLeft: nat, bytesLeft: nat)
    requires n < |pending|
    requires SpansIn(pending[..n]) + |pending[n].spans| > spansLeft
      || RecordBytes(id, pending[..n]) + 10 + |pending[n].field| + 8 * |pending[n].spans| > bytesLeft
    ensures !Fits(id, pending, spansLeft, bytesLeft)
  {
    OneMorePending(pending, n);
    PrefixTotals(pending, n + 1);
  }

  lemma EmitNone(id: Text, pending: seq<Pending>, n: nat, spansLeft: nat, bytesLeft: nat,
                 values: seq<Pending>, used: nat, bytes: nat, cut: bool)
    requires n < |pending| && AllNonempty(pending) && Emitted(id, pending, n, spansLeft, bytesLeft, values, used, bytes, cut)
    requires Keep(|pending[n].spans|, 10 + |pending[n].field|, spansLeft - used, bytesLeft - bytes) == 0
    ensures Emitted(id, pending, n + 1, spansLeft, bytesLeft, values, used, bytes, true)
  {
    KeepBounds(|pending[n].spans|, 10 + |pending[n].field|, spansLeft - used, bytesLeft - bytes);
    hide Keep, Fits, AllClip, SpansIn, BytesOf;
    if !cut { ShortMeansTooLarge(id, pending, n, spansLeft, bytesLeft); }
  }

  lemma EmitSome(id: Text, pending: seq<Pending>, n: nat, spansLeft: nat, bytesLeft: nat,
                 values: seq<Pending>, used: nat, bytes: nat, cut: bool, kept: Pending)
    requires n < |pending| && Emitted(id, pending, n, spansLeft, bytesLeft, values, used, bytes, cut)
    requires |kept.spans| <= |pending[n].spans| && |kept.spans| == Keep(|pending[n].spans|, 10 + |pending[n].field|, spansLeft - used, bytesLeft - bytes)
    requires Clips(kept, pending[n]) && kept.spans == pending[n].spans[..|kept.spans|]
    ensures Emitted(id, pending, n + 1, spansLeft, bytesLeft, values + [kept],
                    used + |kept.spans|, bytes + 10 + |kept.field| + 8 * |kept.spans|, cut || |kept.spans| < |pending[n].spans|)
  {
    KeepBounds(|pending[n].spans|, 10 + |pending[n].field|, spansLeft - used, bytesLeft - bytes);
    hide Keep, Fits, AllClip, SpansIn, BytesOf;
    AppendPending(values, kept);
    ClipMore(values, kept, pending, n);
    if cut {
    } else if |kept.spans| < |pending[n].spans| {
      ShortMeansTooLarge(id, pending, n, spansLeft, bytesLeft);
    } else {
      assert kept.spans == pending[n].spans;
      assert pending[..n + 1] == pending[..n] + [kept];
    }
  }

  /** The part of a record that fits the remaining allowances; everything, exactly when everything fits. */
  method Emit(id: Text, pending: seq<Pending>, spansLeft: nat, bytesLeft: nat)
    returns (values: seq<Pending>, used: nat, bytes: nat, clipped: bool)
    requires AllNonempty(pending)
    ensures clipped || bytes > bytesLeft <==> !Fits(id, pending, spansLeft, bytesLeft)
    ensures !clipped ==> values == pending
    ensures used == SpansIn(values) <= spansLeft
    ensures bytes == RecordBytes(id, values) && (values == [] || bytes <= bytesLeft)
    ensures AllClip(values, pending)
  {
    values, used, bytes, clipped := [], 0, 6 + |id|, false;
    var n := 0;
    assert Emitted(id, pending, n, spansLeft, bytesLeft, values, used, bytes, clipped);
    while n < |pending|
      invariant n <= |pending|
      invariant used <= spansLeft && Emitted(id, pending, n, spansLeft, bytesLeft, values, used, bytes, clipped)
    {
      hide Emitted, Keep, Fits, AllClip, SpansIn, BytesOf;
      var next := pending[n];
      var header := 10 + |next.field|;
      var keep := Keep(|next.spans|, header, spansLeft - used, bytesLeft - bytes);
      if keep == 0 {
        EmitNone(id, pending, n, spansLeft, bytesLeft, values, used, bytes, clipped);
        clipped := true;
      } else {
        KeepBounds(|next.spans|, header, spansLeft - used, bytesLeft - bytes);
        var kept := Pending(next.field, next.index, next.spans[..keep]);
        assert AsSet(kept.spans) <= AsSet(next.spans);
        EmitSome(id, pending, n, spansLeft, bytesLeft, values, used, bytes, clipped, kept);
        values := values + [kept];
        used, bytes := used + keep, bytes + header + 8 * keep;
        if keep < |next.spans| { clipped := true; }
      }
      n := n + 1;
    }
    assert pending[..n] == pending;
  }

  // ---- sets of spans ----

  function SpanSet(events: seq<Event>): set<Span> { set s | s in SpansOf(events) }

  lemma {:induction false} DistinctSize(spans: seq<Span>)
    requires forall i, j :: 0 <= i < j < |spans| ==> spans[i] != spans[j]
    ensures |AsSet(spans)| == |spans|
  {
    if spans != [] {
      var front, last := spans[..|spans| - 1], spans[|spans| - 1];
      DistinctSize(front);
      assert AsSet(spans) == AsSet(front) + {last};
    }
  }

  lemma SortedSet(spans: seq<Span>)
    ensures AsSet(Sorted(spans)) == AsSet(spans)
  {
    SpanOrder();
    TopN.SortOrdered(SpanLess, spans);
    forall s ensures s in Sorted(spans) <==> s in spans {
      assert s in multiset(Sorted(spans)) <==> s in multiset(spans);
    }
  }

  lemma {:induction false} LeastExists(s: set<Span>)
    requires s != {}
    ensures exists m :: m in s && forall y :: y in s ==> !SpanLess(y, m)
    decreases |s|
  {
    var x :| x in s;
    var rest := s - {x};
    if rest == {} {
      assert s == rest + {x} == {x};
    } else {
      LeastExists(rest);
      var m :| m in rest && forall y :: y in rest ==> !SpanLess(y, m);
      var least := if SpanLess(x, m) then x else m;
      assert forall y :: y in s ==> y == x || y in rest;
      assert least in s && forall y :: y in s ==> !SpanLess(y, least);
    }
  }

  /** A set of spans in ascending order. */
  function InOrder(s: set<Span>): (r: seq<Span>)
    ensures s != {} ==> r != []
    decreases |s|
  {
    if s == {} then []
    else
      LeastExists(s);
      var m :| m in s && forall y :: y in s ==> !SpanLess(y, m);
      [m] + InOrder(s - {m})
  }

  lemma Prepend(m: Span, rest: seq<Span>)
    requires TopN.Ordered(SpanLess, rest) && forall y :: y in AsSet(rest) ==> !SpanLess(y, m)
    ensures TopN.Ordered(SpanLess, [m] + rest) && AsSet([m] + rest) == {m} + AsSet(rest)
  {
    forall y | y in multiset(rest) ensures !SpanLess(y, m) { assert y in AsSet(rest); }
    TopN.OrderedCons(SpanLess, m, rest);
  }

  /** Ascending order loses and repeats nothing. */
  lemma {:induction false} InOrderIsOrdered(s: set<Span>)
    ensures TopN.Ordered(SpanLess, InOrder(s)) && AsSet(InOrder(s)) == s && |InOrder(s)| == |s|
    decreases |s|
  {
    hide TopN.Ordered;
    if s == {} {
      assert TopN.Ordered(SpanLess, []) by { TopN.SortOrdered(SpanLess, []); SpanOrder(); }
    } else {
      LeastExists(s);
      var m :| m in s && forall y :: y in s ==> !SpanLess(y, m);
      InOrderIsOrdered(s - {m});
      Prepend(m, InOrder(s - {m}));
    }
  }

  /** Adds unseen spans while the shared allowance lasts. */
  method AddSpans(entry: set<Span>, spans: seq<Span>, allowance: nat, mayDefer: bool)
    returns (deferred: bool, grown: set<Span>, left: nat, full: bool)
    ensures |AsSet(spans) - entry| <= allowance ==>
      !deferred && !full && grown == entry + AsSet(spans) && left == allowance - |AsSet(spans) - entry|
    ensures |AsSet(spans) - entry| > allowance ==> deferred == mayDefer && full == !mayDefer
    ensures entry <= grown <= entry + AsSet(spans) && |grown| + left == |entry| + allowance
  {
    grown, left, full, deferred := entry, allowance, false, false;
    var k := 0;
    while k < |spans|
      invariant k <= |spans|
      invariant grown == entry + AsSet(spans[..k])
      invariant left == allowance - |AsSet(spans[..k]) - entry|
      invariant |grown| + left == |entry| + allowance
    {
      var span := spans[k];
      assert AsSet(spans[..k + 1]) == AsSet(spans[..k]) + {span};
      if span in grown {
        assert AsSet(spans[..k + 1]) - entry == AsSet(spans[..k]) - entry;
      } else {
        assert AsSet(spans[..k + 1]) - entry == AsSet(spans[..k]) - entry + {span};
        if left == 0 {
          SubsetIsNoLarger(AsSet(spans[..k + 1]) - entry, AsSet(spans) - entry);
          deferred, full := mayDefer, !mayDefer;
          return;
        }
        grown, left := grown + {span}, left - 1;
      }
      k := k + 1;
    }
    assert spans[..k] == spans;
  }

  // ---- what the credited leaves cost and yield when nothing is limited ----

  datatype Tally = Tally(entries: seq<set<Span>>, cost: nat)

  function SpanEvents(t: Tracer, leaf: TracedLeaf, source: Source): seq<Event> {
    Events(t, leaf.plan, source.analyzed, source.surface, false)
  }

  function Include(tally: Tally, s: nat, spans: set<Span>, cost: nat): (r: Tally)
    requires s < |tally.entries|
    ensures |r.entries| == |tally.entries|
  {
    Tally(tally.entries[s := tally.entries[s] + spans], tally.cost + cost)
  }

  /** One credited leaf over the first n sources. */
  function Grow(t: Tracer, leaf: TracedLeaf, sources: seq<Source>, start: Tally, n: nat): (r: Tally)
    requires n <= |sources| == |start.entries|
    ensures |r.entries| == |sources|
  {
    if n == 0 then start
    else
      var before, source := Grow(t, leaf, sources, start, n - 1), sources[n - 1];
      if source.field !in leaf.fields then before
      else Include(before, n - 1, SpanSet(SpanEvents(t, leaf, source)), Cost(leaf, source))
  }

  function Credit(t: Tracer, leaves: seq<TracedLeaf>, credited: seq<nat>, sources: seq<Source>): (r: Tally)
    requires forall i :: 0 <= i < |credited| ==> credited[i] < |leaves|
    ensures |r.entries| == |sources|
  {
    if credited == [] then Tally(seq(|sources|, i => {}), 0)
    else
      var before := Credit(t, leaves, credited[..|credited| - 1], sources);
      Grow(t, leaves[credited[|credited| - 1]], sources, before, |sources|)
  }

  function Total(entries: seq<set<Span>>): nat {
    if entries == [] then 0 else Total(entries[..|entries| - 1]) + |entries[|entries| - 1]|
  }

  predicate Below(a: Tally, b: Tally) {
    |a.entries| == |b.entries| && a.cost <= b.cost && forall i :: 0 <= i < |a.entries| ==> a.entries[i] <= b.entries[i]
  }

  predicate Overspends(tally: Tally, work: nat, spans: nat) { tally.cost > work || Total(tally.entries) > spans }

  lemma {:induction false} TotalUpdate(entries: seq<set<Span>>, i: nat, spans: set<Span>)
    requires i < |entries|
    ensures Total(entries[i := spans]) == Total(entries) - |entries[i]| + |spans|
  {
    var n := |entries| - 1;
    var updated := entries[i := spans];
    if i == n {
      assert updated[..n] == entries[..n];
    } else {
      TotalUpdate(entries[..n], i, spans);
      assert updated[..n] == entries[..n][i := spans];
    }
  }

  lemma {:induction false} TotalMonotone(a: seq<set<Span>>, b: seq<set<Span>>)
    requires |a| == |b| && forall i :: 0 <= i < |a| ==> a[i] <= b[i]
    ensures Total(a) <= Total(b)
  {
    if a != [] {
      SubsetIsNoLarger(a[|a| - 1], b[|a| - 1]);
      TotalMonotone(a[..|a| - 1], b[..|a| - 1]);
    }
  }

  lemma OverspendingStays(a: Tally, b: Tally, work: nat, spans: nat)
    requires Below(a, b) && Overspends(a, work, spans)
    ensures Overspends(b, work, spans)
  {
    TotalMonotone(a.entries, b.entries);
  }

  lemma {:induction false} GrowGrows(t: Tracer, leaf: TracedLeaf, sources: seq<Source>, start: Tally, m: nat, n: nat)
    requires m <= n <= |sources| == |start.entries|
    ensures Below(Grow(t, leaf, sources, start, m), Grow(t, leaf, sources, start, n))
    decreases n
  {
    if m < n { GrowGrows(t, leaf, sources, start, m, n - 1); }
  }

  lemma {:induction false} CreditGrows(t: Tracer, leaves: seq<TracedLeaf>, credited: seq<nat>, sources: seq<Source>, n: nat)
    requires n <= |credited| && forall i :: 0 <= i < |credited| ==> credited[i] < |leaves|
    ensures Below(Credit(t, leaves, credited[..n], sources), Credit(t, leaves, credited, sources))
  {
    if n == |credited| {
      assert credited[..n] == credited;
    } else {
      var front := credited[..|credited| - 1];
      CreditGrows(t, leaves, front, sources, n);
      assert front[..n] == credited[..n];
      GrowGrows(t, leaves[credited[|credited| - 1]], sources, Credit(t, leaves, front, sources), 0, |sources|);
    }
  }

  // ---- the limited run against the unlimited one ----

  /** The limited run has followed the unlimited one exactly, or the unlimited one is known not to fit. */
  ghost predicate Accounts(tally: Tally, work: nat, spans: nat, entries: seq<set<Span>>, workLeft: nat, spansLeft: nat, exhausted: bool) {
    && |entries| == |tally.entries|
    && Total(entries) + spansLeft == spans && workLeft <= work
    && (forall i :: 0 <= i < |entries| ==> entries[i] <= tally.entries[i])
    && (if exhausted then Overspends(tally, work, spans) else entries == tally.entries && tally.cost + workLeft == work)
  }

  lemma StepUnaffordable(tally: Tally, work: nat, spans: nat, entries: seq<set<Span>>, workLeft: nat, spansLeft: nat, exhausted: bool,
                         s: nat, more: set<Span>, cost: nat)
    requires Accounts(tally, work, spans, entries, workLeft, spansLeft, exhausted)
    requires s < |entries| && cost > workLeft
    ensures Accounts(Include(tally, s, more, cost), work, spans, entries, workLeft, spansLeft, true)
    ensures !exhausted ==> Overspends(Include(tally, s, more, cost), work, spans)
  {
    var next := Include(tally, s, more, cost);
    assert Below(tally, next);
    if exhausted { OverspendingStays(tally, next, work, spans); }
  }

  lemma UnionSize(a: set<Span>, b: set<Span>)
    ensures |a + b| == |a| + |b - a| && |a + b| >= |b|
  {
    assert a + b == a + (b - a);
    SubsetIsNoLarger(b, a + b);
  }

  lemma StepAdded(tally: Tally, work: nat, spans: nat, entries: seq<set<Span>>, workLeft: nat, spansLeft: nat, exhausted: bool,
                  s: nat, more: set<Span>, cost: nat, grown: set<Span>, left: nat, full: bool)
    requires Accounts(tally, work, spans, entries, workLeft, spansLeft, exhausted)
    requires s < |entries| && cost <= workLeft
    requires entries[s] <= grown <= entries[s] + more && |grown| + left == |entries[s]| + spansLeft
    requires !exhausted && full ==> |entries[s] + more| > |entries[s]| + spansLeft
    requires !full ==> grown == entries[s] + more
    ensures Accounts(Include(tally, s, more, cost), work, spans, entries[s := grown], workLeft - cost, left, exhausted || full)
  {
    var next := Include(tally, s, more, cost);
    assert Below(tally, next);
    TotalUpdate(entries, s, grown);
    if exhausted {
      OverspendingStays(tally, next, work, spans);
    } else if full {
      TotalUpdate(tally.entries, s, tally.entries[s] + more);
    }
  }

  /** The spans of one source of a credited leaf, within what is left. */
  method CreditSource(t: Tracer, leaf: TracedLeaf, source: Source, entry: set<Span>, allowance: nat, mayDefer: bool)
    returns (deferred: bool, grown: set<Span>, left: nat, full: bool)
    requires Lawful(t) && ValidLeaf(leaf)
    ensures var more := SpanSet(SpanEvents(t, leaf, source));
      && entry <= grown <= entry + more && |grown| + left == |entry| + allowance
      && (deferred || full ==> |entry + more| > |entry| + allowance)
      && (deferred ==> mayDefer) && (mayDefer ==> !full)
      && (!deferred && !full ==> grown == entry + more)
  {
    ghost var events := SpanEvents(t, leaf, source);
    ghost var more := SpanSet(events);
    EventsAreLawful(t, leaf.plan, source.analyzed, source.surface, false);
    var max := allowance + |entry|;
    var spans, terms, cut := TraceTokens(leaf.plan, Passes(t, leaf.plan, source.analyzed, source.surface, false), max);
    ghost var distinct := SpansOf(events);
    DistinctSize(distinct);
    SortedSet(distinct[..Min(max, |distinct|)]);
    UnionSize(entry, more);
    UnionSize(entry, AsSet(spans));
    if cut && mayDefer {
      return true, entry, allowance, false;
    }
    assert AsSet(spans) <= more;
    assert !cut ==> distinct[..Min(max, |distinct|)] == distinct;
    deferred, grown, left, full := AddSpans(entry, spans, allowance, mayDefer);
    SubsetIsNoLarger(AsSet(spans) - entry, more - entry);
    full := full || cut;
  }

  /** One source of a credited leaf: skipped when the work left does not cover it, added to its entry otherwise. */
  method TakeSource(t: Tracer, leaf: TracedLeaf, source: Source, s: nat, ghost before: Tally, ghost work: nat, ghost spans: nat,
                    entries0: seq<set<Span>>, workLeft0: nat, spansLeft0: nat, exhausted0: bool, mayDefer: bool)
    returns (deferred: bool, entries: seq<set<Span>>, workLeft: nat, spansLeft: nat, exhausted: bool)
    requires Lawful(t) && ValidLeaf(leaf) && s < |entries0| && s < |before.entries|
    requires Accounts(before, work, spans, entries0, workLeft0, spansLeft0, exhausted0) && (mayDefer ==> !exhausted0)
    ensures var after := Include(before, s, SpanSet(SpanEvents(t, leaf, source)), Cost(leaf, source));
      && |entries| == |entries0|
      && (deferred ==> mayDefer && Overspends(after, work, spans))
      && (!deferred ==> Accounts(after, work, spans, entries, workLeft, spansLeft, exhausted) && (mayDefer ==> !exhausted))
  {
    hide Accounts, Below;
    deferred, entries, workLeft, spansLeft, exhausted := false, entries0, workLeft0, spansLeft0, exhausted0;
    ghost var more := SpanSet(SpanEvents(t, leaf, source));
    var cost := Cost(leaf, source);
    if cost > workLeft {
      StepUnaffordable(before, work, spans, entries, workLeft, spansLeft, exhausted, s, more, cost);
      deferred, exhausted := mayDefer, !mayDefer;
    } else {
      AccountsLength(before, work, spans, entries, workLeft, spansLeft, exhausted);
      var gaveUp, grown, left, full := CreditSource(t, leaf, source, entries[s], spansLeft, mayDefer);
      StepAdded(before, work, spans, entries, workLeft, spansLeft, exhausted, s, more, cost, grown, left, full || gaveUp);
      if gaveUp {
        AccountsExhausted(Include(before, s, more, cost), work, spans, entries[s := grown], workLeft - cost, left);
        deferred := true;
      } else {
        entries := entries[s := grown];
        workLeft, spansLeft, exhausted := workLeft - cost, left, exhausted || full;
      }
    }
  }

  method CreditLeaf(t: Tracer, leaf: TracedLeaf, sources: seq<Source>, ghost start: Tally, ghost work: nat, ghost spans: nat,
                    entries0: seq<set<Span>>, workLeft0: nat, spansLeft0: nat, exhausted0: bool, mayDefer: bool)
    returns (deferred: bool, entries: seq<set<Span>>, workLeft: nat, spansLeft: nat, exhausted: bool)
    requires Lawful(t) && ValidLeaf(leaf) && |start.entries| == |sources|
    requires Accounts(start, work, spans, entries0, workLeft0, spansLeft0, exhausted0) && (mayDefer ==> !exhausted0)
    ensures deferred ==> mayDefer && Overspends(Grow(t, leaf, sources, start, |sources|), work, spans)
    ensures !deferred && mayDefer ==> !exhausted
    ensures !deferred ==> Accounts(Grow(t, leaf, sources, start, |sources|), work, spans, entries, workLeft, spansLeft, exhausted)
  {
    hide Accounts, Below, Overspends;
    deferred, entries, workLeft, spansLeft, exhausted := false, entries0, workLeft0, spansLeft0, exhausted0;
    AccountsLength(start, work, spans, entries, workLeft, spansLeft, exhausted);
    var s := 0;
    while s < |sources|
      invariant s <= |sources| == |entries|
      invariant mayDefer ==> !exhausted
      invariant Accounts(Grow(t, leaf, sources, start, s), work, spans, entries, workLeft, spansLeft, exhausted)
    {
      if sources[s].field in leaf.fields {
        deferred, entries, workLeft, spansLeft, exhausted := TakeSource(t, leaf, sources[s], s, Grow(t, leaf, sources, start, s),
          work, spans, entries, workLeft, spansLeft, exhausted, mayDefer);
        if deferred {
          GrowGrows(t, leaf, sources, start, s + 1, |sources|);
          OverspendingStays(Grow(t, leaf, sources, start, s + 1), Grow(t, leaf, sources, start, |sources|), work, spans);
          return;
        }
      }
      s := s + 1;
    }
  }

  lemma AccountsLength(tally: Tally, work: nat, spans: nat, entries: seq<set<Span>>, workLeft: nat, spansLeft: nat, exhausted: bool)
    requires Accounts(tally, work, spans, entries, workLeft, spansLeft, exhausted)
    ensures |entries| == |tally.entries|
  {
  }

  lemma AccountsExhausted(tally: Tally, work: nat, spans: nat, entries: seq<set<Span>>, workLeft: nat, spansLeft: nat)
    requires Accounts(tally, work, spans, entries, workLeft, spansLeft, true)
    ensures Overspends(tally, work, spans)
  {
  }

  /** All credited leaves of a matching record: the record is deferred, or its spans are gathered; they are all of its
      spans exactly when they and the work they take fit what the page has left. */
  method CreditRecord(t: Tracer, leaves: seq<TracedLeaf>, credited: seq<nat>, sources: seq<Source>, work: nat, spans: nat, mayDefer: bool)
    returns (deferred: bool, entries: seq<set<Span>>, workLeft: nat, spansLeft: nat, exhausted: bool)
    requires Lawful(t) && forall i :: 0 <= i < |leaves| ==> ValidLeaf(leaves[i])
    requires forall i :: 0 <= i < |credited| ==> credited[i] < |leaves|
    ensures deferred ==> mayDefer && Overspends(Credit(t, leaves, credited, sources), work, spans)
    ensures !deferred && mayDefer ==> !exhausted
    ensures !deferred ==> Accounts(Credit(t, leaves, credited, sources), work, spans, entries, workLeft, spansLeft, exhausted)
  {
    entries := seq(|sources|, i => {});
    deferred, workLeft, spansLeft, exhausted := false, work, spans, false;
    NothingYet(entries);
    var c := 0;
    while c < |credited|
      invariant c <= |credited|
      invariant mayDefer ==> !exhausted
      invariant Accounts(Credit(t, leaves, credited[..c], sources), work, spans, entries, workLeft, spansLeft, exhausted)
    {
      hide Accounts, Grow, Overspends;
      ghost var before := Credit(t, leaves, credited[..c], sources);
      assert credited[..c + 1][..c] == credited[..c];
      deferred, entries, workLeft, spansLeft, exhausted := CreditLeaf(t, leaves[credited[c]], sources, before, work, spans,
        entries, workLeft, spansLeft, exhausted, mayDefer);
      if deferred {
        CreditGrows(t, leaves, credited, sources, c + 1);
        OverspendingStays(Credit(t, leaves, credited[..c + 1], sources), Credit(t, leaves, credited, sources), work, spans);
        return;
      }
      c := c + 1;
    }
    assert credited[..c] == credited;
  }

  lemma {:induction false} NothingYet(entries: seq<set<Span>>)
    requires forall i :: 0 <= i < |entries| ==> entries[i] == {}
    ensures Total(entries) == 0
  {
    if entries != [] { NothingYet(entries[..|entries| - 1]); }
  }

  // ---- the report of a record ----

  /** One value per source with spans. */
  function Reported(sources: seq<Source>, entries: seq<set<Span>>): (r: seq<Pending>)
    requires |sources| == |entries|
    ensures AllNonempty(r)
  {
    if sources == [] then []
    else
      var n := |sources| - 1;
      var before := Reported(sources[..n], entries[..n]);
      if entries[n] == {} then before else before + [Pending(sources[n].field, sources[n].index, InOrder(entries[n]))]
  }

  lemma {:induction false} ReportedTotal(sources: seq<Source>, entries: seq<set<Span>>)
    requires |sources| == |entries|
    ensures SpansIn(Reported(sources, entries)) == Total(entries)
  {
    if sources != [] {
      var n := |sources| - 1;
      ReportedTotal(sources[..n], entries[..n]);
      InOrderIsOrdered(entries[n]);
      if entries[n] != {} {
        AppendPending(Reported(sources[..n], entries[..n]), Pending(sources[n].field, sources[n].index, InOrder(entries[n])));
      }
    }
  }

  /** The values of a record in the order of the field name's bytes, then of the value index. */
  function Report(sources: seq<Source>, entries: seq<set<Span>>): seq<Pending>
    requires |sources| == |entries|
  {
    TopN.Sort(PendingLess, Reported(sources, entries))
  }

  lemma {:induction false} InsertTotals(x: Pending, s: seq<Pending>)
    requires AllNonempty(s) && x.spans != []
    ensures var r := TopN.Insert(PendingLess, x, s);
      && AllNonempty(r) && SpansIn(r) == SpansIn(s) + |x.spans| && BytesOf(r) == BytesOf(s) + 10 + |x.field| + 8 * |x.spans|
  {
    hide AllNonempty;
    var r := TopN.Insert(PendingLess, x, s);
    if s == [] || PendingLess(x, s[0]) {
      FrontTotals(x, s);
    } else {
      assert AllNonempty(s[1..]) && s[0].spans != [] by { NonemptyParts(s); }
      InsertTotals(x, s[1..]);
      FrontTotals(s[0], TopN.Insert(PendingLess, x, s[1..]));
      FrontTotals(s[0], s[1..]);
      assert s == [s[0]] + s[1..];
    }
  }

  lemma NonemptyParts(s: seq<Pending>)
    requires AllNonempty(s) && s != []
    ensures AllNonempty(s[1..]) && s[0].spans != [] && AllNonempty(s[..|s| - 1]) && s[|s| - 1].spans != []
  {
  }

  lemma {:induction false} FrontTotals(x: Pending, s: seq<Pending>)
    requires AllNonempty(s) && x.spans != []
    ensures AllNonempty([x] + s) && SpansIn([x] + s) == SpansIn(s) + |x.spans|
    ensures BytesOf([x] + s) == BytesOf(s) + 10 + |x.field| + 8 * |x.spans|
  {
    if s == [] {
      AppendPending([], x);
      assert [x] + s == [] + [x];
    } else {
      var front, last := s[..|s| - 1], s[|s| - 1];
      FrontTotals(x, front);
      AppendPending(front, last);
      AppendPending([x] + front, last);
      assert s == front + [last] && [x] + s == ([x] + front) + [last];
    }
  }

  lemma {:induction false} SortTotals(s: seq<Pending>)
    requires AllNonempty(s)
    ensures var r := TopN.Sort(PendingLess, s);
      AllNonempty(r) && SpansIn(r) == SpansIn(s) && BytesOf(r) == BytesOf(s)
  {
    if s != [] {
      var front, last := s[..|s| - 1], s[|s| - 1];
      NonemptyParts(s);
      SortTotals(front);
      InsertTotals(last, TopN.Sort(PendingLess, front));
      AppendPending(front, last);
      assert s == front + [last];
    }
  }

  // ---- partial reports say nothing false ----

  lemma ClipsTransitive(a: Pending, b: Pending, c: Pending)
    requires Clips(a, b) && Clips(b, c)
    ensures Clips(a, c)
  {
  }

  lemma ClipsChain(a: seq<Pending>, b: seq<Pending>, c: seq<Pending>)
    requires AllClip(a, b) && AllClip(b, c)
    ensures AllClip(a, c)
  {
    hide Clips;
    forall k | 0 <= k < |a| ensures ClipsOne(a[k], c) {
      assert ClipsOne(a[k], b);
      var j :| 0 <= j < |b| && Clips(a[k], b[j]);
      assert ClipsOne(b[j], c);
      var i :| 0 <= i < |c| && Clips(b[j], c[i]);
      ClipsTransitive(a[k], b[j], c[i]);
    }
  }

  lemma SortedMembers(s: seq<Pending>)
    ensures multiset(TopN.Sort(PendingLess, s)) == multiset(s)
  {
    if s != [] {
      SortedMembers(s[..|s| - 1]);
      InsertMembers(s[|s| - 1], TopN.Sort(PendingLess, s[..|s| - 1]));
      assert s == s[..|s| - 1] + [s[|s| - 1]];
    }
  }

  lemma InsertMembers(x: Pending, s: seq<Pending>)
    ensures multiset(TopN.Insert(PendingLess, x, s)) == multiset(s) + multiset{x}
  {
    if s != [] && !PendingLess(x, s[0]) {
      InsertMembers(x, s[1..]);
      assert s == [s[0]] + s[1..];
    }
  }

  lemma MemberClips(v: Pending, a: seq<Pending>, b: seq<Pending>, c: seq<Pending>)
    requires v in multiset(a) && AllClip(a, b) && multiset(b) == multiset(c)
    ensures ClipsOne(v, c)
  {
    hide Clips;
    var m :| 0 <= m < |a| && a[m] == v;
    assert ClipsOne(a[m], b);
    var j :| 0 <= j < |b| && Clips(v, b[j]);
    assert b[j] in multiset(b) && b[j] in multiset(c);
    var i :| 0 <= i < |c| && c[i] == b[j];
  }

  lemma SortClips(a: seq<Pending>, b: seq<Pending>)
    requires AllClip(a, b)
    ensures AllClip(TopN.Sort(PendingLess, a), TopN.Sort(PendingLess, b))
  {
    hide ClipsOne;
    var x, y := TopN.Sort(PendingLess, a), TopN.Sort(PendingLess, b);
    SortedMembers(a);
    SortedMembers(b);
    forall k | 0 <= k < |x| ensures ClipsOne(x[k], y) {
      assert x[k] in multiset(x);
      MemberClips(x[k], a, b, y);
    }
  }

  lemma {:induction false} ReportedClips(sources: seq<Source>, a: seq<set<Span>>, b: seq<set<Span>>)
    requires |sources| == |a| == |b| && forall i :: 0 <= i < |a| ==> a[i] <= b[i]
    ensures AllClip(Reported(sources, a), Reported(sources, b))
  {
    if sources != [] {
      var n := |sources| - 1;
      var x, y := Reported(sources[..n], a[..n]), Reported(sources[..n], b[..n]);
      ReportedClips(sources[..n], a[..n], b[..n]);
      InOrderIsOrdered(a[n]);
      InOrderIsOrdered(b[n]);
      hide InOrder;
      if b[n] != {} {
        var last := Pending(sources[n].field, sources[n].index, InOrder(b[n]));
        WiderClips(x, y, last);
        if a[n] != {} {
          var clipped := Pending(sources[n].field, sources[n].index, InOrder(a[n]));
          assert (y + [last])[|y|] == last && Clips(clipped, last);
          ClipMore(x, clipped, y + [last], |y|);
        }
      }
    }
  }

  lemma WiderClips(x: seq<Pending>, y: seq<Pending>, last: Pending)
    requires AllClip(x, y)
    ensures AllClip(x, y + [last])
  {
    hide Clips;
    forall k | 0 <= k < |x| ensures ClipsOne(x[k], y + [last]) {
      var i :| 0 <= i < |y| && Clips(x[k], y[i]);
      assert (y + [last])[i] == y[i];
    }
  }

  lemma ReportClips(sources: seq<Source>, a: seq<set<Span>>, b: seq<set<Span>>)
    requires |sources| == |a| == |b| && forall i :: 0 <= i < |a| ==> a[i] <= b[i]
    ensures AllClip(Report(sources, a), Report(sources, b))
  {
    ReportedClips(sources, a, b);
    SortClips(Reported(sources, a), Reported(sources, b));
  }

  lemma ReportTotals(sources: seq<Source>, entries: seq<set<Span>>)
    requires |sources| == |entries|
    ensures AllNonempty(Report(sources, entries)) && SpansIn(Report(sources, entries)) == Total(entries)
  {
    ReportedTotal(sources, entries);
    SortTotals(Reported(sources, entries));
  }
}
