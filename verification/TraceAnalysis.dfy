/**
 When a record is analyzed whole and every leaf decided: exactly when its values and their tokens stay within the
 allowances, said of the token streams themselves.
 */
module TraceAnalysis {
  import opened Wrappers
  import opened TracePlan
  import opened TraceRecord

  // ---- the tokens of a record ----

  /** The tokens of a value that some leaf may look at. */
  function TokensOf(t: Tracer, surfaceFields: set<Text>, v: Value): nat {
    |t.index(v.text)| + if v.field in surfaceFields then |t.surface(v.text)| else 0
  }

  function AllTokens(t: Tracer, surfaceFields: set<Text>, vs: seq<Value>): nat {
    if vs == [] then 0 else AllTokens(t, surfaceFields, vs[..|vs| - 1]) + TokensOf(t, surfaceFields, vs[|vs| - 1])
  }

  /** One source for every value that has tokens, with all of them. */
  function WholeSources(t: Tracer, surfaceFields: set<Text>, vs: seq<Value>): (r: seq<Source>)
    ensures |r| <= |vs|
  {
    if vs == [] then []
    else
      var before, v := WholeSources(t, surfaceFields, vs[..|vs| - 1]), vs[|vs| - 1];
      if TokensOf(t, surfaceFields, v) == 0 then before
      else before + [Source(v.field, v.index, t.index(v.text), if v.field in surfaceFields then t.surface(v.text) else [], false, false)]
  }

  /** A value can be taken up whole after `used` tokens in `count` sources: there is room for a source, allowance is left
      (an empty value needs none), and both its streams fit what is left and the limit of a value. */
  predicate ValueFits(t: Tracer, surfaceFields: set<Text>, v: Value, count: nat, used: nat) {
    && count < MAX_TRACE_EXPRESSION_VALUES
    && (used < MAX_TRACE_EXPRESSION_TOKENS || v.text == [])
    && |t.index(v.text)| <= MAX_TRACE_TOKENS_PER_VALUE
    && used + |t.index(v.text)| <= MAX_TRACE_EXPRESSION_TOKENS
    && (v.field in surfaceFields ==>
          && |t.surface(v.text)| <= MAX_TRACE_TOKENS_PER_VALUE
          && used + |t.index(v.text)| + |t.surface(v.text)| <= MAX_TRACE_EXPRESSION_TOKENS
          && (used + |t.index(v.text)| < MAX_TRACE_EXPRESSION_TOKENS || v.text == []))
  }

  /** Every value can be taken up whole after those before it. */
  predicate ValuesFit(t: Tracer, surfaceFields: set<Text>, vs: seq<Value>) {
    forall k :: 0 <= k < |vs| ==>
      ValueFits(t, surfaceFields, vs[k], |WholeSources(t, surfaceFields, vs[..k])|, AllTokens(t, surfaceFields, vs[..k]))
  }

  lemma FitsFront(t: Tracer, surfaceFields: set<Text>, vs: seq<Value>)
    requires vs != []
    ensures var front := vs[..|vs| - 1];
      var last := ValueFits(t, surfaceFields, vs[|vs| - 1], |WholeSources(t, surfaceFields, front)|, AllTokens(t, surfaceFields, front));
      ValuesFit(t, surfaceFields, vs) <==> ValuesFit(t, surfaceFields, front) && last
  {
    hide ValueFits, WholeSources, AllTokens;
    var front := vs[..|vs| - 1];
    forall k | 0 <= k < |front| ensures front[k] == vs[k] && front[..k] == vs[..k] {}
    if ValuesFit(t, surfaceFields, front)
       && ValueFits(t, surfaceFields, vs[|vs| - 1], |WholeSources(t, surfaceFields, front)|, AllTokens(t, surfaceFields, front)) {
      forall k | 0 <= k < |vs|
        ensures ValueFits(t, surfaceFields, vs[k], |WholeSources(t, surfaceFields, vs[..k])|, AllTokens(t, surfaceFields, vs[..k]))
      {
        if k < |front| { assert front[..k] == vs[..k]; }
      }
    }
  }

  /** Few values, short streams and few tokens in all fit; only an allowance used up to the last token can leave out more. */
  lemma {:induction false} SmallFits(t: Tracer, surfaceFields: set<Text>, vs: seq<Value>)
    requires |vs| <= MAX_TRACE_EXPRESSION_VALUES && AllTokens(t, surfaceFields, vs) < MAX_TRACE_EXPRESSION_TOKENS
    requires forall k :: 0 <= k < |vs| ==> |t.index(vs[k].text)| <= MAX_TRACE_TOKENS_PER_VALUE
    requires forall k :: 0 <= k < |vs| && vs[k].field in surfaceFields ==> |t.surface(vs[k].text)| <= MAX_TRACE_TOKENS_PER_VALUE
    ensures ValuesFit(t, surfaceFields, vs)
  {
    if vs != [] {
      var front := vs[..|vs| - 1];
      SmallFits(t, surfaceFields, front);
      FitsFront(t, surfaceFields, vs);
      hide ValuesFit;
    }
  }

  lemma {:induction false} TokensOfPrefix(t: Tracer, surfaceFields: set<Text>, vs: seq<Value>, k: nat)
    requires k <= |vs|
    ensures AllTokens(t, surfaceFields, vs[..k]) <= AllTokens(t, surfaceFields, vs)
  {
    if k == |vs| {
      assert vs[..k] == vs;
    } else {
      assert vs[..|vs| - 1][..k] == vs[..k];
      TokensOfPrefix(t, surfaceFields, vs[..|vs| - 1], k);
    }
  }

  lemma TokensOneMore(t: Tracer, surfaceFields: set<Text>, vs: seq<Value>, k: nat)
    requires k < |vs|
    ensures AllTokens(t, surfaceFields, vs[..k + 1]) == AllTokens(t, surfaceFields, vs[..k]) + TokensOf(t, surfaceFields, vs[k])
  {
    assert vs[..k + 1][..k] == vs[..k];
  }

  /** At most 4096 values of at most 262144 tokens each, with at most 524288 tokens in all, fit exactly unless a value that
      is not empty comes after the last token of the allowance is used. */
  lemma FitsWithinLimits(t: Tracer, vs: seq<Value>)
    requires |vs| <= MAX_TRACE_EXPRESSION_VALUES && AllTokens(t, {}, vs) <= MAX_TRACE_EXPRESSION_TOKENS
    requires forall k :: 0 <= k < |vs| ==> |t.index(vs[k].text)| <= MAX_TRACE_TOKENS_PER_VALUE
    ensures ValuesFit(t, {}, vs) <==>
      forall k :: 0 <= k < |vs| && AllTokens(t, {}, vs[..k]) == MAX_TRACE_EXPRESSION_TOKENS ==> vs[k].text == []
  {
    hide AllTokens, WholeSources;
    forall k | 0 <= k < |vs|
      ensures ValueFits(t, {}, vs[k], |WholeSources(t, {}, vs[..k])|, AllTokens(t, {}, vs[..k]))
        <==> (AllTokens(t, {}, vs[..k]) == MAX_TRACE_EXPRESSION_TOKENS ==> vs[k].text == [])
    {
      TokensOneMore(t, {}, vs, k);
      TokensOfPrefix(t, {}, vs, k + 1);
    }
  }

  /** Such a record: its tokens are just the allowance, and a value of no tokens, but not empty, comes last. */
  lemma UsedUpAllowance() returns (t: Tracer, vs: seq<Value>)
    ensures |vs| == 3 && AllTokens(t, {}, vs) == MAX_TRACE_EXPRESSION_TOKENS
    ensures forall k :: 0 <= k < |vs| ==> |t.index(vs[k].text)| <= MAX_TRACE_TOKENS_PER_VALUE
    ensures |t.index(vs[2].text)| == 0 && !ValuesFit(t, {}, vs)
  {
    var word, space: Text := [97], [32];
    var many := seq(MAX_TRACE_TOKENS_PER_VALUE, i => Token(word, 0, None));
    t := Tracer(text => if text == word then many else [], text => [], (a, b, c, d) => []);
    vs := [Value([], 0, word), Value([], 1, word), Value([], 2, space)];
    assert vs[..0] == [];
    TokensOneMore(t, {}, vs, 0);
    TokensOneMore(t, {}, vs, 1);
    TokensOneMore(t, {}, vs, 2);
    assert vs[..3] == vs;
    FitsWithinLimits(t, vs);
  }

  // ---- what is analyzed ----

  lemma AdmitFitting(t: Tracer, surfaceFields: set<Text>, a: Analysis, v: Value, used: nat)
    requires used + a.left == MAX_TRACE_EXPRESSION_TOKENS && ValueFits(t, surfaceFields, v, |a.sources|, used)
    ensures var n := TokensOf(t, surfaceFields, v);
      n <= a.left && Admit(t, surfaceFields, a, v) == Analysis(
        a.sources + (if n == 0 then [] else
          [Source(v.field, v.index, t.index(v.text), if v.field in surfaceFields then t.surface(v.text) else [], false, false)]),
        a.missing, a.left - n)
  {
    var stream, exposed := t.index(v.text), t.surface(v.text);
    assert stream[..|stream|] == stream && exposed[..|exposed|] == exposed && exposed[..0] == [];
  }

  /** A record that fits is analyzed whole: nothing is skipped and nothing cut off. */
  lemma {:induction false} AnalyzedWhole(t: Tracer, surfaceFields: set<Text>, vs: seq<Value>)
    requires ValuesFit(t, surfaceFields, vs)
    ensures AllTokens(t, surfaceFields, vs) <= MAX_TRACE_EXPRESSION_TOKENS
    ensures Analyze(t, surfaceFields, vs)
      == Analysis(WholeSources(t, surfaceFields, vs), {}, MAX_TRACE_EXPRESSION_TOKENS - AllTokens(t, surfaceFields, vs))
  {
    if vs != [] {
      var front := vs[..|vs| - 1];
      FitsFront(t, surfaceFields, vs);
      hide ValuesFit, Admit, ValueFits;
      AnalyzedWhole(t, surfaceFields, front);
      AdmitFitting(t, surfaceFields, Analyze(t, surfaceFields, front), vs[|vs| - 1], AllTokens(t, surfaceFields, front));
    }
  }

  /** Something that a bag of terms looks at was left out: a field is marked, or a token stream cut. */
  predicate LeftOut(a: Analysis, field: Text) {
    field in a.missing || exists i :: 0 <= i < |a.sources| && a.sources[i].field == field && a.sources[i].analyzedTruncated
  }

  lemma LeftOutStays(t: Tracer, a: Analysis, v: Value, field: Text)
    ensures LeftOut(a, field) ==> LeftOut(Admit(t, {}, a, v), field)
    ensures LeftOut(Admit(t, {}, a, v), field) ==> LeftOut(a, field) || v.field == field
  {
    var b := Admit(t, {}, a, v);
    if i :| 0 <= i < |a.sources| && a.sources[i].field == field && a.sources[i].analyzedTruncated {
      assert b.sources[i] == a.sources[i];
    }
    if i :| 0 <= i < |b.sources| && b.sources[i].field == field && b.sources[i].analyzedTruncated {
      if i < |a.sources| { assert b.sources[i] == a.sources[i]; }
    }
  }

  lemma AdmitUnfitting(t: Tracer, a: Analysis, v: Value, used: nat)
    requires used + a.left == MAX_TRACE_EXPRESSION_TOKENS && !ValueFits(t, {}, v, |a.sources|, used)
    ensures LeftOut(Admit(t, {}, a, v), v.field)
  {
    var b := Admit(t, {}, a, v);
    if v.field !in b.missing {
      var last := b.sources[|a.sources|];
      assert last.field == v.field && last.analyzedTruncated;
    }
  }

  lemma {:induction false} LeftOutOfValues(t: Tracer, vs: seq<Value>, field: Text)
    requires LeftOut(Analyze(t, {}, vs), field)
    ensures exists k :: 0 <= k < |vs| && vs[k].field == field
  {
    if vs != [] {
      var front := vs[..|vs| - 1];
      LeftOutStays(t, Analyze(t, {}, front), vs[|vs| - 1], field);
      hide Admit, LeftOut;
      if LeftOut(Analyze(t, {}, front), field) {
        LeftOutOfValues(t, front, field);
        var k :| 0 <= k < |front| && front[k].field == field;
        assert vs[k].field == field;
      }
    }
  }

  lemma {:induction false} UnfitLeavesOut(t: Tracer, vs: seq<Value>) returns (field: Text)
    requires !ValuesFit(t, {}, vs)
    ensures LeftOut(Analyze(t, {}, vs), field)
  {
    var front, v := vs[..|vs| - 1], vs[|vs| - 1];
    FitsFront(t, {}, vs);
    hide ValuesFit, Admit, LeftOut, ValueFits;
    if ValuesFit(t, {}, front) {
      AnalyzedWhole(t, {}, front);
      field := v.field;
      AdmitUnfitting(t, Analyze(t, {}, front), v, AllTokens(t, {}, front));
    } else {
      field := UnfitLeavesOut(t, front);
      LeftOutStays(t, Analyze(t, {}, front), v, field);
    }
  }

  /** Without surface streams to share the allowance with, a record is analyzed whole iff it fits: of one that does not,
      the analysis itself says that something of some field was left out. */
  lemma LeftOutExactly(t: Tracer, vs: seq<Value>)
    ensures ValuesFit(t, {}, vs) <==> forall field :: !LeftOut(Analyze(t, {}, vs), field)
  {
    hide ValuesFit, Analyze;
    if ValuesFit(t, {}, vs) {
      AnalyzedWhole(t, {}, vs);
      NoneLeftOut(t, vs);
    } else {
      var field := UnfitLeavesOut(t, vs);
    }
  }

  lemma {:induction false} NoneLeftOut(t: Tracer, vs: seq<Value>)
    ensures forall i :: 0 <= i < |WholeSources(t, {}, vs)| ==> !WholeSources(t, {}, vs)[i].analyzedTruncated
  {
    if vs != [] { NoneLeftOut(t, vs[..|vs| - 1]); }
  }

  // ---- what the allowances promise when something is left out ----

  /** The tokens kept, of all sources. */
  function KeptTokens(sources: seq<Source>): nat {
    if sources == [] then 0
    else KeptTokens(sources[..|sources| - 1]) + |sources[|sources| - 1].analyzed| + |sources[|sources| - 1].surface|
  }

  /** The source holds the first tokens of one of the record's values, and says whether there were more. */
  predicate IsCutOf(t: Tracer, surfaceFields: set<Text>, s: Source, v: Value) {
    && s.field == v.field && s.index == v.index
    && s.analyzed <= t.index(v.text) && (s.analyzedTruncated <==> s.analyzed != t.index(v.text))
    && |s.analyzed| <= MAX_TRACE_TOKENS_PER_VALUE
    && (if v.field in surfaceFields then
          && s.surface <= t.surface(v.text) && |s.surface| <= MAX_TRACE_TOKENS_PER_VALUE
          && (s.surface != t.surface(v.text) && v.text != [] ==> s.surfaceTruncated)
        else s.surface == [] && !s.surfaceTruncated)
  }

  /** Each source is cut from the value at its place, and places ascend. */
  ghost predicate CutsInOrder(t: Tracer, surfaceFields: set<Text>, sources: seq<Source>, from: seq<nat>, vs: seq<Value>) {
    && |from| == |sources| && (forall i, j :: 0 <= i < j < |from| ==> from[i] < from[j])
    && (forall i :: 0 <= i < |from| ==> from[i] < |vs| && IsCutOf(t, surfaceFields, sources[i], vs[from[i]]))
  }

  lemma CutsOneMore(t: Tracer, surfaceFields: set<Text>, sources: seq<Source>, from: seq<nat>, vs: seq<Value>, v: Value, last: Source)
    requires CutsInOrder(t, surfaceFields, sources, from, vs)
    ensures CutsInOrder(t, surfaceFields, sources, from, vs + [v])
    ensures IsCutOf(t, surfaceFields, last, v) ==> CutsInOrder(t, surfaceFields, sources + [last], from + [|vs|], vs + [v])
  {
    hide IsCutOf;
  }

  /** The sources are cuts of the values, in order, within all allowances; and what is not kept is what is left. */
  ghost predicate Bounded(t: Tracer, surfaceFields: set<Text>, a: Analysis, from: seq<nat>, vs: seq<Value>) {
    && |a.sources| <= MAX_TRACE_EXPRESSION_VALUES && KeptTokens(a.sources) + a.left == MAX_TRACE_EXPRESSION_TOKENS
    && CutsInOrder(t, surfaceFields, a.sources, from, vs)
  }

  lemma BoundedStep(t: Tracer, surfaceFields: set<Text>, a: Analysis, before: seq<nat>, vs: seq<Value>, v: Value) returns (from: seq<nat>)
    requires Bounded(t, surfaceFields, a, before, vs)
    ensures Bounded(t, surfaceFields, Admit(t, surfaceFields, a, v), from, vs + [v])
  {
    hide Admit, IsCutOf, CutsInOrder, KeptTokens;
    var b := Admit(t, surfaceFields, a, v);
    var last := AdmitsOne(t, surfaceFields, a, v);
    CutsOneMore(t, surfaceFields, a.sources, before, vs, v, last);
    if b.sources == a.sources {
      from := before;
    } else {
      KeptOneMore(a.sources, last);
      from := before + [|vs|];
    }
  }

  lemma NothingBounded(t: Tracer, surfaceFields: set<Text>)
    ensures Bounded(t, surfaceFields, Analyze(t, surfaceFields, []), [], [])
  {
  }

  /** Whatever the record, its analysis stays within the allowances and invents nothing. */
  lemma {:induction false} AnalysisIsBounded(t: Tracer, surfaceFields: set<Text>, vs: seq<Value>) returns (from: seq<nat>)
    ensures Bounded(t, surfaceFields, Analyze(t, surfaceFields, vs), from, vs)
  {
    if vs == [] {
      from := [];
      NothingBounded(t, surfaceFields);
    } else {
      var front, v := vs[..|vs| - 1], vs[|vs| - 1];
      hide Bounded, Admit;
      var before := AnalysisIsBounded(t, surfaceFields, front);
      assert vs == front + [v];
      from := BoundedStep(t, surfaceFields, Analyze(t, surfaceFields, front), before, front, v);
    }
  }

  lemma KeptOneMore(sources: seq<Source>, last: Source)
    ensures KeptTokens(sources + [last]) == KeptTokens(sources) + |last.analyzed| + |last.surface|
  {
    assert (sources + [last])[..|sources|] == sources;
  }

  lemma AdmitsOne(t: Tracer, surfaceFields: set<Text>, a: Analysis, v: Value) returns (last: Source)
    requires |a.sources| <= MAX_TRACE_EXPRESSION_VALUES
    ensures var b := Admit(t, surfaceFields, a, v);
      || (b.sources == a.sources && b.left == a.left)
      || (&& b.sources == a.sources + [last] && |a.sources| < MAX_TRACE_EXPRESSION_VALUES
          && IsCutOf(t, surfaceFields, last, v) && b.left + |last.analyzed| + |last.surface| == a.left)
  {
    var b := Admit(t, surfaceFields, a, v);
    last := if |b.sources| > |a.sources| then b.sources[|a.sources|] else Source(v.field, 0, [], [], false, false);
    var stream, exposed := t.index(v.text), t.surface(v.text);
    assert stream[..|stream|] == stream && exposed[..|exposed|] == exposed;
  }

  // ---- the work of judging the leaves ----

  /** The tokens a leaf looks at in the sources of its fields. */
  function CostAll(leaf: TracedLeaf, sources: seq<Source>): nat {
    if sources == [] then 0
    else
      var last := sources[|sources| - 1];
      CostAll(leaf, sources[..|sources| - 1]) + if last.field in leaf.fields then Cost(leaf, last) else 0
  }

  function CostOfLeaves(leaves: seq<TracedLeaf>, sources: seq<Source>): nat {
    if leaves == [] then 0 else CostOfLeaves(leaves[..|leaves| - 1], sources) + CostAll(leaves[|leaves| - 1], sources)
  }

  predicate SeesCut(leaf: TracedLeaf, sources: seq<Source>) {
    exists i :: 0 <= i < |sources| && sources[i].field in leaf.fields && Cut(leaf, sources[i])
  }

  /** A leaf runs out of work iff its sources cost more than there is; if not, exactly that is spent. It is left unknown
      iff it started so, ran out, or one of its sources was cut. */
  lemma {:induction false} WeighExactly(t: Tracer, leaf: TracedLeaf, sources: seq<Source>, start: Judged)
    requires !start.exhausted
    ensures var j := Weigh(t, leaf, sources, start);
      && (j.exhausted <==> CostAll(leaf, sources) > start.work)
      && (!j.exhausted ==> j.work == start.work - CostAll(leaf, sources))
      && (j.unknown <==> start.unknown || j.exhausted || SeesCut(leaf, sources))
  {
    if sources != [] {
      var front, last := sources[..|sources| - 1], sources[|sources| - 1];
      WeighExactly(t, leaf, front, start);
      hide FoundBy, Cut, Cost;
      assert SeesCut(leaf, sources) <==> SeesCut(leaf, front) || (last.field in leaf.fields && Cut(leaf, last)) by {
        if i :| 0 <= i < |sources| && sources[i].field in leaf.fields && Cut(leaf, sources[i]) {
          if i < |front| { assert front[i] == sources[i]; }
        }
        if i :| 0 <= i < |front| && front[i].field in leaf.fields && Cut(leaf, front[i]) { assert sources[i] == front[i]; }
      }
    }
  }

  /** Nothing of the leaf's fields is missing or cut. */
  predicate Undisturbed(leaf: TracedLeaf, a: Analysis) { !MissesField(leaf, a.missing) && !SeesCut(leaf, a.sources) }

  /** The panel runs out of work iff all leaves together cost more than there is, spends exactly that otherwise, and is
      known iff it does not run out and no leaf misses anything. */
  lemma {:induction false} JudgeExactly(t: Tracer, leaves: seq<TracedLeaf>, a: Analysis, work: nat)
    ensures var p := Judge(t, leaves, a, work);
      && (p.exhausted <==> CostOfLeaves(leaves, a.sources) > work)
      && (!p.exhausted ==> p.work == work - CostOfLeaves(leaves, a.sources))
      && (p.known <==> !p.exhausted && forall i :: 0 <= i < |leaves| ==> Undisturbed(leaves[i], a))
  {
    if leaves != [] {
      var front, leaf := leaves[..|leaves| - 1], leaves[|leaves| - 1];
      JudgeExactly(t, front, a, work);
      WeighExactly(t, leaf, a.sources, Judged({}, MissesField(leaf, a.missing), Judge(t, front, a, work).work, false));
      hide Weigh, CostAll, Undisturbed, Verdict;
      assert Undisturbed(leaf, a) == (!MissesField(leaf, a.missing) && !SeesCut(leaf, a.sources)) by { UndisturbedMeans(leaf, a); }
      assert (forall i :: 0 <= i < |leaves| ==> Undisturbed(leaves[i], a))
        == ((forall i :: 0 <= i < |front| ==> Undisturbed(front[i], a)) && Undisturbed(leaf, a)) by {
        forall i | 0 <= i < |front| ensures front[i] == leaves[i] {}
      }
    }
  }

  lemma UndisturbedMeans(leaf: TracedLeaf, a: Analysis)
    ensures Undisturbed(leaf, a) == (!MissesField(leaf, a.missing) && !SeesCut(leaf, a.sources))
  {
  }
}
