/**
 What the preflight adds up, in closed form: every request multiplies what its nested requests need by the buckets it makes,
 and an estimate accepts exactly what stays within the limits in total.
 */
module PreflightTotals {
  import opened Wrappers
  import opened Preflight

  // ---- what one parent needs ----

  function Times(a: nat, b: nat): nat { a * b }

  /** Buckets one parent keeps of a request: ten times the size asked for, if so many terms occur; histogram positions,
      bounded by the query where it says; ranges with the open ends. */
  function Kept(stage: Stage, segment: Segment, r: Request, ancestors: seq<nat>): nat {
    match r.kind
    case Terms(size) => Min(10 * size, segment.terms(r.field))
    case Histogram(interval) =>
      if r.nested == [] then 0
      else
        var key := (r.field, interval, ancestors);
        if key in stage.bounds then Min(segment.positions(r.field, interval), stage.bounds[key]) else segment.positions(r.field, interval)
    case Range(ranges, openStart, openEnd) =>
      if ranges == 0 then 0 else ranges + (if openStart then 0 else 1) + (if openEnd then 0 else 1)
    case Stats => 0
  }

  /** Buckets collected: of terms all that occur. */
  function Collected(stage: Stage, segment: Segment, r: Request, ancestors: seq<nat>): nat {
    if r.kind.Terms? then segment.terms(r.field) else Kept(stage, segment, r, ancestors)
  }

  /** The bytes of the keys one parent keeps of a request: each as long as the longest of its dictionary, or the longest
      there can be, and 128 bytes more. */
  function OwnKeys(stage: Stage, segment: Segment, r: Request): nat {
    if !r.kind.Terms? then 0
    else
      var retained: nat := Min(10 * r.kind.size, segment.terms(r.field));
      retained * ((if stage.exact && retained > 0 then segment.longest(r.field) else 65530) + 128)
  }

  function KeysPer(stage: Stage, segment: Segment, rs: seq<Request>, ancestors: seq<nat>): nat {
    if rs == [] then 0
    else
      OwnKeys(stage, segment, rs[0])
      + Times(Kept(stage, segment, rs[0], ancestors), KeysPer(stage, segment, rs[0].nested, ancestors + [rs[0].field]))
      + KeysPer(stage, segment, rs[1..], ancestors)
  }

  /** The memory one collected parent takes: 512 bytes and the name for every request, and what its own buckets take. */
  function MemoryPer(stage: Stage, segment: Segment, rs: seq<Request>, ancestors: seq<nat>): nat {
    if rs == [] then 0
    else
      512 + rs[0].name
      + Times(Collected(stage, segment, rs[0], ancestors), MemoryPer(stage, segment, rs[0].nested, ancestors + [rs[0].field]))
      + MemoryPer(stage, segment, rs[1..], ancestors)
  }

  /** No request for terms that is reached asks for more than can be counted. */
  predicate SizesFit(stage: Stage, segment: Segment, rs: seq<Request>, ancestors: seq<nat>) {
    rs == [] ||
    (&& (rs[0].kind.Terms? ==> 10 * rs[0].kind.size <= U32_MAX)
     && (Collected(stage, segment, rs[0], ancestors) > 0 ==> SizesFit(stage, segment, rs[0].nested, ancestors + [rs[0].field]))
     && SizesFit(stage, segment, rs[1..], ancestors))
  }

  // ---- the walk in closed form ----

  lemma Reassociate(a: nat, b: nat, c: nat)
    ensures Times(Times(a, b), c) == Times(a, Times(b, c))
  {
  }

  lemma AtLeast(a: nat, b: nat)
    requires b >= 1
    ensures Times(a, b) >= a
  {
  }

  lemma Positive(a: nat, b: nat)
    requires a > 0
    ensures Times(a, b) > 0 <==> b > 0
  {
  }

  lemma Larger(a: nat, b: nat, c: nat, d: nat)
    requires a <= c && b <= d
    ensures Times(a, b) <= Times(c, d)
  {
    Products(a, b, c, d);
  }

  lemma Zero(a: nat)
    ensures Times(a, 0) == 0 == Times(0, a) && Times(1, a) == a
  {
  }

  lemma Distribute(n: nat, a: nat, b: nat, c: nat)
    ensures Times(n, a + b + c) == Times(n, a) + Times(n, b) + Times(n, c)
  {
  }

  lemma BucketsAre(stage: Stage, segment: Segment, r: Request, parents: nat, ancestors: seq<nat>, t: Totals)
    requires t.keys <= MAX_TERM_KEY_BYTES
    ensures Kept(stage, segment, r, ancestors) <= Collected(stage, segment, r, ancestors)
    ensures var keys := t.keys + Times(parents, OwnKeys(stage, segment, r));
      var b := Buckets(stage, segment, r, parents, ancestors, t);
      if (r.kind.Terms? ==> 10 * r.kind.size <= U32_MAX) && keys <= MAX_TERM_KEY_BYTES
      then b == Ok((Kept(stage, segment, r, ancestors), Collected(stage, segment, r, ancestors), Totals(keys, t.memory)))
      else b.Err?
  {
    if r.kind.Terms? {
      var retained: nat := Min(10 * r.kind.size, segment.terms(r.field));
      var longest := LongestKey(stage, segment, r.field, retained);
      assert OwnKeys(stage, segment, r) == Times(retained, longest + 128);
      assert TermKeys(parents * retained, longest) == Times(Times(parents, retained), longest + 128);
      Reassociate(parents, retained, longest + 128);
      AtLeast(Times(parents, retained), longest + 128);
      assert parents * retained == Times(parents, retained);
      hide Times;
    }
  }

  /** Accepted with these totals, or refused. */
  predicate Charged(result: Result<Totals, Refusal>, fits: bool, keys: nat, memory: nat) {
    if fits && keys <= MAX_TERM_KEY_BYTES && memory <= MAX_AGGREGATION_MEMORY_BYTES then result == Ok(Totals(keys, memory)) else result.Err?
  }

  /** What the requests nested in one take, under all its buckets. */
  function NestedKeys(stage: Stage, segment: Segment, r: Request, ancestors: seq<nat>): nat {
    Times(Kept(stage, segment, r, ancestors), KeysPer(stage, segment, r.nested, ancestors + [r.field]))
  }

  function NestedMemory(stage: Stage, segment: Segment, r: Request, ancestors: seq<nat>): nat {
    Times(Collected(stage, segment, r, ancestors), MemoryPer(stage, segment, r.nested, ancestors + [r.field]))
  }

  predicate OneFits(stage: Stage, segment: Segment, r: Request, ancestors: seq<nat>) {
    && (r.kind.Terms? ==> 10 * r.kind.size <= U32_MAX)
    && (Collected(stage, segment, r, ancestors) > 0 ==> SizesFit(stage, segment, r.nested, ancestors + [r.field]))
  }

  /** The steps of one request, with what BucketsAre says of its buckets. */
  lemma WalkOneSteps(stage: Stage, segment: Segment, r: Request, parents: nat, collected: nat, ancestors: seq<nat>, t: Totals)
    requires t.keys <= MAX_TERM_KEY_BYTES
    ensures var pk, cc := Times(parents, Kept(stage, segment, r, ancestors)), Times(collected, Collected(stage, segment, r, ancestors));
      var keys, memory := t.keys + Times(parents, OwnKeys(stage, segment, r)), t.memory + Times(collected, 512 + r.name);
      var result := WalkOne(stage, segment, r, parents, collected, ancestors, t);
      if memory > MAX_AGGREGATION_MEMORY_BYTES || keys > MAX_TERM_KEY_BYTES || (r.kind.Terms? && 10 * r.kind.size > U32_MAX) then result.Err?
      else if r.nested == [] then result == Ok(Totals(keys, memory))
      else if pk > USIZE_MAX || cc > USIZE_MAX then result.Err?
      else result == Walk(stage, segment, r.nested, pk, cc, ancestors + [r.field], Totals(keys, memory))
  {
    hide Buckets, Kept, Collected, OwnKeys, Walk, WalkOne, Times;
    var m := t.(memory := t.memory + Times(collected, 512 + r.name));
    BucketsAre(stage, segment, r, parents, ancestors, m);
    OneUnfolded(stage, segment, r, parents, collected, ancestors, t);
  }

  lemma OneUnfolded(stage: Stage, segment: Segment, r: Request, parents: nat, collected: nat, ancestors: seq<nat>, t: Totals)
    ensures var m := t.(memory := t.memory + Times(collected, 512 + r.name));
      var b := Buckets(stage, segment, r, parents, ancestors, m);
      WalkOne(stage, segment, r, parents, collected, ancestors, t) ==
        if m.memory > MAX_AGGREGATION_MEMORY_BYTES then Err(Memory)
        else if b.Err? then Err(b.error)
        else if r.nested == [] then Ok(b.value.2)
        else if Times(parents, b.value.0) > USIZE_MAX then Err(Keys)
        else if Times(collected, b.value.1) > USIZE_MAX then Err(Memory)
        else Walk(stage, segment, r.nested, Times(parents, b.value.0), Times(collected, b.value.1), ancestors + [r.field], b.value.2)
  {
    hide Buckets, Walk;
  }

  /** Under all buckets of a request, `pk` kept and `cc` collected: what the nested requests take in all. */
  lemma NestedTakes(stage: Stage, segment: Segment, r: Request, parents: nat, collected: nat, ancestors: seq<nat>)
    requires parents <= collected && 0 < collected
    ensures var pk, cc := Times(parents, Kept(stage, segment, r, ancestors)), Times(collected, Collected(stage, segment, r, ancestors));
      var inner := ancestors + [r.field];
      && pk <= cc && (cc > 0 <==> Collected(stage, segment, r, ancestors) > 0)
      && Times(parents, NestedKeys(stage, segment, r, ancestors)) == Times(pk, KeysPer(stage, segment, r.nested, inner))
      && Times(collected, NestedMemory(stage, segment, r, ancestors)) == Times(cc, MemoryPer(stage, segment, r.nested, inner))
      && (r.nested == [] || cc == 0 ==>
            Times(parents, NestedKeys(stage, segment, r, ancestors)) == 0 == Times(collected, NestedMemory(stage, segment, r, ancestors)))
      && (r.nested != [] ==> cc <= Times(cc, MemoryPer(stage, segment, r.nested, inner)))
      && (r.nested == [] ==> SizesFit(stage, segment, r.nested, inner))
  {
    var inner := ancestors + [r.field];
    var kept, count := Kept(stage, segment, r, ancestors), Collected(stage, segment, r, ancestors);
    BucketsAre(stage, segment, r, 0, ancestors, Totals(0, 0));
    Reassociate(parents, kept, KeysPer(stage, segment, r.nested, inner));
    Reassociate(collected, count, MemoryPer(stage, segment, r.nested, inner));
    Larger(parents, kept, collected, count);
    Positive(collected, count);
    Zero(KeysPer(stage, segment, r.nested, inner));
    Zero(MemoryPer(stage, segment, r.nested, inner));
    Zero(Times(parents, kept));
    Zero(Times(collected, count));
    if r.nested != [] {
      MemoryAtLeast(stage, segment, r.nested, inner);
      AtLeast(Times(collected, count), MemoryPer(stage, segment, r.nested, inner));
    }
    hide Kept, Collected, Times;
  }

  lemma {:induction false} OneExactly(stage: Stage, segment: Segment, r: Request, parents: nat, collected: nat, ancestors: seq<nat>, t: Totals)
    requires parents <= collected && 0 < collected && t.keys <= MAX_TERM_KEY_BYTES
    ensures Charged(WalkOne(stage, segment, r, parents, collected, ancestors, t), OneFits(stage, segment, r, ancestors),
                    t.keys + Times(parents, OwnKeys(stage, segment, r)) + Times(parents, NestedKeys(stage, segment, r, ancestors)),
                    t.memory + Times(collected, 512 + r.name) + Times(collected, NestedMemory(stage, segment, r, ancestors)))
    decreases r, 0
  {
    hide Kept, Collected, OwnKeys, KeysPer, MemoryPer, SizesFit, WalkOne, Walk, NestedKeys, NestedMemory, Times;
    var keys, memory := t.keys + Times(parents, OwnKeys(stage, segment, r)), t.memory + Times(collected, 512 + r.name);
    WalkOneSteps(stage, segment, r, parents, collected, ancestors, t);
    NestedTakes(stage, segment, r, parents, collected, ancestors);
    if r.nested != [] && keys <= MAX_TERM_KEY_BYTES {
      WalkExactly(stage, segment, r.nested, Times(parents, Kept(stage, segment, r, ancestors)),
                  Times(collected, Collected(stage, segment, r, ancestors)), ancestors + [r.field], Totals(keys, memory));
    }
  }

  lemma MemoryAtLeast(stage: Stage, segment: Segment, rs: seq<Request>, ancestors: seq<nat>)
    requires rs != []
    ensures MemoryPer(stage, segment, rs, ancestors) >= 512
  {
  }

  /** A walk under `parents` kept and `collected` collected buckets charges that many times what one takes, and is refused
      iff a size does not fit or the totals pass a limit. */
  lemma {:induction false} WalkExactly(stage: Stage, segment: Segment, rs: seq<Request>, parents: nat, collected: nat, ancestors: seq<nat>, t: Totals)
    requires parents <= collected && t.keys <= MAX_TERM_KEY_BYTES
    ensures rs == [] || collected == 0 ==> Walk(stage, segment, rs, parents, collected, ancestors, t) == Ok(t)
    ensures rs != [] && collected > 0 ==>
      Charged(Walk(stage, segment, rs, parents, collected, ancestors, t), SizesFit(stage, segment, rs, ancestors),
              t.keys + Times(parents, KeysPer(stage, segment, rs, ancestors)), t.memory + Times(collected, MemoryPer(stage, segment, rs, ancestors)))
    decreases rs, 1
  {
    if rs != [] && collected > 0 {
      Zero(parents);
      Zero(collected);
      var r, rest := rs[0], rs[1..];
      var first := WalkOne(stage, segment, r, parents, collected, ancestors, t);
      OneExactly(stage, segment, r, parents, collected, ancestors, t);
      if first.Ok? { WalkExactly(stage, segment, rest, parents, collected, ancestors, first.value); }
      WalkSteps(stage, segment, rs, parents, collected, ancestors, t);
      hide WalkOne, Walk, OwnKeys, NestedKeys, NestedMemory, KeysPer, MemoryPer, SizesFit, OneFits, Charged, Times;
      Distribute(parents, OwnKeys(stage, segment, r), NestedKeys(stage, segment, r, ancestors), KeysPer(stage, segment, rest, ancestors));
      Distribute(collected, 512 + r.name, NestedMemory(stage, segment, r, ancestors), MemoryPer(stage, segment, rest, ancestors));
      ChainCharges(first, Walk(stage, segment, rest, parents, collected, ancestors, if first.Ok? then first.value else t), rest != [],
        OneFits(stage, segment, r, ancestors), SizesFit(stage, segment, rest, ancestors), t,
        Times(parents, OwnKeys(stage, segment, r)) + Times(parents, NestedKeys(stage, segment, r, ancestors)),
        Times(collected, 512 + r.name) + Times(collected, NestedMemory(stage, segment, r, ancestors)),
        Times(parents, KeysPer(stage, segment, rest, ancestors)), Times(collected, MemoryPer(stage, segment, rest, ancestors)));
    }
  }

  /** Charging twice in a row is charging the sums. */
  lemma ChainCharges(first: Result<Totals, Refusal>, rest: Result<Totals, Refusal>, more: bool, fits: bool, fitsToo: bool, t: Totals,
                     keys: nat, memory: nat, moreKeys: nat, moreMemory: nat)
    requires Charged(first, fits, t.keys + keys, t.memory + memory)
    requires first.Ok? && more ==> Charged(rest, fitsToo, first.value.keys + moreKeys, first.value.memory + moreMemory)
    requires !more ==> fitsToo && moreKeys == 0 == moreMemory && (first.Ok? ==> rest == first)
    ensures Charged(if first.Err? then first else rest, fits && fitsToo, t.keys + keys + moreKeys, t.memory + memory + moreMemory)
  {
  }

  lemma WalkSteps(stage: Stage, segment: Segment, rs: seq<Request>, parents: nat, collected: nat, ancestors: seq<nat>, t: Totals)
    requires rs != [] && collected > 0
    ensures var first := WalkOne(stage, segment, rs[0], parents, collected, ancestors, t);
      Walk(stage, segment, rs, parents, collected, ancestors, t)
        == if first.Err? then first else Walk(stage, segment, rs[1..], parents, collected, ancestors, first.value)
    ensures KeysPer(stage, segment, rs, ancestors)
      == OwnKeys(stage, segment, rs[0]) + NestedKeys(stage, segment, rs[0], ancestors) + KeysPer(stage, segment, rs[1..], ancestors)
    ensures MemoryPer(stage, segment, rs, ancestors)
      == 512 + rs[0].name + NestedMemory(stage, segment, rs[0], ancestors) + MemoryPer(stage, segment, rs[1..], ancestors)
    ensures SizesFit(stage, segment, rs, ancestors) <==> OneFits(stage, segment, rs[0], ancestors) && SizesFit(stage, segment, rs[1..], ancestors)
    ensures rs[1..] == [] ==> KeysPer(stage, segment, rs[1..], ancestors) == 0 == MemoryPer(stage, segment, rs[1..], ancestors)
    ensures rs[1..] == [] ==> SizesFit(stage, segment, rs[1..], ancestors)
  {
    hide WalkOne;
  }

  // ---- the estimate over all segments ----

  function SumKeys(stage: Stage, segments: seq<Segment>, rs: seq<Request>): nat {
    if segments == [] then 0 else KeysPer(stage, segments[0], rs, []) + SumKeys(stage, segments[1..], rs)
  }

  function SumMemory(stage: Stage, segments: seq<Segment>, rs: seq<Request>): nat {
    if segments == [] then 0 else MemoryPer(stage, segments[0], rs, []) + SumMemory(stage, segments[1..], rs)
  }

  predicate AllFit(stage: Stage, segments: seq<Segment>, rs: seq<Request>) {
    forall i :: 0 <= i < |segments| ==> SizesFit(stage, segments[i], rs, [])
  }

  lemma AllFitTail(stage: Stage, segments: seq<Segment>, rs: seq<Request>)
    requires segments != []
    ensures AllFit(stage, segments, rs) <==> SizesFit(stage, segments[0], rs, []) && AllFit(stage, segments[1..], rs)
  {
    hide SizesFit;
    forall i | 0 < i < |segments| ensures segments[i] == segments[1..][i - 1] {}
  }

  lemma {:induction false} EstimateTotals(stage: Stage, segments: seq<Segment>, rs: seq<Request>, t: Totals)
    requires t.keys <= MAX_TERM_KEY_BYTES && rs != []
    ensures segments == [] ==> Estimate(stage, segments, rs, t) == Ok(t)
    ensures segments != [] ==>
      Charged(Estimate(stage, segments, rs, t), AllFit(stage, segments, rs),
              t.keys + SumKeys(stage, segments, rs), t.memory + SumMemory(stage, segments, rs))
  {
    if segments != [] {
      var rest := segments[1..];
      var first := Walk(stage, segments[0], rs, 1, 1, [], t);
      WalkExactly(stage, segments[0], rs, 1, 1, [], t);
      Zero(KeysPer(stage, segments[0], rs, []));
      Zero(MemoryPer(stage, segments[0], rs, []));
      if first.Ok? { EstimateTotals(stage, rest, rs, first.value); }
      AllFitTail(stage, segments, rs);
      hide Walk, KeysPer, MemoryPer, SizesFit, Charged, AllFit, Times;
      ChainCharges(first, Estimate(stage, rest, rs, if first.Ok? then first.value else t), rest != [],
        SizesFit(stage, segments[0], rs, []), AllFit(stage, rest, rs), t,
        KeysPer(stage, segments[0], rs, []), MemoryPer(stage, segments[0], rs, []), SumKeys(stage, rest, rs), SumMemory(stage, rest, rs));
    }
  }

  /** The decision: a request is admitted iff no size overflows and the keys and the memory, added up over all segments in
      closed form at the finest stage, stay within their limits. */
  lemma AdmittedExactly(segments: seq<Segment>, rs: seq<Request>, construction: nat, bounds: map<HistogramKey, nat>)
    requires segments != [] && rs != []
    ensures var stage := Stage(true, bounds);
      Estimate(stage, segments, rs, Totals(0, construction)).Ok? <==>
        && AllFit(stage, segments, rs)
        && SumKeys(stage, segments, rs) <= 16777216 && construction + SumMemory(stage, segments, rs) <= 16777216
  {
    EstimateTotals(Stage(true, bounds), segments, rs, Totals(0, construction));
  }
}
