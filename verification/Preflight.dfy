/** The staged admission of aggregations: a cheap estimate first, then exact dictionary maxima, then histogram bounds
    refined by the query. The staged decision is the decision of the most precise stage. */
module Preflight {
  import opened Wrappers

  const USIZE_MAX := 0xFFFF_FFFF_FFFF_FFFF
  const U32_MAX := 0xFFFF_FFFF
  const MAX_AGGREGATION_MEMORY_BYTES := 16777216
  const MAX_TERM_KEY_BYTES := 16777216
  /** The longest key a dictionary can hold. */
  const LONGEST_KEY := 65530

  datatype Kind = Terms(size: nat) | Histogram(interval: nat) | Range(ranges: nat, openStart: bool, openEnd: bool) | Stats

  /** A request by the length of its name, its field and its nested requests. */
  datatype Request = Request(name: nat, field: nat, kind: Kind, nested: seq<Request>)

  /** A histogram by field, interval and the fields its documents must have. */
  type HistogramKey = (nat, nat, seq<nat>)

  /** What a segment's columns say: distinct terms that occur, the longest dictionary key, histogram positions. */
  datatype Segment = Segment(terms: nat -> nat, longest: nat -> nat, positions: (nat, nat) -> nat)

  /** How precise an estimate is. */
  datatype Stage = Stage(exact: bool, bounds: map<HistogramKey, nat>)

  datatype Refusal = Memory | Keys

  datatype Totals = Totals(keys: nat, memory: nat)

  function RangeBuckets(kind: Kind): nat
    requires kind.Range?
  {
    kind.ranges + (if kind.ranges > 0 && !kind.openStart then 1 else 0) + if kind.ranges > 0 && !kind.openEnd then 1 else 0
  }

  function LongestKey(stage: Stage, segment: Segment, field: nat, retained: nat): nat {
    if stage.exact && retained != 0 then segment.longest(field) else LONGEST_KEY
  }

  function Positions(stage: Stage, segment: Segment, key: HistogramKey): nat {
    var bound := segment.positions(key.0, key.1);
    if key in stage.bounds then Min(bound, stage.bounds[key]) else bound
  }

  function TermKeys(instances: nat, longest: nat): nat { instances * (longest + 128) }

  /** Buckets kept and buckets collected by one request under one parent, or a refusal of its term keys. */
  function Buckets(stage: Stage, segment: Segment, r: Request, parents: nat, ancestors: seq<nat>, t: Totals): Result<(nat, nat, Totals), Refusal> {
    match r.kind
    case Terms(size) =>
      if size * 10 > U32_MAX then Err(Keys)
      else
        var count := segment.terms(r.field);
        var retained: nat := Min(size * 10, count);
        var keys := t.keys + TermKeys(parents * retained, LongestKey(stage, segment, r.field, retained));
        if parents * retained > USIZE_MAX || keys > MAX_TERM_KEY_BYTES then Err(Keys)
        else Ok((retained, count, t.(keys := keys)))
    case Histogram(interval) =>
      var count := if r.nested == [] then 0 else Positions(stage, segment, (r.field, interval, ancestors));
      Ok((count, count, t))
    case Range(_, _, _) => Ok((RangeBuckets(r.kind), RangeBuckets(r.kind), t))
    case Stats => Ok((0, 0, t))
  }

  function WalkOne(stage: Stage, segment: Segment, r: Request, parents: nat, collected: nat, ancestors: seq<nat>, t: Totals): Result<Totals, Refusal>
    decreases r, 0
  {
    var memory := t.memory + collected * (512 + r.name);
    if memory > MAX_AGGREGATION_MEMORY_BYTES then Err(Memory)
    else
      var b := Buckets(stage, segment, r, parents, ancestors, t.(memory := memory));
      if b.Err? then Err(b.error)
      else if r.nested == [] then Ok(b.value.2)
      else if parents * b.value.0 > USIZE_MAX then Err(Keys)
      else if collected * b.value.1 > USIZE_MAX then Err(Memory)
      else Walk(stage, segment, r.nested, parents * b.value.0, collected * b.value.1, ancestors + [r.field], b.value.2)
  }

  /** Requests in order, each charging the running totals; nothing is collected under no parents. */
  function Walk(stage: Stage, segment: Segment, rs: seq<Request>, parents: nat, collected: nat, ancestors: seq<nat>, t: Totals): Result<Totals, Refusal>
    decreases rs, 1
  {
    if rs == [] || collected == 0 then Ok(t)
    else
      var first := WalkOne(stage, segment, rs[0], parents, collected, ancestors, t);
      if first.Err? then first else Walk(stage, segment, rs[1..], parents, collected, ancestors, first.value)
  }

  function Estimate(stage: Stage, segments: seq<Segment>, rs: seq<Request>, t: Totals): Result<Totals, Refusal> {
    if segments == [] then Ok(t)
    else
      var first := Walk(stage, segments[0], rs, 1, 1, [], t);
      if first.Err? then first else Estimate(stage, segments[1..], rs, first.value)
  }

  class BudgetWalk {
    const stage: Stage
    var keys: nat
    var memory: nat

    constructor (stage: Stage, construction: nat)
      ensures this.stage == stage && keys == 0 && memory == construction
    {
      this.stage := stage;
      keys, memory := 0, construction;
    }

    method AddMemory(count: nat, bytes: nat) returns (ok: bool)
      modifies this`memory
      ensures memory == old(memory) + count * bytes && (ok <==> memory <= MAX_AGGREGATION_MEMORY_BYTES)
    {
      memory := memory + count * bytes;
      ok := memory <= MAX_AGGREGATION_MEMORY_BYTES;
    }

    method Charge(segment: Segment, r: Request, parents: nat, ancestors: seq<nat>) returns (b: Result<(nat, nat), Refusal>)
      modifies this`keys
      ensures match Buckets(stage, segment, r, parents, ancestors, old(Totals(keys, memory)))
              case Err(e) => b == Err(e)
              case Ok((kept, collected, t)) => b == Ok((kept, collected)) && t == Totals(keys, memory)
    {
      hide TermKeys;
      match r.kind
      case Terms(size) =>
        if size * 10 > U32_MAX { return Err(Keys); }
        var count := segment.terms(r.field);
        var retained: nat := Min(size * 10, count);
        var longest := LONGEST_KEY;
        if stage.exact && retained != 0 { longest := segment.longest(r.field); }
        var instances := parents * retained;
        if instances > USIZE_MAX { return Err(Keys); }
        keys := keys + TermKeys(instances, longest);
        b := if keys > MAX_TERM_KEY_BYTES then Err(Keys) else Ok((retained, count));
      case Histogram(interval) =>
        var count := 0;
        if r.nested != [] { count := Positions(stage, segment, (r.field, interval, ancestors)); }
        b := Ok((count, count));
      case Range(_, _, _) => b := Ok((RangeBuckets(r.kind), RangeBuckets(r.kind)));
      case Stats => b := Ok((0, 0));
    }

    method Run(segment: Segment, rs: seq<Request>, parents: nat, collected: nat, ancestors: seq<nat>) returns (refusal: Option<Refusal>)
      modifies this
      ensures match Walk(stage, segment, rs, parents, collected, ancestors, old(Totals(keys, memory)))
              case Err(e) => refusal == Some(e)
              case Ok(t) => refusal == None && t == Totals(keys, memory)
      decreases rs
    {
      if collected == 0 { return None; }
      ghost var start := Totals(keys, memory);
      var k := 0;
      assert rs[0..] == rs;
      while k < |rs|
        invariant k <= |rs|
        invariant Walk(stage, segment, rs, parents, collected, ancestors, start)
          == Walk(stage, segment, rs[k..], parents, collected, ancestors, Totals(keys, memory))
      {
        var r := rs[k];
        assert rs[k..][0] == r && rs[k..][1..] == rs[k + 1..];
        ghost var before := Totals(keys, memory);
        var ok := AddMemory(collected, 512 + r.name);
        if !ok { return Some(Memory); }
        var b := Charge(segment, r, parents, ancestors);
        if b.Err? { return Some(b.error); }
        if r.nested != [] {
          if parents * b.value.0 > USIZE_MAX { return Some(Keys); }
          if collected * b.value.1 > USIZE_MAX { return Some(Memory); }
          var inner := Run(segment, r.nested, parents * b.value.0, collected * b.value.1, ancestors + [r.field]);
          if inner.Some? { return inner; }
        }
        k := k + 1;
      }
      refusal := None;
    }
  }

  method RunEstimate(stage: Stage, segments: seq<Segment>, rs: seq<Request>, construction: nat) returns (refusal: Option<Refusal>)
    ensures match Estimate(stage, segments, rs, Totals(0, construction)) case Err(e) => refusal == Some(e) case Ok(_) => refusal == None
  {
    var walk := new BudgetWalk(stage, construction);
    var k := 0;
    assert segments[0..] == segments;
    while k < |segments|
      invariant k <= |segments| && walk.stage == stage
      invariant Estimate(stage, segments, rs, Totals(0, construction)) == Estimate(stage, segments[k..], rs, Totals(walk.keys, walk.memory))
    {
      assert segments[k..][0] == segments[k] && segments[k..][1..] == segments[k + 1..];
      refusal := walk.Run(segments[k], rs, 1, 1, []);
      if refusal.Some? { return; }
      k := k + 1;
    }
    refusal := None;
  }

  // ---- estimates only shrink under refinement ----

  predicate Finer(fine: Stage, coarse: Stage) {
    && (coarse.exact ==> fine.exact)
    && forall k :: k in coarse.bounds ==> k in fine.bounds && fine.bounds[k] == coarse.bounds[k]
  }

  predicate AtMost(a: Totals, b: Totals) { a.keys <= b.keys && a.memory <= b.memory }

  ghost predicate Lawful(segment: Segment) { forall f :: segment.longest(f) <= LONGEST_KEY }

  lemma Products(a: nat, b: nat, c: nat, d: nat)
    requires a <= c && b <= d
    ensures a * b <= c * d
  {
    assert a * b <= c * b <= c * d;
  }

  lemma TermKeysShrink(parents': nat, parents: nat, retained: nat, longest': nat, longest: nat)
    requires parents' <= parents && longest' <= longest
    ensures parents' * retained <= parents * retained
    ensures TermKeys(parents' * retained, longest') <= TermKeys(parents * retained, longest)
  {
    Products(parents', retained, parents, retained);
    Products(parents' * retained, longest' + 128, parents * retained, longest + 128);
  }

  lemma BucketsShrink(fine: Stage, coarse: Stage, segment: Segment, r: Request, p': nat, p: nat, ancestors: seq<nat>, t': Totals, t: Totals)
    requires Finer(fine, coarse) && Lawful(segment) && p' <= p && AtMost(t', t)
    requires Buckets(coarse, segment, r, p, ancestors, t).Ok?
    ensures var b' := Buckets(fine, segment, r, p', ancestors, t'); var b := Buckets(coarse, segment, r, p, ancestors, t);
      b'.Ok? && b'.value.0 <= b.value.0 && b'.value.1 <= b.value.1 && AtMost(b'.value.2, b.value.2) && AtMost(t, b.value.2)
  {
    hide TermKeys;
    if r.kind.Terms? {
      var retained: nat := Min(r.kind.size * 10, segment.terms(r.field));
      TermKeysShrink(p', p, retained, LongestKey(fine, segment, r.field, retained), LongestKey(coarse, segment, r.field, retained));
    }
  }

  lemma {:induction false} OneShrinks(fine: Stage, coarse: Stage, segment: Segment, r: Request, p': nat, p: nat, c': nat, c: nat,
                                      ancestors: seq<nat>, t': Totals, t: Totals)
    requires Finer(fine, coarse) && Lawful(segment) && p' <= p && c' <= c && AtMost(t', t)
    requires WalkOne(coarse, segment, r, p, c, ancestors, t).Ok?
    ensures var u' := WalkOne(fine, segment, r, p', c', ancestors, t'); var u := WalkOne(coarse, segment, r, p, c, ancestors, t);
      u'.Ok? && AtMost(u'.value, u.value) && AtMost(t, u.value)
    decreases r, 0
  {
    hide Buckets;
    Products(c', 512 + r.name, c, 512 + r.name);
    var m', m := t'.(memory := t'.memory + c' * (512 + r.name)), t.(memory := t.memory + c * (512 + r.name));
    BucketsShrink(fine, coarse, segment, r, p', p, ancestors, m', m);
    if r.nested != [] {
      var b', b := Buckets(fine, segment, r, p', ancestors, m').value, Buckets(coarse, segment, r, p, ancestors, m).value;
      Products(p', b'.0, p, b.0);
      Products(c', b'.1, c, b.1);
      WalkShrinks(fine, coarse, segment, r.nested, p' * b'.0, p * b.0, c' * b'.1, c * b.1, ancestors + [r.field], b'.2, b.2);
    }
  }

  lemma {:induction false} WalkShrinks(fine: Stage, coarse: Stage, segment: Segment, rs: seq<Request>, p': nat, p: nat, c': nat, c: nat,
                                       ancestors: seq<nat>, t': Totals, t: Totals)
    requires Finer(fine, coarse) && Lawful(segment) && p' <= p && c' <= c && AtMost(t', t)
    requires Walk(coarse, segment, rs, p, c, ancestors, t).Ok?
    ensures var u' := Walk(fine, segment, rs, p', c', ancestors, t'); var u := Walk(coarse, segment, rs, p, c, ancestors, t);
      u'.Ok? && AtMost(u'.value, u.value) && AtMost(t, u.value)
    decreases rs, 1
  {
    hide WalkOne;
    if rs != [] && c != 0 {
      OneShrinks(fine, coarse, segment, rs[0], p', p, c', c, ancestors, t', t);
      var u := WalkOne(coarse, segment, rs[0], p, c, ancestors, t).value;
      WalkShrinks(fine, coarse, segment, rs[1..], p', p, c', c, ancestors, WalkOne(fine, segment, rs[0], p', c', ancestors, t').value, u);
    }
  }

  /** Whatever a coarse stage accepts, a finer one accepts. */
  lemma {:induction false} EstimateShrinks(fine: Stage, coarse: Stage, segments: seq<Segment>, rs: seq<Request>, t': Totals, t: Totals)
    requires Finer(fine, coarse) && (forall i :: 0 <= i < |segments| ==> Lawful(segments[i])) && AtMost(t', t)
    requires Estimate(coarse, segments, rs, t).Ok?
    ensures Estimate(fine, segments, rs, t').Ok?
  {
    if segments != [] {
      WalkShrinks(fine, coarse, segments[0], rs, 1, 1, 1, 1, [], t', t);
      EstimateShrinks(fine, coarse, segments[1..], rs, Walk(fine, segments[0], rs, 1, 1, [], t').value,
                      Walk(coarse, segments[0], rs, 1, 1, [], t).value);
    }
  }

  // ---- without a refinable histogram, memory is the same at every stage ----

  predicate HasRefinableHistogram(rs: seq<Request>) {
    exists i :: 0 <= i < |rs| && rs[i].nested != [] && (rs[i].kind.Histogram? || HasRefinableHistogram(rs[i].nested))
  }

  lemma RefinableTail(rs: seq<Request>)
    requires rs != []
    ensures HasRefinableHistogram(rs[1..]) ==> HasRefinableHistogram(rs)
  {
    if i :| 0 <= i < |rs[1..]| && rs[1..][i].nested != [] && (rs[1..][i].kind.Histogram? || HasRefinableHistogram(rs[1..][i].nested)) {
      assert rs[i + 1] == rs[1..][i];
    }
  }

  /** Both walks refuse alike for memory, or agree on the memory charged. */
  predicate SameMemory(a: Result<Totals, Refusal>, b: Result<Totals, Refusal>) {
    && (b == Err(Memory) ==> a.Err?)
    && (a.Ok? && b.Ok? ==> a.value.memory == b.value.memory)
  }

  lemma SameBuckets(fine: Stage, coarse: Stage, segment: Segment, r: Request, p: nat, ancestors: seq<nat>, t': Totals, t: Totals)
    requires t'.memory == t.memory && (r.kind.Histogram? ==> r.nested == [])
    ensures var a := Buckets(fine, segment, r, p, ancestors, t'); var b := Buckets(coarse, segment, r, p, ancestors, t);
      && (b.Err? ==> b == Err(Keys)) && (a.Err? ==> a == Err(Keys))
      && (a.Ok? && b.Ok? ==> a.value.0 == b.value.0 && a.value.1 == b.value.1 && a.value.2.memory == b.value.2.memory)
  {
  }

  lemma {:induction false} OneSameMemory(fine: Stage, coarse: Stage, segment: Segment, r: Request, p: nat, c: nat, ancestors: seq<nat>, t': Totals, t: Totals)
    requires t'.memory == t.memory && !(r.nested != [] && (r.kind.Histogram? || HasRefinableHistogram(r.nested)))
    ensures SameMemory(WalkOne(fine, segment, r, p, c, ancestors, t'), WalkOne(coarse, segment, r, p, c, ancestors, t))
    decreases r, 0
  {
    hide Buckets;
    var m', m := t'.(memory := t'.memory + c * (512 + r.name)), t.(memory := t.memory + c * (512 + r.name));
    SameBuckets(fine, coarse, segment, r, p, ancestors, m', m);
    var b', b := Buckets(fine, segment, r, p, ancestors, m'), Buckets(coarse, segment, r, p, ancestors, m);
    if r.nested != [] && b'.Ok? && b.Ok? {
      SameMemoryWalk(fine, coarse, segment, r.nested, p * b.value.0, c * b.value.1, ancestors + [r.field], b'.value.2, b.value.2);
    }
  }

  lemma {:induction false} SameMemoryWalk(fine: Stage, coarse: Stage, segment: Segment, rs: seq<Request>, p: nat, c: nat, ancestors: seq<nat>, t': Totals, t: Totals)
    requires t'.memory == t.memory && !HasRefinableHistogram(rs)
    ensures SameMemory(Walk(fine, segment, rs, p, c, ancestors, t'), Walk(coarse, segment, rs, p, c, ancestors, t))
    decreases rs, 1
  {
    hide WalkOne;
    if rs != [] && c != 0 {
      OneSameMemory(fine, coarse, segment, rs[0], p, c, ancestors, t', t);
      var a, b := WalkOne(fine, segment, rs[0], p, c, ancestors, t'), WalkOne(coarse, segment, rs[0], p, c, ancestors, t);
      RefinableTail(rs);
      if a.Ok? && b.Ok? { SameMemoryWalk(fine, coarse, segment, rs[1..], p, c, ancestors, a.value, b.value); }
    }
  }

  lemma {:induction false} SameMemoryEstimate(fine: Stage, coarse: Stage, segments: seq<Segment>, rs: seq<Request>, t': Totals, t: Totals)
    requires t'.memory == t.memory && !HasRefinableHistogram(rs)
    ensures SameMemory(Estimate(fine, segments, rs, t'), Estimate(coarse, segments, rs, t))
  {
    hide Walk;
    if segments != [] {
      SameMemoryWalk(fine, coarse, segments[0], rs, 1, 1, [], t', t);
      var a, b := Walk(fine, segments[0], rs, 1, 1, [], t'), Walk(coarse, segments[0], rs, 1, 1, [], t);
      if a.Ok? && b.Ok? { SameMemoryEstimate(fine, coarse, segments[1..], rs, a.value, b.value); }
    }
  }

  // ---- the staged decision ----

  /** The preflight: each stage runs only if the one before it refused for resources, and a memory refusal no histogram
      bound could change is final at once. `bounds` are the histogram bounds the query itself yields. */
  method CheckTermsBudget(segments: seq<Segment>, rs: seq<Request>, construction: nat, bounds: map<HistogramKey, nat>) returns (refusal: Option<Refusal>)
    requires forall i :: 0 <= i < |segments| ==> Lawful(segments[i])
    ensures refusal.None? <==> Estimate(Stage(true, bounds), segments, rs, Totals(0, construction)).Ok?
  {
    ghost var start := Totals(0, construction);
    var finest := Stage(true, bounds);
    var approximate := RunEstimate(Stage(false, map[]), segments, rs, construction);
    if approximate.None? {
      EstimateShrinks(finest, Stage(false, map[]), segments, rs, start, start);
      return None;
    }
    if !HasRefinableHistogram(rs) && approximate == Some(Memory) {
      SameMemoryEstimate(finest, Stage(false, map[]), segments, rs, start, start);
      return approximate;
    }
    var exact := RunEstimate(Stage(true, map[]), segments, rs, construction);
    if exact.None? {
      EstimateShrinks(finest, Stage(true, map[]), segments, rs, start, start);
      return None;
    }
    if bounds == map[] { return exact; }
    refusal := RunEstimate(finest, segments, rs, construction);
  }
}
