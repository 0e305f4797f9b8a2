/**
 Ranked collection: per-segment collectors work on local ID ordinals and are merged; ordinary search answers a
 page by the stable, plain or boundary-tie path, traversal continues after a boundary. All are proved against one
 reference, the list of all matches by score descending, then ID ascending.
 */
module Ranking {
  import opened Wrappers
  import opened TopN

  type Id = seq<nat>
  type Score = int

  datatype Match = Match(doc: nat, ord: Option<nat>, score: Score)

  /** A segment: its sorted ID dictionary and the live documents that match, with their ID ordinals. */
  datatype Segment = Segment(dictionary: seq<Id>, matches: seq<Match>)

  datatype Error = MissingOrdinal

  datatype Boundary = Boundary(score: Score, id: Id)

  /** A matching document as a collector sees it, and as it is returned. */
  datatype Found = Found(score: Score, segment: nat, doc: nat, ord: Option<nat>)
  datatype Hit = Hit(score: Score, id: Id, segment: nat, doc: nat)
  datatype Local = Local(score: Score, ord: nat, doc: nat)

  predicate IdLess(a: Id, b: Id) {
    b != [] && (a == [] || a[0] < b[0] || (a[0] == b[0] && IdLess(a[1..], b[1..])))
  }

  /** Score descending, then ID bytes ascending, then address. */
  predicate HitLess(a: Hit, b: Hit) {
    || a.score > b.score
    || (a.score == b.score && IdLess(a.id, b.id))
    || (a.score == b.score && a.id == b.id && a.segment < b.segment)
    || (a.score == b.score && a.id == b.id && a.segment == b.segment && a.doc < b.doc)
  }

  predicate LocalLess(a: Local, b: Local) {
    || a.score > b.score
    || (a.score == b.score && a.ord < b.ord)
    || (a.score == b.score && a.ord == b.ord && a.doc < b.doc)
  }

  lemma {:induction false} IdTotal(a: Id, b: Id)
    ensures !IdLess(a, a)
    ensures a == b || IdLess(a, b) || IdLess(b, a)
    ensures !(IdLess(a, b) && IdLess(b, a))
  {
    if a != [] {
      IdTotal(a[1..], a[1..]);
      if b != [] && a[0] == b[0] {
        IdTotal(a[1..], b[1..]);
        assert a[1..] == b[1..] ==> a == [a[0]] + a[1..] == [b[0]] + b[1..] == b;
      }
    }
  }

  lemma {:induction false} IdTransitive(a: Id, b: Id, c: Id)
    requires IdLess(a, b) && IdLess(b, c)
    ensures IdLess(a, c)
  {
    if a != [] && a[0] == b[0] == c[0] {
      IdTransitive(a[1..], b[1..], c[1..]);
    }
  }

  /** Byte order: the first difference decides, and a proper prefix comes first. */
  ghost predicate FirstDifference(a: Id, b: Id, d: nat) {
    d < |b| && d <= |a| && a[..d] == b[..d] && (d < |a| ==> a[d] < b[d])
  }

  lemma LaterDifference(a: Id, b: Id, d: nat)
    requires d > 0 && FirstDifference(a, b, d)
    ensures a[0] == b[0] && FirstDifference(a[1..], b[1..], d - 1)
  {
    assert a[..d][0] == b[..d][0];
    assert a[..d][1..] == a[1..][..d - 1] && b[..d][1..] == b[1..][..d - 1];
  }

  lemma {:induction false} IdLessIsByteOrder(a: Id, b: Id)
    ensures IdLess(a, b) <==> exists d: nat :: FirstDifference(a, b, d)
  {
    if a != [] && b != [] {
      IdLessIsByteOrder(a[1..], b[1..]);
      forall d: nat | d > 0 && FirstDifference(a, b, d) ensures a[0] == b[0] && FirstDifference(a[1..], b[1..], d - 1) {
        LaterDifference(a, b, d);
      }
      if a[0] < b[0] {
        assert FirstDifference(a, b, 0);
      } else if a[0] == b[0] {
        if d: nat :| FirstDifference(a[1..], b[1..], d) {
          assert a[..d + 1] == [a[0]] + a[1..][..d] && b[..d + 1] == [b[0]] + b[1..][..d];
          assert FirstDifference(a, b, d + 1);
        }
        if d: nat :| FirstDifference(a, b, d) { assert d > 0; }
      }
    } else if b != [] {
      assert FirstDifference(a, b, 0);
    }
  }

  lemma HitOrder()
    ensures StrictTotal(HitLess)
  {
    forall a: Hit, b: Hit ensures !HitLess(a, a) && (a == b || HitLess(a, b) || HitLess(b, a)) {
      IdTotal(a.id, b.id);
    }
    forall a: Hit, b: Hit, c: Hit | HitLess(a, b) && HitLess(b, c) ensures HitLess(a, c) {
      if IdLess(a.id, b.id) && IdLess(b.id, c.id) {
        IdTransitive(a.id, b.id, c.id);
      }
    }
  }

  /** Dictionaries are sorted by ID bytes and every ordinal is in range. */
  ghost predicate WellFormed(s: Segment) {
    && (forall i, j :: 0 <= i < j < |s.dictionary| ==> IdLess(s.dictionary[i], s.dictionary[j]))
    && (forall i :: 0 <= i < |s.matches| ==> s.matches[i].ord.Some? ==> s.matches[i].ord.value < |s.dictionary|)
  }

  ghost predicate Snapshot(segments: seq<Segment>) {
    forall k :: 0 <= k < |segments| ==> WellFormed(segments[k])
  }

  // ---------------------------------------------------------------- the reference

  predicate MissingId(s: Segment) {
    exists i :: 0 <= i < |s.matches| && s.matches[i].ord.None?
  }

  predicate AnyMissing(segments: seq<Segment>) {
    exists k :: 0 <= k < |segments| && MissingId(segments[k])
  }

  function ToHit(dictionary: seq<Id>, segment: nat, m: Match): Hit {
    Hit(m.score, if m.ord.Some? && m.ord.value < |dictionary| then dictionary[m.ord.value] else [], segment, m.doc)
  }

  function SegmentHits(s: Segment, segment: nat): seq<Hit> {
    Image(m => ToHit(s.dictionary, segment, m), s.matches)
  }

  /** Every match of the snapshot. */
  function AllHits(segments: seq<Segment>): (r: seq<Hit>)
  {
    if segments == [] then []
    else AllHits(segments[..|segments| - 1]) + SegmentHits(segments[|segments| - 1], |segments| - 1)
  }

  /** The list every path has to agree with. */
  function Global(segments: seq<Segment>): seq<Hit> {
    Sort(HitLess, AllHits(segments))
  }

  // ---- what a listed hit stands for ----

  /** A match: its segment and its position there. */
  datatype Place = Place(segment: nat, index: nat)

  predicate IsPlace(segments: seq<Segment>, p: Place) { p.segment < |segments| && p.index < |segments[p.segment].matches| }

  /** The hit carries the score, the document and the address of the match at this place, under the ID its ordinal names. */
  predicate StandsFor(segments: seq<Segment>, p: Place, h: Hit)
    requires IsPlace(segments, p)
  {
    var m := segments[p.segment].matches[p.index];
    && h.score == m.score && h.doc == m.doc && h.segment == p.segment
    && (m.ord.Some? && m.ord.value < |segments[p.segment].dictionary| ==> h.id == segments[p.segment].dictionary[m.ord.value])
  }

  /** Each hit stands for the match at its place, and no match is listed twice. */
  predicate Lists(segments: seq<Segment>, places: seq<Place>, hits: seq<Hit>) {
    && |places| == |hits|
    && (forall n :: 0 <= n < |hits| ==> IsPlace(segments, places[n]) && StandsFor(segments, places[n], hits[n]))
    && (forall m, n :: 0 <= m < n < |hits| ==> places[m] != places[n])
  }

  /** The places of a snapshot, segment by segment. */
  lemma {:induction false} HitsStandForMatches(segments: seq<Segment>) returns (places: seq<Place>)
    ensures Lists(segments, places, AllHits(segments))
    ensures forall p :: IsPlace(segments, p) ==> p in places
  {
    if segments == [] {
      places := [];
    } else {
      var k := |segments| - 1;
      var before := HitsStandForMatches(segments[..k]);
      var here := seq(|segments[k].matches|, i requires 0 <= i < |segments[k].matches| => Place(k, i));
      places := before + here;
      forall p | IsPlace(segments, p) ensures p in places {
        if p.segment < k { assert IsPlace(segments[..k], p); } else { assert here[p.index] == p; }
      }
      forall n | 0 <= n < |places| ensures IsPlace(segments, places[n]) && StandsFor(segments, places[n], AllHits(segments)[n]) {
        if n < |before| { assert IsPlace(segments[..k], before[n]) && StandsFor(segments[..k], before[n], AllHits(segments[..k])[n]); }
      }
      forall m, n | 0 <= m < n < |places| ensures places[m] != places[n] {
        if m < |before| <= n { assert IsPlace(segments[..k], before[m]); }
      }
    }
  }

  lemma RearrangedPlaces(segments: seq<Segment>, all: seq<Place>, hits: seq<Hit>, order: seq<nat>, sorted: seq<Hit>)
    returns (places: seq<Place>)
    requires Lists(segments, all, hits) && Rearrangement(order, |hits|) && |sorted| == |hits|
    requires forall i :: 0 <= i < |sorted| ==> sorted[i] == hits[order[i]]
    ensures Lists(segments, places, sorted)
    ensures forall p :: p in all ==> p in places
  {
    hide IsPlace, StandsFor;
    places := seq(|order|, n requires 0 <= n < |order| => all[order[n]]);
    forall p | p in all ensures p in places {
      var n :| 0 <= n < |all| && all[n] == p;
      RearrangementNamesAll(order, |all|, n);
      var i :| 0 <= i < |order| && order[i] == n;
      assert places[i] == p;
    }
  }

  /** The global list: every match of the snapshot stands in it exactly once, with its own score, address and ID. */
  lemma GlobalListsMatches(segments: seq<Segment>) returns (places: seq<Place>)
    ensures Lists(segments, places, Global(segments))
    ensures forall p :: IsPlace(segments, p) ==> p in places
  {
    HitOrder();
    SortOrdered(HitLess, AllHits(segments));
    var all := HitsStandForMatches(segments);
    hide IsPlace, StandsFor, HitLess, Sort;
    var order := Rearranged(AllHits(segments), Global(segments));
    places := RearrangedPlaces(segments, all, AllHits(segments), order, Global(segments));
  }

  /** It goes by score descending, then by ID bytes ascending, then by address. */
  lemma GlobalIsRanked(segments: seq<Segment>, m: nat, n: nat)
    requires m < n < |Global(segments)|
    ensures var (a, b) := (Global(segments)[m], Global(segments)[n]);
      || a.score > b.score
      || (a.score == b.score && exists d: nat :: FirstDifference(a.id, b.id, d))
      || (a.score == b.score && a.id == b.id && (a.segment < b.segment || (a.segment == b.segment && a.doc <= b.doc)))
  {
    HitOrder();
    SortOrdered(HitLess, AllHits(segments));
    hide Sort;
    var (a, b) := (Global(segments)[m], Global(segments)[n]);
    IdLessIsByteOrder(a.id, b.id);
    IdTotal(a.id, b.id);
  }

  predicate Follows(after: Option<Boundary>, h: Hit) {
    after.Some? ==> h.score < after.value.score || (h.score == after.value.score && IdLess(after.value.id, h.id))
  }

  function Filter(after: Option<Boundary>, hits: seq<Hit>): (r: seq<Hit>)
    ensures |r| <= |hits|
    ensures after.None? ==> r == hits
  {
    if hits == [] then []
    else
      assert hits == hits[..|hits| - 1] + [hits[|hits| - 1]];
      Filter(after, hits[..|hits| - 1]) + if Follows(after, hits[|hits| - 1]) then [hits[|hits| - 1]] else []
  }

  lemma {:induction false} FilterConcat(after: Option<Boundary>, a: seq<Hit>, b: seq<Hit>)
    ensures Filter(after, a + b) == Filter(after, a) + Filter(after, b)
    decreases |b|
  {
    if b == [] {
      assert a + b == a;
    } else {
      assert (a + b)[..|a + b| - 1] == a + b[..|b| - 1];
      FilterConcat(after, a, b[..|b| - 1]);
    }
  }

  // ---------------------------------------------------------------- collecting one segment

  /** Ordinal of the first dictionary entry beyond an ID. */
  function FirstAfter(dictionary: seq<Id>, id: Id): (r: Option<nat>)
    ensures r.Some? ==> r.value < |dictionary| && IdLess(id, dictionary[r.value])
    ensures r.Some? ==> forall i :: 0 <= i < r.value ==> !IdLess(id, dictionary[i])
    ensures r.None? ==> forall i :: 0 <= i < |dictionary| ==> !IdLess(id, dictionary[i])
  {
    if dictionary == [] then None
    else
      var front := dictionary[..|dictionary| - 1];
      var earlier := FirstAfter(front, id);
      if earlier.Some? then earlier
      else if IdLess(id, dictionary[|dictionary| - 1]) then Some(|dictionary| - 1) else None
  }

  datatype LocalBoundary = LocalBoundary(score: Score, firstAfter: Option<nat>)

  class SegmentCollector {
    const limit: nat
    const dictionary: seq<Id>
    const segment: nat
    const after: Option<LocalBoundary>
    var topDocs: seq<Local>
    var matchCount: nat
    var missingId: bool
    ghost var seen: seq<Match>
    ghost var pushed: seq<Local>

    ghost predicate Valid()
      reads this
    {
      && topDocs == Best(LocalLess, limit, pushed)
      && matchCount == |seen|
      && (missingId <==> exists i :: 0 <= i < |seen| && seen[i].ord.None?)
      && pushed == Accepted(after, seen)
    }

    constructor (limit: nat, s: Segment, segment: nat, after: Option<Boundary>)
      ensures Valid() && seen == []
      ensures this.limit == limit && dictionary == s.dictionary && this.segment == segment
      ensures this.after == Localize(s.dictionary, after)
    {
      this.limit, dictionary, this.segment := limit, s.dictionary, segment;
      this.after := Localize(s.dictionary, after);
      topDocs, matchCount, missingId := [], 0, false;
      seen, pushed := [], [];
    }

    method Collect(m: Match)
      requires Valid()
      modifies this
      ensures Valid() && seen == old(seen) + [m]
    {
      seen := seen + [m];
      assert seen[..|seen| - 1] == old(seen);
      assert forall i :: 0 <= i < |old(seen)| ==> seen[i] == old(seen)[i];
      matchCount := matchCount + 1;
      if m.ord.None? {
        assert seen[|seen| - 1].ord.None?;
        missingId := true;
        return;
      }
      if Rejected(after, m.score, m.ord.value) {
        return;
      }
      var local := Local(m.score, m.ord.value, m.doc);
      BestAppend(LocalLess, limit, pushed, local);
      topDocs := Take(limit, Insert(LocalLess, local, topDocs));
      pushed := pushed + [local];
    }

    /** Resolves the kept ordinals to IDs, unless some match had no ordinal. */
    method Harvest() returns (fruit: Result<(nat, seq<Hit>), Error>)
      requires Valid()
      ensures missingId ==> fruit == Err(MissingOrdinal)
      ensures !missingId ==> fruit == Ok((|seen|, Image(l => Resolve(dictionary, segment, l), Best(LocalLess, limit, pushed))))
    {
      if missingId {
        return Err(MissingOrdinal);
      }
      return Ok((matchCount, Image(l => Resolve(dictionary, segment, l), topDocs)));
    }
  }

  function Localize(dictionary: seq<Id>, after: Option<Boundary>): Option<LocalBoundary> {
    if after.None? then None
    else Some(LocalBoundary(after.value.score, FirstAfter(dictionary, after.value.id)))
  }

  predicate Rejected(after: Option<LocalBoundary>, score: Score, ord: nat) {
    after.Some? &&
    (score > after.value.score
     || (score == after.value.score && (after.value.firstAfter.None? || ord < after.value.firstAfter.value)))
  }

  function Resolve(dictionary: seq<Id>, segment: nat, l: Local): Hit {
    ToHit(dictionary, segment, Match(l.doc, Some(l.ord), l.score))
  }

  function Accepted(after: Option<LocalBoundary>, matches: seq<Match>): seq<Local> {
    if matches == [] then []
    else
      var m := matches[|matches| - 1];
      Accepted(after, matches[..|matches| - 1])
      + if m.ord.Some? && !Rejected(after, m.score, m.ord.value) then [Local(m.score, m.ord.value, m.doc)] else []
  }

  lemma FirstAfterDecides(s: Segment, id: Id, ord: nat)
    requires WellFormed(s) && ord < |s.dictionary|
    ensures var first := FirstAfter(s.dictionary, id);
            (first.None? || ord < first.value) <==> !IdLess(id, s.dictionary[ord])
  {
    var first := FirstAfter(s.dictionary, id);
    if first.Some? && first.value < ord {
      IdTransitive(id, s.dictionary[first.value], s.dictionary[ord]);
    }
  }

  lemma AcceptedStep(s: Segment, segment: nat, after: Option<Boundary>, m: Match)
    requires WellFormed(s) && m.ord.Some? && m.ord.value < |s.dictionary|
    ensures Rejected(Localize(s.dictionary, after), m.score, m.ord.value)
       <==> !Follows(after, ToHit(s.dictionary, segment, m))
    ensures Resolve(s.dictionary, segment, Local(m.score, m.ord.value, m.doc)) == ToHit(s.dictionary, segment, m)
  {
    assert m == Match(m.doc, Some(m.ord.value), m.score);
    if after.Some? {
      FirstAfterDecides(s, after.value.id, m.ord.value);
    }
  }

  lemma ImageConcat<A, B>(f: A -> B, a: seq<A>, b: seq<A>)
    ensures Image(f, a + b) == Image(f, a) + Image(f, b)
  {
  }

  /** Working on ordinals beyond the boundary is working on the IDs beyond it. */
  lemma {:induction false} AcceptedIsFilter(s: Segment, segment: nat, after: Option<Boundary>, matches: seq<Match>)
    requires WellFormed(s)
    requires forall i :: 0 <= i < |matches| ==> matches[i].ord.Some? && matches[i].ord.value < |s.dictionary|
    ensures Image(l => Resolve(s.dictionary, segment, l), Accepted(Localize(s.dictionary, after), matches))
         == Filter(after, Image(m => ToHit(s.dictionary, segment, m), matches))
    ensures forall i :: 0 <= i < |Accepted(Localize(s.dictionary, after), matches)| ==>
              Accepted(Localize(s.dictionary, after), matches)[i].ord < |s.dictionary|
  {
    hide Follows;
    hide Rejected;
    hide ToHit;
    hide Localize;
    hide Resolve;
    if matches != [] {
      var front, m := matches[..|matches| - 1], matches[|matches| - 1];
      AcceptedIsFilter(s, segment, after, front);
      AcceptedStep(s, segment, after, m);
      var f := (x: Match) => ToHit(s.dictionary, segment, x);
      var g := (l: Local) => Resolve(s.dictionary, segment, l);
      var local := Local(m.score, m.ord.value, m.doc);
      ImageLast(f, matches);
      ImageLast(g, Accepted(Localize(s.dictionary, after), front) + [local]);
      hide Image;
    }
  }

  lemma ImageLast<A, B>(f: A -> B, s: seq<A>)
    requires s != []
    ensures Image(f, s)[..|s| - 1] == Image(f, s[..|s| - 1])
    ensures Image(f, s) == Image(f, s[..|s| - 1]) + [f(s[|s| - 1])]
  {
  }

  lemma LocalOrder()
    ensures StrictTotal(LocalLess)
  {
  }

  lemma ResolveOrder(s: Segment, segment: nat, a: Local, b: Local)
    requires WellFormed(s) && a.ord < |s.dictionary| && b.ord < |s.dictionary|
    ensures LocalLess(a, b) <==> HitLess(Resolve(s.dictionary, segment, a), Resolve(s.dictionary, segment, b))
  {
    IdTotal(s.dictionary[a.ord], s.dictionary[b.ord]);
  }

  /** One segment's fruit in terms of hits. */
  ghost predicate IsFruit(s: Segment, segment: nat, limit: nat, after: Option<Boundary>, fruit: Result<(nat, seq<Hit>), Error>) {
    if MissingId(s) then fruit == Err(MissingOrdinal)
    else fruit == Ok((|s.matches|, Best(HitLess, limit, Filter(after, SegmentHits(s, segment)))))
  }

  method CollectSegment(s: Segment, segment: nat, limit: nat, after: Option<Boundary>)
    returns (fruit: Result<(nat, seq<Hit>), Error>)
    requires WellFormed(s)
    ensures IsFruit(s, segment, limit, after, fruit)
  {
    var collector := new SegmentCollector(limit, s, segment, after);
    for i := 0 to |s.matches|
      invariant collector.Valid() && collector.seen == s.matches[..i]
    {
      collector.Collect(s.matches[i]);
    }
    assert s.matches[..|s.matches|] == s.matches;
    fruit := collector.Harvest();
    if !MissingId(s) {
      LocalBestIsBest(s, segment, limit, after);
    }
  }

  lemma LocalBestIsBest(s: Segment, segment: nat, limit: nat, after: Option<Boundary>)
    requires WellFormed(s) && !MissingId(s)
    ensures Image(l => Resolve(s.dictionary, segment, l),
                  Best(LocalLess, limit, Accepted(Localize(s.dictionary, after), s.matches)))
         == Best(HitLess, limit, Filter(after, SegmentHits(s, segment)))
  {
    AcceptedIsFilter(s, segment, after, s.matches);
    var f := (l: Local) => Resolve(s.dictionary, segment, l);
    var locals := Accepted(Localize(s.dictionary, after), s.matches);
    forall i, j | 0 <= i < |locals| && 0 <= j < |locals|
      ensures LocalLess(locals[i], locals[j]) <==> HitLess(f(locals[i]), f(locals[j]))
    {
      ResolveOrder(s, segment, locals[i], locals[j]);
    }
    LocalOrder();
    BestImage(LocalLess, HitLess, f, limit, locals);
  }

  // ---------------------------------------------------------------- merging

  datatype Merged = Merged(retained: nat, matchCount: nat, page: seq<Hit>)

  function MatchCount(segments: seq<Segment>): nat {
    if segments == [] then 0 else MatchCount(segments[..|segments| - 1]) + |segments[|segments| - 1].matches|
  }

  /** What collecting over every segment has to return for the window [start, end). */
  ghost predicate IsMerged(segments: seq<Segment>, start: nat, end: nat, after: Option<Boundary>, r: Result<Merged, Error>) {
    if AnyMissing(segments) then r == Err(MissingOrdinal)
    else
      var best := Best(HitLess, end, Filter(after, AllHits(segments)));
      r == Ok(Merged(|best|, MatchCount(segments), best[Min(start, |best|)..]))
  }

  method MergeFruits(segments: seq<Segment>, fruits: seq<Result<(nat, seq<Hit>), Error>>, start: nat, end: nat, ghost after: Option<Boundary>)
    returns (r: Result<Merged, Error>)
    requires |fruits| == |segments|
    requires forall k :: 0 <= k < |fruits| ==> IsFruit(segments[k], k, end, after, fruits[k])
    ensures IsMerged(segments, start, end, after, r)
  {
    hide IsFruit;
    HitOrder();
    hide HitLess;
    hide Sort;
    var topDocs: seq<Hit> := [];
    var matchCount := 0;
    for k := 0 to |fruits|
      invariant topDocs == Best(HitLess, end, Filter(after, AllHits(segments[..k])))
      invariant matchCount == MatchCount(segments[..k])
      invariant !AnyMissing(segments[..k])
    {
      assert segments[..k + 1][..k] == segments[..k];
      FruitCases(segments[k], k, end, after, fruits[k]);
      match fruits[k] {
        case Err(e) =>
          assert MissingId(segments[k]);
          return Err(e);
        case Ok(fruit) =>
          matchCount := matchCount + fruit.0;
          ghost var before := Filter(after, AllHits(segments[..k]));
          ghost var added := Filter(after, SegmentHits(segments[k], k));
          FilterConcat(after, AllHits(segments[..k]), SegmentHits(segments[k], k));
          topDocs := Best(HitLess, end, topDocs + fruit.1);
          BestMerge(HitLess, end, before, added);
          BestTwice(HitLess, end, before);
          BestPrefix(HitLess, end, before, Best(HitLess, end, before), Best(HitLess, end, added));
          NoneMissing(segments[..k], segments[k]);
          assert segments[..k + 1] == segments[..k] + [segments[k]];
      }
    }
    assert segments[..|segments|] == segments;
    r := Ok(Merged(|topDocs|, matchCount, topDocs[Min(start, |topDocs|)..]));
  }

  lemma NoneMissing(segments: seq<Segment>, s: Segment)
    requires !AnyMissing(segments) && !MissingId(s)
    ensures !AnyMissing(segments + [s])
  {
  }

  lemma FruitCases(s: Segment, segment: nat, limit: nat, after: Option<Boundary>, fruit: Result<(nat, seq<Hit>), Error>)
    requires IsFruit(s, segment, limit, after, fruit)
    ensures fruit.Err? <==> MissingId(s)
    ensures fruit.Err? ==> fruit == Err(MissingOrdinal)
    ensures fruit.Ok? ==> fruit.value == (|s.matches|, Best(HitLess, limit, Filter(after, SegmentHits(s, segment))))
  {
  }

  /** Runs a collector over every segment and merges the fruits. */
  method CollectAll(segments: seq<Segment>, start: nat, end: nat, after: Option<Boundary>) returns (r: Result<Merged, Error>)
    requires Snapshot(segments)
    ensures IsMerged(segments, start, end, after, r)
  {
    hide IsFruit;
    hide IsMerged;
    var fruits := [];
    for k := 0 to |segments|
      invariant |fruits| == k
      invariant forall j :: 0 <= j < k ==> IsFruit(segments[j], j, end, after, fruits[j])
    {
      var fruit := CollectSegment(segments[k], k, end, after);
      fruits := fruits + [fruit];
    }
    r := MergeFruits(segments, fruits, start, end, after);
  }
}
