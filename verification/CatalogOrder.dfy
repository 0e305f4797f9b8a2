/** What stands in a list sorted by metadata, and in which order, said of the matches' own fields. */
module CatalogOrder {
  import opened Wrappers
  import opened TopN
  import opened CatalogSort
  import Ranking

  /** A match: its segment and its position there. */
  datatype Place = Place(segment: nat, index: nat)

  predicate IsPlace(segments: seq<SortSegment>, p: Place) { p.segment < |segments| && p.index < |segments[p.segment].matches| }

  /** `value` is what the field's ordinal for this document stands for, or nothing if it has none. */
  predicate IsKey(c: Child, doc: nat, value: Option<Value>) {
    match c.key(doc)
    case None => value.None?
    case Some(ordinal) => ordinal < |c.values| ==> value == Some(c.values[ordinal])
  }

  /** The hit carries the keys, the ID, the score and the address of the match at this place. */
  predicate StandsFor(segments: seq<SortSegment>, p: Place, h: KeyedHit)
    requires IsPlace(segments, p)
  {
    var s := segments[p.segment];
    var m := s.matches[p.index];
    && h.score == m.score && h.doc == m.doc && h.segment == p.segment
    && |h.keys| == |s.children| && (forall c :: 0 <= c < |s.children| ==> IsKey(s.children[c], m.doc, h.keys[c]))
    && match m.idOrd
       case None => h.id.None?
       case Some(ordinal) => ordinal < |s.dictionary| ==> h.id == Some(s.dictionary[ordinal])
  }

  /** Each hit stands for the match at its place, and no match is listed twice. */
  predicate Lists(segments: seq<SortSegment>, places: seq<Place>, hits: seq<KeyedHit>) {
    && |places| == |hits|
    && (forall n :: 0 <= n < |hits| ==> IsPlace(segments, places[n]) && StandsFor(segments, places[n], hits[n]))
    && (forall m, n :: 0 <= m < n < |hits| ==> places[m] != places[n])
  }

  lemma SegmentStandsFor(segments: seq<SortSegment>, k: nat, i: nat)
    requires k < |segments| && i < |segments[k].matches|
    ensures |SegmentHits(segments[k], k)| == |segments[k].matches|
    ensures StandsFor(segments, Place(k, i), SegmentHits(segments[k], k)[i])
  {
  }

  lemma {:induction false} HitsStandForMatches(segments: seq<SortSegment>) returns (places: seq<Place>)
    ensures Lists(segments, places, AllHits(segments))
    ensures forall p :: IsPlace(segments, p) ==> p in places
  {
    if segments == [] {
      places := [];
    } else {
      var k := |segments| - 1;
      var before := HitsStandForMatches(segments[..k]);
      SegmentSize(segments[k], k);
      hide SegmentHits;
      var here := seq(|segments[k].matches|, i requires 0 <= i < |segments[k].matches| => Place(k, i));
      places := before + here;
      forall p | IsPlace(segments, p) ensures p in places {
        if p.segment < k { assert IsPlace(segments[..k], p); } else { assert here[p.index] == p; }
      }
      forall n | 0 <= n < |places| ensures IsPlace(segments, places[n]) && StandsFor(segments, places[n], AllHits(segments)[n]) {
        if n < |before| { assert IsPlace(segments[..k], before[n]) && StandsFor(segments[..k], before[n], AllHits(segments[..k])[n]); }
        else { SegmentStandsFor(segments, k, n - |before|); }
      }
      forall m, n | 0 <= m < n < |places| ensures places[m] != places[n] {
        if m < |before| <= n { assert IsPlace(segments[..k], before[m]); }
      }
    }
  }

  lemma RearrangedPlaces(segments: seq<SortSegment>, all: seq<Place>, hits: seq<KeyedHit>, order: seq<nat>, sorted: seq<KeyedHit>)
    returns (places: seq<Place>)
    requires Lists(segments, all, hits) && Rearrangement(order, |hits|) && |sorted| == |hits|
    requires forall i :: 0 <= i < |sorted| ==> sorted[i] == hits[order[i]]
    ensures Lists(segments, places, sorted)
    ensures forall p :: p in all ==> p in places
  {
    hide IsPlace, StandsFor;
    places := seq(|order|, n requires 0 <= n < |order| => all[order[n]]);
    forall p | p in all ensures p in places {
      var n :| 0 <= n < |all| && all[n] == p;
      RearrangementNamesAll(order, |all|, n);
      var i :| 0 <= i < |order| && order[i] == n;
      assert places[i] == p;
    }
  }

  /** The list a sorted page is cut from. */
  function SortedHits(segments: seq<SortSegment>, sorts: seq<SortRequest>): seq<KeyedHit> {
    var cs := Image(ComparatorOf, sorts);
    Sort((a, b) => KeyedLess(cs, a, b), AllHits(segments))
  }

  /** Every match of the snapshot stands in the sorted list exactly once, with its own keys, ID, score and address. */
  lemma SortedListsMatches(segments: seq<SortSegment>, sorts: seq<SortRequest>) returns (places: seq<Place>)
    ensures Lists(segments, places, SortedHits(segments, sorts))
    ensures forall p :: IsPlace(segments, p) ==> p in places
  {
    var cs := Image(ComparatorOf, sorts);
    KeyedOrder(cs);
    SortOrdered((a, b) => KeyedLess(cs, a, b), AllHits(segments));
    var all := HitsStandForMatches(segments);
    hide IsPlace, StandsFor, KeyedLess, Sort;
    var order := Rearranged(AllHits(segments), SortedHits(segments, sorts));
    places := RearrangedPlaces(segments, all, AllHits(segments), order, SortedHits(segments, sorts));
  }

  /** The first key in which the hits differ puts `a` first, by that key's own direction and rule for missing values. */
  predicate FirstByKey(sorts: seq<SortRequest>, a: seq<Option<Value>>, b: seq<Option<Value>>, j: nat)
  {
    j < |sorts| && j < |a| && j < |b| && a[..j] == b[..j] && Precedes(sorts[j], a[j], b[j])
  }

  /** A hit with an ID comes before one without, and IDs go by their bytes. */
  ghost predicate FirstById(a: Option<Ranking.Id>, b: Option<Ranking.Id>) {
    a.Some? && (b.None? || exists d: nat :: Ranking.FirstDifference(a.value, b.value, d))
  }

  lemma {:induction false} CompareIsFirstKey(sorts: seq<SortRequest>, a: seq<Option<Value>>, b: seq<Option<Value>>) returns (j: nat)
    requires |a| == |b| == |sorts|
    ensures CompareKeys(ValueLess, Image(ComparatorOf, sorts), a, b) == Greater ==> FirstByKey(sorts, a, b, j)
  {
    j := 0;
    if a != [] {
      var cs := Image(ComparatorOf, sorts);
      ComparatorMeetsRequest(sorts[0], a[0], b[0]);
      assert Image(ComparatorOf, sorts[1..]) == cs[1..];
      var k := CompareIsFirstKey(sorts[1..], a[1..], b[1..]);
      if a[0] == b[0] {
        j := k + 1;
        if CompareKeys(ValueLess, cs, a, b) == Greater {
          assert a[..k + 1] == [a[0]] + a[1..][..k] && b[..k + 1] == [b[0]] + b[1..][..k];
        }
      }
    }
  }

  lemma IdComesFirst(a: Option<Ranking.Id>, b: Option<Ranking.Id>)
    ensures Compare(Ranking.IdLess, ID_ORDER, a, b) == Greater <==> FirstById(a, b)
    ensures Compare(Ranking.IdLess, ID_ORDER, a, b) == Equal <==> a == b
    ensures a == b || FirstById(a, b) || FirstById(b, a)
  {
    if a.Some? && b.Some? {
      Ranking.IdLessIsByteOrder(a.value, b.value);
      Ranking.IdLessIsByteOrder(b.value, a.value);
      Ranking.IdTotal(a.value, b.value);
      Ranking.IdTotal(a.value, a.value);
    }
  }

  /** The sorted list goes by the requested keys in turn, each with its own direction and rule for missing values, then by
      ID bytes ascending with missing IDs last, then by score descending, then by address. */
  lemma SortedByRequest(segments: seq<SortSegment>, sorts: seq<SortRequest>, m: nat, n: nat)
    requires forall k :: 0 <= k < |segments| ==> |segments[k].children| == |sorts|
    requires m < n < |SortedHits(segments, sorts)|
    ensures var (a, b) := (SortedHits(segments, sorts)[m], SortedHits(segments, sorts)[n]);
      || (exists j: nat :: FirstByKey(sorts, a.keys, b.keys, j))
      || (a.keys == b.keys && FirstById(a.id, b.id))
      || (a.keys == b.keys && a.id == b.id && a.score > b.score)
      || (a.keys == b.keys && a.id == b.id && a.score == b.score
          && (a.segment < b.segment || (a.segment == b.segment && a.doc <= b.doc)))
  {
    var cs := Image(ComparatorOf, sorts);
    var (a, b) := (SortedHits(segments, sorts)[m], SortedHits(segments, sorts)[n]);
    SortedNeighbours(segments, sorts, m, n);
    ValueOrder();
    CompareTotal(ValueLess, cs, a.keys, b.keys);
    CompareTotal(ValueLess, cs, b.keys, a.keys);
    IdComesFirst(a.id, b.id);
    IdComesFirst(b.id, a.id);
    var j := CompareIsFirstKey(sorts, a.keys, b.keys);
    hide Compare, CompareKeys, FirstByKey, FirstById, ValueLess, ComparatorOf, Image;
    KeyedLessCases(cs, a, b);
  }

  lemma SortedNeighbours(segments: seq<SortSegment>, sorts: seq<SortRequest>, m: nat, n: nat)
    requires forall k :: 0 <= k < |segments| ==> |segments[k].children| == |sorts|
    requires m < n < |SortedHits(segments, sorts)|
    ensures var (a, b) := (SortedHits(segments, sorts)[m], SortedHits(segments, sorts)[n]);
      && |a.keys| == |b.keys| == |sorts|
      && !KeyedLess(Image(ComparatorOf, sorts), b, a)
  {
    var cs := Image(ComparatorOf, sorts);
    KeyedOrder(cs);
    SortOrdered((a, b) => KeyedLess(cs, a, b), AllHits(segments));
    var places := SortedListsMatches(segments, sorts);
    hide KeyedLess, Sort;
  }

  lemma KeyedLessCases(cs: seq<Comparator>, a: KeyedHit, b: KeyedHit)
    requires |a.keys| == |b.keys| == |cs| && !KeyedLess(cs, b, a)
    requires CompareKeys(ValueLess, cs, a.keys, b.keys) == Equal <==> a.keys == b.keys
    requires CompareKeys(ValueLess, cs, b.keys, a.keys) == Equal <==> a.keys == b.keys
    requires CompareKeys(ValueLess, cs, a.keys, b.keys) == Less <==> CompareKeys(ValueLess, cs, b.keys, a.keys) == Greater
    ensures CompareKeys(ValueLess, cs, a.keys, b.keys) == Greater || a.keys == b.keys
    ensures a.keys == b.keys ==> Compare(Ranking.IdLess, ID_ORDER, b.id, a.id) != Greater
    ensures a.keys == b.keys && a.id == b.id ==> a.score >= b.score
    ensures a.keys == b.keys && a.id == b.id && a.score == b.score ==>
      a.segment < b.segment || (a.segment == b.segment && a.doc <= b.doc)
  {
    hide Compare, CompareKeys, ValueLess;
  }
}
