/**
 Metadata sorts over any number of keys: lazily computed segment keys, per-segment selection, merge and skip,
 against the global order by the requested keys, then ID, then score.
 */
module CatalogSort {
  import opened Wrappers
  import opened TopN
  import Ranking

  datatype Direction = Asc | Desc
  datatype MissingOrder = First | Last
  datatype SortRequest = SortRequest(direction: Direction, missing: MissingOrder)

  datatype Comparator = Reverse | ReverseNoneLower | NaturalNoneHigher | Natural
  datatype Ordering = Less | Equal | Greater

  datatype Value = Number(n: int) | Text(bytes: Ranking.Id)

  function ComparatorOf(sort: SortRequest): Comparator {
    match (sort.direction, sort.missing)
    case (Asc, First) => Reverse
    case (Asc, Last) => ReverseNoneLower
    case (Desc, First) => NaturalNoneHigher
    case (Desc, Last) => Natural
  }

  /** Comparators over optional keys; a higher key is collected first. */
  function Compare<K(==)>(less: (K, K) -> bool, c: Comparator, a: Option<K>, b: Option<K>): Ordering {
    match (a, b)
    case (None, None) => Equal
    case (None, Some(_)) => if c.Reverse? || c.NaturalNoneHigher? then Greater else Less
    case (Some(_), None) => if c.Reverse? || c.NaturalNoneHigher? then Less else Greater
    case (Some(x), Some(y)) =>
      var reversed := c.Reverse? || c.ReverseNoneLower?;
      if x == y then Equal
      else if less(x, y) then (if reversed then Greater else Less)
      else (if reversed then Less else Greater)
  }

  function CompareKeys<K(==)>(less: (K, K) -> bool, cs: seq<Comparator>, a: seq<Option<K>>, b: seq<Option<K>>): Ordering {
    if a == [] || b == [] || cs == [] then Equal
    else
      var order := Compare(less, cs[0], a[0], b[0]);
      if order != Equal then order else CompareKeys(less, cs[1..], a[1..], b[1..])
  }

  predicate NatLess(a: nat, b: nat) { a < b }

  predicate ValueLess(a: Value, b: Value) {
    match (a, b)
    case (Number(x), Number(y)) => x < y
    case (Text(x), Text(y)) => Ranking.IdLess(x, y)
    case (Number(_), Text(_)) => true
    case (Text(_), Number(_)) => false
  }

  /** What a request means: which of two values comes first. */
  predicate Precedes(sort: SortRequest, a: Option<Value>, b: Option<Value>) {
    match (a, b)
    case (None, None) => false
    case (None, Some(_)) => sort.missing == First
    case (Some(_), None) => sort.missing == Last
    case (Some(x), Some(y)) => if sort.direction == Asc then ValueLess(x, y) else ValueLess(y, x)
  }

  lemma ValueOrder()
    ensures StrictTotal(ValueLess)
  {
    forall a: Value, b: Value ensures !ValueLess(a, a) && (a == b || ValueLess(a, b) || ValueLess(b, a)) {
      if a.Text? && b.Text? {
        Ranking.IdTotal(a.bytes, b.bytes);
      } else if a.Text? {
        Ranking.IdTotal(a.bytes, a.bytes);
      }
    }
    forall a: Value, b: Value, c: Value | ValueLess(a, b) && ValueLess(b, c) ensures ValueLess(a, c) {
      if a.Text? && b.Text? && c.Text? {
        Ranking.IdTransitive(a.bytes, b.bytes, c.bytes);
      }
    }
  }

  /** The chosen comparator collects first exactly what the request puts first. */
  lemma ComparatorMeetsRequest(sort: SortRequest, a: Option<Value>, b: Option<Value>)
    ensures Compare(ValueLess, ComparatorOf(sort), a, b) == Greater <==> Precedes(sort, a, b)
    ensures Compare(ValueLess, ComparatorOf(sort), a, b) == Equal <==> a == b
  {
    ValueOrder();
    if a.Some? && b.Some? {
      assert !(ValueLess(a.value, b.value) && ValueLess(b.value, a.value));
    }
  }

  // ---------------------------------------------------------------- lazily computed segment keys

  /** A field of one segment: each document's ordinal, and the value behind every ordinal. */
  datatype Child = Child(key: nat -> Option<nat>, values: seq<Value>)

  /** The whole key of a document, computed eagerly. */
  function SegmentSortKey(children: seq<Child>, doc: nat): (r: seq<Option<nat>>)
    ensures |r| == |children|
    ensures forall i :: 0 <= i < |children| ==> r[i] == children[i].key(doc)
  {
    seq(|children|, i requires 0 <= i < |children| => children[i].key(doc))
  }

  class DynamicSegmentKeys {
    const children: seq<Child>
    const comparators: seq<Comparator>
    const scratch: array<Option<nat>>

    ghost predicate Valid() {
      |comparators| == |children| == scratch.Length
    }

    constructor (children: seq<Child>, comparators: seq<Comparator>)
      requires |comparators| == |children|
      ensures Valid() && this.children == children && this.comparators == comparators && fresh(scratch)
    {
      this.children, this.comparators := children, comparators;
      scratch := new Option<nat>[|children|](i => None);
    }

    /** Computes keys only until the threshold is beaten or lost to. */
    method AcceptSortKeyLazy(doc: nat, threshold: seq<Option<nat>>) returns (r: Option<(Ordering, seq<Option<nat>>)>)
      requires Valid() && |threshold| == |children|
      modifies scratch
      ensures var order := CompareKeys(NatLess, comparators, SegmentSortKey(children, doc), threshold);
              r == if order == Less then None else Some((order, SegmentSortKey(children, doc)))
    {
      ghost var full := SegmentSortKey(children, doc);
      var order := Equal;
      var position := 0;
      while position < |threshold|
        invariant 0 <= position <= |threshold|
        invariant order == Equal
        invariant forall i :: 0 <= i < position ==> scratch[i] == full[i]
        invariant CompareKeys(NatLess, comparators, full, threshold)
               == CompareKeys(NatLess, comparators[position..], full[position..], threshold[position..])
      {
        var key := children[position].key(doc);
        scratch[position] := key;
        order := Compare(NatLess, comparators[position], key, threshold[position]);
        if order == Less {
          return None;
        }
        if order == Greater {
          var rest := position + 1;
          while rest < |children|
            invariant position + 1 <= rest <= |children|
            invariant forall i :: 0 <= i < rest ==> scratch[i] == full[i]
          {
            scratch[rest] := children[rest].key(doc);
            rest := rest + 1;
          }
          break;
        }
        position := position + 1;
      }
      assert scratch[..] == full;
      r := Some((order, scratch[..]));
    }
  }

  // ---------------------------------------------------------------- the orders

  datatype KeyedHit = KeyedHit(keys: seq<Option<Value>>, id: Option<Ranking.Id>, score: int, segment: nat, doc: nat)
  datatype LocalHit = LocalHit(keys: seq<Option<nat>>, idOrd: Option<nat>, score: int, doc: nat)

  /** Missing comparators count as `Natural`; a request has one comparator for every key. */
  function Padded(cs: seq<Comparator>, n: nat): (r: seq<Comparator>)
    ensures |r| == n
    ensures |cs| == n ==> r == cs
  {
    seq(n, i requires 0 <= i < n => if i < |cs| then cs[i] else Natural)
  }

  /** The library's ascending order: a missing ID comes last. */
  const ID_ORDER := ReverseNoneLower

  /** Requested keys first, then ID ascending, then score descending, then address. Hits of one request have equally
      many keys; comparing the number of keys first only makes the order total. */
  predicate KeyedLess(cs: seq<Comparator>, a: KeyedHit, b: KeyedHit) {
    || |a.keys| < |b.keys|
    || (|a.keys| == |b.keys|
        && (var order := CompareKeys(ValueLess, Padded(cs, |a.keys|), a.keys, b.keys);
            || order == Greater
            || (order == Equal
                && (|| Compare(Ranking.IdLess, ID_ORDER, a.id, b.id) == Greater
                    || (a.id == b.id && a.score > b.score)
                    || (a.id == b.id && a.score == b.score && a.segment < b.segment)
                    || (a.id == b.id && a.score == b.score && a.segment == b.segment && a.doc < b.doc)))))
  }

  predicate LocalLess(cs: seq<Comparator>, a: LocalHit, b: LocalHit) {
    || |a.keys| < |b.keys|
    || (|a.keys| == |b.keys|
        && (var order := CompareKeys(NatLess, Padded(cs, |a.keys|), a.keys, b.keys);
            || order == Greater
            || (order == Equal
                && (|| Compare(NatLess, ID_ORDER, a.idOrd, b.idOrd) == Greater
                    || (a.idOrd == b.idOrd && a.score > b.score)
                    || (a.idOrd == b.idOrd && a.score == b.score && a.doc < b.doc)))))
  }

  lemma {:induction false} CompareTotal<K(!new)>(less: (K, K) -> bool, cs: seq<Comparator>, a: seq<Option<K>>, b: seq<Option<K>>)
    requires StrictTotal(less) && |a| == |b| == |cs|
    ensures CompareKeys(less, cs, a, b) == Equal <==> a == b
    ensures CompareKeys(less, cs, a, b) == Greater <==> CompareKeys(less, cs, b, a) == Less
  {
    if a != [] {
      CompareTotal(less, cs[1..], a[1..], b[1..]);
      assert a == [a[0]] + a[1..] && b == [b[0]] + b[1..];
      if a[0].Some? && b[0].Some? {
        assert !(less(a[0].value, b[0].value) && less(b[0].value, a[0].value));
      }
    }
  }

  lemma {:induction false} CompareTransitive<K(!new)>(
    less: (K, K) -> bool, cs: seq<Comparator>, a: seq<Option<K>>, b: seq<Option<K>>, c: seq<Option<K>>)
    requires StrictTotal(less) && |a| == |b| == |c| == |cs|
    requires CompareKeys(less, cs, a, b) == Greater && CompareKeys(less, cs, b, c) == Greater
    ensures CompareKeys(less, cs, a, c) == Greater
  {
    if a[0] == b[0] == c[0] {
      CompareTransitive(less, cs[1..], a[1..], b[1..], c[1..]);
    }
  }

  lemma KeyedOrder(cs: seq<Comparator>)
    ensures StrictTotal((a, b) => KeyedLess(cs, a, b))
  {
    ValueOrder();
    var less := (a, b) => KeyedLess(cs, a, b);
    forall a: KeyedHit, b: KeyedHit ensures !less(a, a) && (a == b || less(a, b) || less(b, a)) {
      KeyedTotal(cs, a, b);
    }
    forall a: KeyedHit, b: KeyedHit, c: KeyedHit | less(a, b) && less(b, c) ensures less(a, c) {
      KeyedTransitive(cs, a, b, c);
    }
  }

  lemma KeyedTotal(cs: seq<Comparator>, a: KeyedHit, b: KeyedHit)
    requires StrictTotal(ValueLess)
    ensures !KeyedLess(cs, a, a) && (a == b || KeyedLess(cs, a, b) || KeyedLess(cs, b, a))
  {
    if a.id.Some? && b.id.Some? { Ranking.IdTotal(a.id.value, b.id.value); }
    CompareTotal(ValueLess, Padded(cs, |a.keys|), a.keys, a.keys);
    if |a.keys| == |b.keys| {
      CompareTotal(ValueLess, Padded(cs, |a.keys|), a.keys, b.keys);
      CompareTotal(ValueLess, Padded(cs, |a.keys|), b.keys, a.keys);
    }
  }

  lemma KeyedTransitive(cs: seq<Comparator>, a: KeyedHit, b: KeyedHit, c: KeyedHit)
    requires StrictTotal(ValueLess) && KeyedLess(cs, a, b) && KeyedLess(cs, b, c)
    ensures KeyedLess(cs, a, c)
  {
    if |a.keys| == |b.keys| == |c.keys| {
      var padded := Padded(cs, |a.keys|);
      CompareTotal(ValueLess, padded, a.keys, b.keys);
      CompareTotal(ValueLess, padded, b.keys, c.keys);
      if CompareKeys(ValueLess, padded, a.keys, b.keys) == Greater && CompareKeys(ValueLess, padded, b.keys, c.keys) == Greater {
        CompareTransitive(ValueLess, padded, a.keys, b.keys, c.keys);
      }
      if a.id.Some? && b.id.Some? && c.id.Some? && Ranking.IdLess(a.id.value, b.id.value) && Ranking.IdLess(b.id.value, c.id.value) {
        Ranking.IdTransitive(a.id.value, b.id.value, c.id.value);
        Ranking.IdTotal(a.id.value, c.id.value);
      }
    }
  }

  lemma LocalOrder(cs: seq<Comparator>)
    ensures StrictTotal((a, b) => LocalLess(cs, a, b))
  {
    var less := (a, b) => LocalLess(cs, a, b);
    forall a: LocalHit, b: LocalHit ensures !less(a, a) && (a == b || less(a, b) || less(b, a)) {
      CompareTotal(NatLess, Padded(cs, |a.keys|), a.keys, a.keys);
      if |a.keys| == |b.keys| {
        CompareTotal(NatLess, Padded(cs, |a.keys|), a.keys, b.keys);
        CompareTotal(NatLess, Padded(cs, |a.keys|), b.keys, a.keys);
      }
    }
    forall a: LocalHit, b: LocalHit, c: LocalHit | less(a, b) && less(b, c) ensures less(a, c) {
      LocalTransitive(cs, a, b, c);
    }
  }

  lemma LocalTransitive(cs: seq<Comparator>, a: LocalHit, b: LocalHit, c: LocalHit)
    requires LocalLess(cs, a, b) && LocalLess(cs, b, c)
    ensures LocalLess(cs, a, c)
  {
    if |a.keys| == |b.keys| == |c.keys| {
      var padded := Padded(cs, |a.keys|);
      CompareTotal(NatLess, padded, a.keys, b.keys);
      CompareTotal(NatLess, padded, b.keys, c.keys);
      if CompareKeys(NatLess, padded, a.keys, b.keys) == Greater && CompareKeys(NatLess, padded, b.keys, c.keys) == Greater {
        CompareTransitive(NatLess, padded, a.keys, b.keys, c.keys);
      }
    }
  }

  // ---------------------------------------------------------------- segments

  datatype SortMatch = SortMatch(doc: nat, idOrd: Option<nat>, score: int)
  datatype SortSegment = SortSegment(children: seq<Child>, dictionary: seq<Ranking.Id>, matches: seq<SortMatch>)

  predicate InDictionary(s: SortSegment, idOrd: Option<nat>) { idOrd.Some? ==> idOrd.value < |s.dictionary| }

  /** Ordinals are in range and ordered like the values they stand for. */
  ghost predicate WellFormed(s: SortSegment, keys: nat) {
    && |s.children| == keys
    && (forall i, j :: 0 <= i < j < |s.dictionary| ==> Ranking.IdLess(s.dictionary[i], s.dictionary[j]))
    && (forall i :: 0 <= i < |s.matches| ==> InDictionary(s, s.matches[i].idOrd))
    && (forall c :: 0 <= c < keys ==> WellFormedChild(s.children[c]))
  }

  ghost predicate WellFormedChild(c: Child) {
    && (forall i, j :: 0 <= i < j < |c.values| ==> ValueLess(c.values[i], c.values[j]))
    && (forall doc :: c.key(doc).Some? ==> c.key(doc).value < |c.values|)
  }

  function ToLocal(s: SortSegment, m: SortMatch): LocalHit {
    LocalHit(SegmentSortKey(s.children, m.doc), m.idOrd, m.score, m.doc)
  }

  /** Ordinals replaced by the values they stand for. */
  function Convert(c: Child, key: Option<nat>): Option<Value> {
    if key.Some? && key.value < |c.values| then Some(c.values[key.value]) else None
  }

  function IdOf(s: SortSegment, idOrd: Option<nat>): Option<Ranking.Id> {
    if idOrd.Some? && idOrd.value < |s.dictionary| then Some(s.dictionary[idOrd.value]) else None
  }

  function Resolve(s: SortSegment, segment: nat, l: LocalHit): KeyedHit {
    KeyedHit(seq(|l.keys|, i requires 0 <= i < |l.keys| => if i < |s.children| then Convert(s.children[i], l.keys[i]) else None),
             IdOf(s, l.idOrd), l.score, segment, l.doc)
  }

  function SegmentLocals(s: SortSegment): seq<LocalHit> {
    Image(m => ToLocal(s, m), s.matches)
  }

  function SegmentHits(s: SortSegment, segment: nat): seq<KeyedHit> {
    Image(l => Resolve(s, segment, l), SegmentLocals(s))
  }

  function AllHits(segments: seq<SortSegment>): seq<KeyedHit> {
    if segments == [] then []
    else AllHits(segments[..|segments| - 1]) + SegmentHits(segments[|segments| - 1], |segments| - 1)
  }

  lemma ConvertOrder(c: Child, comparator: Comparator, a: Option<nat>, b: Option<nat>)
    requires WellFormedChild(c)
    requires a.Some? ==> a.value < |c.values|
    requires b.Some? ==> b.value < |c.values|
    ensures Compare(NatLess, comparator, a, b) == Compare(ValueLess, comparator, Convert(c, a), Convert(c, b))
  {
    ValueOrder();
    if a.Some? && b.Some? && a.value != b.value {
      assert ValueLess(c.values[a.value], c.values[b.value]) || ValueLess(c.values[b.value], c.values[a.value]);
      assert !(ValueLess(c.values[a.value], c.values[b.value]) && ValueLess(c.values[b.value], c.values[a.value]));
    }
  }

  function ConvertAll(children: seq<Child>, keys: seq<Option<nat>>): (r: seq<Option<Value>>)
    requires |keys| == |children|
    ensures |r| == |keys|
    ensures forall i :: 0 <= i < |keys| ==> r[i] == Convert(children[i], keys[i])
  {
    seq(|keys|, i requires 0 <= i < |keys| => Convert(children[i], keys[i]))
  }

  lemma {:induction false} ConvertAllOrder(children: seq<Child>, cs: seq<Comparator>, a: seq<Option<nat>>, b: seq<Option<nat>>)
    requires |a| == |b| == |cs| == |children|
    requires forall i :: 0 <= i < |children| ==> WellFormedChild(children[i])
    requires forall i :: 0 <= i < |a| ==> a[i].Some? ==> a[i].value < |children[i].values|
    requires forall i :: 0 <= i < |b| ==> b[i].Some? ==> b[i].value < |children[i].values|
    ensures CompareKeys(NatLess, cs, a, b)
         == CompareKeys(ValueLess, cs, ConvertAll(children, a), ConvertAll(children, b))
  {
    if a != [] {
      ConvertOrder(children[0], cs[0], a[0], b[0]);
      ConvertAllOrder(children[1..], cs[1..], a[1..], b[1..]);
      assert ConvertAll(children, a)[1..] == ConvertAll(children[1..], a[1..]);
      assert ConvertAll(children, b)[1..] == ConvertAll(children[1..], b[1..]);
    }
  }

  lemma ResolveOrder(s: SortSegment, cs: seq<Comparator>, segment: nat, m: SortMatch, n: SortMatch)
    requires WellFormed(s, |cs|) && InDictionary(s, m.idOrd) && InDictionary(s, n.idOrd)
    ensures LocalLess(cs, ToLocal(s, m), ToLocal(s, n))
       <==> KeyedLess(cs, Resolve(s, segment, ToLocal(s, m)), Resolve(s, segment, ToLocal(s, n)))
  {
    var a, b := SegmentSortKey(s.children, m.doc), SegmentSortKey(s.children, n.doc);
    ConvertAllOrder(s.children, cs, a, b);
    assert Resolve(s, segment, ToLocal(s, m)).keys == ConvertAll(s.children, a);
    assert Resolve(s, segment, ToLocal(s, n)).keys == ConvertAll(s.children, b);
    if m.idOrd.Some? && n.idOrd.Some? { Ranking.IdTotal(s.dictionary[m.idOrd.value], s.dictionary[n.idOrd.value]); }
  }

  lemma {:induction false} InsertWorst<H(!new)>(less: (H, H) -> bool, x: H, s: seq<H>)
    requires StrictTotal(less) && Ordered(less, s) && s != [] && less(s[|s| - 1], x)
    ensures Insert(less, x, s) == s + [x]
  {
    assert less(s[0], x) by {
      if |s| > 1 {
        assert !less(s[|s| - 1], s[0]);
      }
    }
    if |s| > 1 {
      OrderedHead(less, s);
      InsertWorst(less, x, s[1..]);
    }
  }

  /** Selects a segment's best hits, computing keys no further than needed to reject a document. */
  method CollectSegment(s: SortSegment, segment: nat, cs: seq<Comparator>, end: nat) returns (top: seq<KeyedHit>)
    requires WellFormed(s, |cs|) && end > 0
    ensures top == Best((a, b) => KeyedLess(cs, a, b), end, SegmentHits(s, segment))
  {
    var keys := new DynamicSegmentKeys(s.children, cs);
    ghost var less := (a, b) => LocalLess(cs, a, b);
    ghost var locals := SegmentLocals(s);
    var kept: seq<LocalHit> := [];
    for i := 0 to |s.matches|
      invariant keys.Valid() && keys.children == s.children && keys.comparators == cs && fresh(keys.scratch)
      invariant kept == Best(less, end, locals[..i])
      invariant AllWidth(|cs|, kept)
    {
      var m := s.matches[i];
      assert locals[..i + 1] == locals[..i] + [locals[i]];
      BestAppend(less, end, locals[..i], locals[i]);
      ghost var next := Take(end, Insert(less, locals[i], kept));
      if |kept| == end {
        var accepted := keys.AcceptSortKeyLazy(m.doc, kept[end - 1].keys);
        if accepted.None? {
          RejectedIsWorst(cs, end, locals[..i], locals[i]);
          continue;
        }
        kept := InsertKept(cs, end, LocalHit(accepted.value.1, m.idOrd, m.score, m.doc), kept);
      } else {
        kept := InsertKept(cs, end, LocalHit(SegmentSortKey(keys.children, m.doc), m.idOrd, m.score, m.doc), kept);
      }
    }
    assert locals[..|locals|] == locals;
    top := Image(l => Resolve(s, segment, l), kept);
    LocalBestIsBest(s, segment, cs, end);
  }

  predicate AllWidth(n: nat, s: seq<LocalHit>) {
    forall j :: 0 <= j < |s| ==> |s[j].keys| == n
  }

  function InsertKept(cs: seq<Comparator>, end: nat, hit: LocalHit, kept: seq<LocalHit>): (r: seq<LocalHit>)
    requires |hit.keys| == |cs| && AllWidth(|cs|, kept)
    ensures AllWidth(|cs|, r)
  {
    var less := (a, b) => LocalLess(cs, a, b);
    InsertKeepsWidth(less, |cs|, hit, kept);
    Take(end, Insert(less, hit, kept))
  }

  lemma {:induction false} InsertKeepsWidth(less: (LocalHit, LocalHit) -> bool, n: nat, hit: LocalHit, kept: seq<LocalHit>)
    requires |hit.keys| == n && AllWidth(n, kept)
    ensures AllWidth(n, Insert(less, hit, kept))
  {
    if kept != [] && !less(hit, kept[0]) {
      InsertKeepsWidth(less, n, hit, kept[1..]);
    }
  }

  /** A document whose key loses to the worst kept key would not have been kept. */
  lemma RejectedIsWorst(cs: seq<Comparator>, end: nat, before: seq<LocalHit>, x: LocalHit)
    requires end > 0
    requires var kept := Best((a, b) => LocalLess(cs, a, b), end, before);
             && |kept| == end && |kept[end - 1].keys| == |x.keys| == |cs|
             && CompareKeys(NatLess, cs, x.keys, kept[end - 1].keys) == Less
    ensures var less := (a, b) => LocalLess(cs, a, b);
            Take(end, Insert(less, x, Best(less, end, before))) == Best(less, end, before)
  {
    var less := (a, b) => LocalLess(cs, a, b);
    var kept := Best(less, end, before);
    LocalOrder(cs);
    SortOrdered(less, before);
    CompareTotal(NatLess, cs, kept[end - 1].keys, x.keys);
    InsertWorst(less, x, kept);
  }

  lemma LocalBestIsBest(s: SortSegment, segment: nat, cs: seq<Comparator>, end: nat)
    requires WellFormed(s, |cs|)
    ensures Image(l => Resolve(s, segment, l), Best((a, b) => LocalLess(cs, a, b), end, SegmentLocals(s)))
         == Best((a, b) => KeyedLess(cs, a, b), end, SegmentHits(s, segment))
  {
    var local, keyed := (a, b) => LocalLess(cs, a, b), (a, b) => KeyedLess(cs, a, b);
    var f := (l: LocalHit) => Resolve(s, segment, l);
    var locals := SegmentLocals(s);
    forall i, j | 0 <= i < |locals| && 0 <= j < |locals| ensures local(locals[i], locals[j]) <==> keyed(f(locals[i]), f(locals[j])) {
      ResolveOrder(s, cs, segment, s.matches[i], s.matches[j]);
    }
    LocalOrder(cs);
    BestImage(local, keyed, f, end, locals);
  }

  lemma SegmentSize(s: SortSegment, segment: nat)
    ensures |SegmentHits(s, segment)| == |s.matches|
  {
  }

  lemma NoHits(less: (KeyedHit, KeyedHit) -> bool, end: nat)
    ensures Best(less, end, []) == [] && AllHits([]) == []
  {
  }

  lemma MergeStep(cs: seq<Comparator>, end: nat, before: seq<KeyedHit>, added: seq<KeyedHit>)
    ensures var less := (a, b) => KeyedLess(cs, a, b);
            Best(less, end, Best(less, end, before) + Best(less, end, added)) == Best(less, end, before + added)
  {
    var less := (a, b) => KeyedLess(cs, a, b);
    KeyedOrder(cs);
    BestMerge(less, end, before, added);
    BestTwice(less, end, before);
    BestPrefix(less, end, before, Best(less, end, before), Best(less, end, added));
  }

  datatype Error = Corrupt

  const MAX_RECORD_ID_BYTES := 4096

  predicate BadId(id: Option<Ranking.Id>) { id.None? || id.value == [] || |id.value| > MAX_RECORD_ID_BYTES }

  /** One page of a metadata sort: the slice of the global order, for any split into segments; an error exactly if a hit
      up to the page's end, skipped ones included, has no proper ID. */
  method SortedCatalog(segments: seq<SortSegment>, sorts: seq<SortRequest>, offset: nat, limit: nat, numDocs: nat)
    returns (r: Result<(seq<KeyedHit>, nat), Error>)
    requires limit > 0 && |AllHits(segments)| <= numDocs
    requires forall k :: 0 <= k < |segments| ==> WellFormed(segments[k], |sorts|)
    ensures var cs := Image(ComparatorOf, sorts);
            var global := Sort((a, b) => KeyedLess(cs, a, b), AllHits(segments));
            var page := Take(offset + limit, global);
            var bad := exists i :: 0 <= i < |page| && (page[i].id.None? || page[i].id.value == [] || |page[i].id.value| > 4096);
            r == if bad then Err(Corrupt) else Ok((page[Min(offset, |page|)..], |AllHits(segments)|))
  {
    var cs := Image(ComparatorOf, sorts);
    var end := Min(offset + limit, Max(numDocs, 1));
    ghost var less := (a, b) => KeyedLess(cs, a, b);
    hide KeyedLess;
    hide Sort;
    hide SegmentHits;
    NoHits(less, end);
    var topDocs: seq<KeyedHit> := [];
    var total := 0;
    for k := 0 to |segments|
      invariant topDocs == Best(less, end, AllHits(segments[..k]))
      invariant total == |AllHits(segments[..k])|
    {
      var top := CollectSegment(segments[k], k, cs, end);
      total := total + |segments[k].matches|;
      assert |SegmentHits(segments[k], k)| == |segments[k].matches| by { SegmentSize(segments[k], k); }
      assert segments[..k + 1][..k] == segments[..k];
      MergeStep(cs, end, AllHits(segments[..k]), SegmentHits(segments[k], k));
      topDocs := Best((a, b) => KeyedLess(cs, a, b), end, topDocs + top);
    }
    assert segments[..|segments|] == segments;
    assert Take(end, Sort(less, AllHits(segments))) == Take(offset + limit, Sort(less, AllHits(segments)));
    for i := 0 to |topDocs|
      invariant forall k :: 0 <= k < i ==> !BadId(topDocs[k].id)
    {
      if BadId(topDocs[i].id) { return Err(Corrupt); }
    }
    r := Ok((topDocs[Min(offset, |topDocs|)..], total));
  }
}
