/** The paths that answer a page of ordinary search, and the traversal that enumerates every match exactly once. */
module RankedSearch {
  import opened Wrappers
  import opened TopN
  import opened Ranking

  datatype Relation = Exact | LowerBound

  datatype SearchPage = SearchPage(hits: seq<Hit>, total: nat, relation: Relation)

  datatype TraversalPage = TraversalPage(hits: seq<Hit>, total: nat, more: bool)

  /** Positions [start, end) of a list, as far as it reaches. */
  function Slice<T>(s: seq<T>, start: nat, end: nat): (r: seq<T>)
    ensures start <= end ==> |r| == Max(0, Min(end, |s|) - start) && forall i :: 0 <= i < |r| ==> r[i] == s[start + i]
  {
    Take(end, s)[Min(start, |Take(end, s)|)..]
  }

  // ---------------------------------------------------------------- the score-only collector

  function SegmentFound(s: Segment, segment: nat): seq<Found> {
    Image((m: Match) => Found(m.score, segment, m.doc, m.ord), s.matches)
  }

  function AllFound(segments: seq<Segment>): seq<Found> {
    if segments == [] then []
    else AllFound(segments[..|segments| - 1]) + SegmentFound(segments[|segments| - 1], |segments| - 1)
  }

  function Identify(segments: seq<Segment>, f: Found): Hit {
    ToHit(if f.segment < |segments| then segments[f.segment].dictionary else [], f.segment, Match(f.doc, f.ord, f.score))
  }

  /** A top-n collector by score alone: best scores first, ties in any order. */
  ghost predicate IsTopByScore(n: nat, all: seq<Found>, top: seq<Found>, dropped: seq<Found>) {
    && |top| == Min(n, |all|)
    && multiset(top + dropped) == multiset(all)
    && (forall i, j :: 0 <= i < j < |top| ==> top[i].score >= top[j].score)
    && (forall i, j :: 0 <= i < |top| && 0 <= j < |dropped| ==> top[i].score >= dropped[j].score)
  }

  lemma {:induction false} IdentifyAll(segments: seq<Segment>, k: nat)
    requires k <= |segments|
    ensures Image((f: Found) => Identify(segments, f), AllFound(segments[..k])) == AllHits(segments[..k])
  {
    if k > 0 {
      IdentifyAll(segments, k - 1);
      var g := (f: Found) => Identify(segments, f);
      assert segments[..k][..k - 1] == segments[..k - 1];
      ImageConcat(g, AllFound(segments[..k - 1]), SegmentFound(segments[k - 1], k - 1));
      var matches := segments[k - 1].matches;
      assert forall i :: 0 <= i < |matches| ==> matches[i] == Match(matches[i].doc, matches[i].ord, matches[i].score);
      assert Image(g, SegmentFound(segments[k - 1], k - 1)) == SegmentHits(segments[k - 1], k - 1);
    }
  }

  lemma {:induction false} AllHitsCount(segments: seq<Segment>)
    ensures |AllHits(segments)| == |AllFound(segments)| == MatchCount(segments)
  {
    if segments != [] {
      AllHitsCount(segments[..|segments| - 1]);
    }
  }

  lemma SplitAt<A>(s: seq<A>, j: nat)
    requires j < |s|
    ensures s == s[..j] + [s[j]] + s[j + 1..]
    ensures multiset(s) == multiset(s[..j] + s[j + 1..]) + multiset{s[j]}
  {
    assert s == s[..j] + [s[j]] + s[j + 1..];
  }

  lemma Cancel<A>(p: multiset<A>, q: multiset<A>, x: A)
    requires p + multiset{x} == q + multiset{x}
    ensures p == q
  {
    assert p == (p + multiset{x}) - multiset{x};
    assert q == (q + multiset{x}) - multiset{x};
  }

  lemma ImageWithout<A, B>(f: A -> B, s: seq<A>, j: nat)
    requires j < |s|
    ensures multiset(Image(f, s)) == multiset(Image(f, s[..j] + s[j + 1..])) + multiset{f(s[j])}
  {
    SplitAt(Image(f, s), j);
    assert Image(f, s)[..j] + Image(f, s)[j + 1..] == Image(f, s[..j] + s[j + 1..]);
  }

  lemma {:induction false} ImageElements<A, B>(f: A -> B, a: seq<A>, b: seq<A>)
    requires multiset(a) == multiset(b)
    ensures multiset(Image(f, a)) == multiset(Image(f, b))
    decreases |a|
  {
    hide Image;
    if a == [] {
      assert |b| == |multiset(b)| == 0;
    } else {
      assert a[0] in multiset(b);
      var j :| 0 <= j < |b| && b[j] == a[0];
      var tail, rest := a[..0] + a[1..], b[..j] + b[j + 1..];
      SplitAt(a, 0);
      SplitAt(b, j);
      Cancel(multiset(tail), multiset(rest), a[0]);
      ImageElements(f, tail, rest);
      ImageWithout(f, a, 0);
      ImageWithout(f, b, j);
    }
  }

  /** When the score drops at position w, the w best are the first w of the score-only collector. */
  lemma ScoreDropDecides(w: nat, all: seq<Hit>, top: seq<Hit>, dropped: seq<Hit>)
    requires 0 < w <= |top| && multiset(top + dropped) == multiset(all)
    requires forall i, j :: 0 <= i < j < |top| ==> top[i].score >= top[j].score
    requires forall i, j :: 0 <= i < |top| && 0 <= j < |dropped| ==> top[i].score >= dropped[j].score
    requires w < |top| && top[w - 1].score > top[w].score
    ensures Best(HitLess, w, all) == Best(HitLess, w, top)
  {
    HitOrder();
    hide HitLess;
    hide Sort;
    var kept := top[..w];
    var rest := top[w..] + dropped;
    assert top + dropped == kept + rest;
    assert top == kept + top[w..];
    forall i, j | 0 <= i < |kept| && 0 <= j < |rest| ensures rest[j].score < kept[i].score {
      assert top[i].score >= top[w - 1].score;
      if j < |top| - w {
        assert rest[j] == top[w + j];
      } else {
        assert rest[j] == dropped[j - (|top| - w)];
      }
    }
    LowerScoresDropped(w, all, kept, rest);
    LowerScoresDropped(w, top, kept, top[w..]);
  }

  lemma LowerScoresDropped(w: nat, all: seq<Hit>, kept: seq<Hit>, rest: seq<Hit>)
    requires |kept| == w && multiset(kept + rest) == multiset(all)
    requires forall i, j :: 0 <= i < |kept| && 0 <= j < |rest| ==> rest[j].score < kept[i].score
    ensures Sort(HitLess, kept) == Best(HitLess, w, all)
  {
    HitOrder();
    hide Sort;
    forall k, d | k in multiset(kept) && d in multiset(rest) ensures !HitLess(d, k) {
      var i :| 0 <= i < |kept| && kept[i] == k;
      var j :| 0 <= j < |rest| && rest[j] == d;
    }
    assert multiset(all) - multiset(kept) == multiset(rest);
    assert |all| == |multiset(all)| == |kept + rest|;
    ContractIsBest(HitLess, w, all, kept);
  }

  // ---------------------------------------------------------------- ordinary search

  method StablePage(segments: seq<Segment>, offset: nat, limit: nat)
    returns (r: Result<(seq<Hit>, nat, nat), Error>)
    requires Snapshot(segments) && limit > 0
    ensures AnyMissing(segments) <==> r.Err?
    ensures r.Ok? ==>
              && r.value.0 == Slice(Global(segments), offset, offset + limit)
              && r.value.1 == Min(offset + limit + 1, |Global(segments)|)
              && r.value.2 == MatchCount(segments)
  {
    var collected := CollectAll(segments, offset, offset + limit + 1, None);
    if collected.Err? {
      return Err(collected.error);
    }
    var merged := collected.value;
    return Ok((Take(limit, merged.page), merged.retained, merged.matchCount));
  }

  /** When the plain path meets a match without an ID: among the documents it resolves, or, collecting again for a tie at
      the page's end, among all matches. */
  predicate PlainFails(segments: seq<Segment>, windowEnd: nat, top: seq<Found>) {
    if 0 < windowEnd < |top| && top[windowEnd - 1].score == top[windowEnd].score then AnyMissing(segments)
    else exists i :: 0 <= i < |top| && top[i].ord.None?
  }

  /** Ranks the score-only collector's documents by score and ID, or collects again when a tie crosses the page end. */
  method PlainPage(segments: seq<Segment>, offset: nat, limit: nat, top: seq<Found>, ghost dropped: seq<Found>)
    returns (r: Result<(seq<Hit>, Option<nat>), Error>)
    requires Snapshot(segments) && limit > 0
    requires IsTopByScore(offset + limit + 1, AllFound(segments), top, dropped)
    ensures r.Err? <==> PlainFails(segments, offset + limit, top)
    ensures r.Err? ==> AnyMissing(segments)
    ensures r.Ok? ==> r.value.0 == Slice(Global(segments), offset, offset + limit)
    ensures r.Ok? && r.value.1.Some? ==> r.value.1.value == MatchCount(segments)
  {
    hide IsTopByScore, AnyMissing, Snapshot, AllFound, AllHits, HitLess, Sort, Identify;
    var windowEnd := offset + limit;
    if |top| > windowEnd && top[windowEnd - 1].score == top[windowEnd].score {
      var collected := CollectAll(segments, offset, windowEnd, None);
      if collected.Err? {
        return Err(collected.error);
      }
      return Ok((collected.value.page, Some(collected.value.matchCount)));
    }
    if exists i :: 0 <= i < |top| && top[i].ord.None? {
      ghost var i :| 0 <= i < |top| && top[i].ord.None?;
      TopMissing(segments, windowEnd + 1, top, dropped, i);
      return Err(MissingOrdinal);
    }
    var hits := Image((f: Found) => Identify(segments, f), top);
    r := Ok((Slice(Sort(HitLess, hits), offset, windowEnd), None));
    RankedTopIsBest(segments, windowEnd, top, dropped);
  }

  lemma {:induction false} FoundMissing(segments: seq<Segment>, f: Found)
    requires f in multiset(AllFound(segments)) && f.ord.None?
    ensures AnyMissing(segments)
  {
    var front, last := segments[..|segments| - 1], segments[|segments| - 1];
    if f in multiset(AllFound(front)) {
      FoundMissing(front, f);
      var k :| 0 <= k < |front| && MissingId(front[k]);
      assert segments[k] == front[k];
    } else {
      assert f in SegmentFound(last, |segments| - 1);
      assert MissingId(last);
    }
  }

  lemma TopMissing(segments: seq<Segment>, n: nat, top: seq<Found>, dropped: seq<Found>, i: nat)
    requires IsTopByScore(n, AllFound(segments), top, dropped) && i < |top| && top[i].ord.None?
    ensures AnyMissing(segments)
  {
    assert top[i] in multiset(top + dropped);
    FoundMissing(segments, top[i]);
  }

  lemma RankedTopIsBest(segments: seq<Segment>, w: nat, top: seq<Found>, dropped: seq<Found>)
    requires 0 < w && IsTopByScore(w + 1, AllFound(segments), top, dropped)
    requires |top| > w ==> top[w - 1].score != top[w].score
    ensures Take(w, Sort(HitLess, Image((f: Found) => Identify(segments, f), top))) == Best(HitLess, w, AllHits(segments))
  {
    var g := (f: Found) => Identify(segments, f);
    assert segments[..|segments|] == segments;
    IdentifyAll(segments, |segments|);
    ImageElements(g, top + dropped, AllFound(segments));
    var hits, rest := Image(g, top), Image(g, dropped);
    ImageConcat(g, top, dropped);
    assert multiset(hits + rest) == multiset(AllHits(segments));
    if |top| > w {
      ScoreDropDecides(w, AllHits(segments), hits, rest);
    } else {
      assert |AllFound(segments)| == |multiset(AllFound(segments))| == |top + dropped|;
      assert dropped == [];
      HitOrder();
      assert hits + rest == hits;
      SortDeterminedByElements(HitLess, hits, AllHits(segments));
    }
  }

  /** One page of ordinary search, by whichever path applies. */
  method Search(segments: seq<Segment>, offset: nat, limit: nat, stableScores: bool, exactTotal: bool,
                top: seq<Found>, ghost dropped: seq<Found>)
    returns (r: Result<SearchPage, Error>)
    requires Snapshot(segments) && limit > 0
    requires IsTopByScore(offset + limit + 1, AllFound(segments), top, dropped)
    ensures r.Err? <==> if stableScores then AnyMissing(segments) else PlainFails(segments, offset + limit, top)
    ensures r.Err? ==> AnyMissing(segments)
    ensures r.Ok? ==> r.value.hits == Slice(Global(segments), offset, offset + limit)
    ensures r.Ok? ==> (r.value.relation == Exact <==> exactTotal || |Global(segments)| <= offset + limit)
    ensures r.Ok? && r.value.relation == Exact ==> r.value.total == |Global(segments)|
    ensures r.Ok? && r.value.relation == LowerBound ==> r.value.total == offset + limit < |Global(segments)|
  {
    AllHitsCount(segments);
    var windowEnd := offset + limit;
    var hits, bounded, relation;
    var collected: Option<nat> := None;
    if stableScores {
      var page := StablePage(segments, offset, limit);
      if page.Err? {
        return Err(page.error);
      }
      hits, collected := page.value.0, Some(page.value.2);
      var retained := page.value.1;
      bounded, relation := if retained < windowEnd + 1 then (retained) else windowEnd,
                           if retained < windowEnd + 1 then Exact else LowerBound;
    } else {
      var page := PlainPage(segments, offset, limit, top, dropped);
      if page.Err? {
        return Err(page.error);
      }
      hits, collected := page.value.0, page.value.1;
      bounded, relation := if |top| <= windowEnd then |top| else windowEnd,
                           if |top| <= windowEnd then Exact else LowerBound;
    }
    if !exactTotal {
      return Ok(SearchPage(hits, bounded, relation));
    }
    match collected {
      case Some(total) => r := Ok(SearchPage(hits, total, Exact));
      case None =>
        r := Ok(SearchPage(hits, if relation == Exact then bounded else MatchCount(segments), Exact));
    }
  }

  /** Every hit of a page, on whichever path, is a match of the snapshot with that score, that document of that segment and
      that ID, and no match stands on the page twice. */
  lemma PageListsMatches(segments: seq<Segment>, start: nat, end: nat) returns (places: seq<Place>)
    requires start <= end
    ensures Lists(segments, places, Slice(Global(segments), start, end))
  {
    var all := GlobalListsMatches(segments);
    hide IsPlace, StandsFor, Global;
    var page := Slice(Global(segments), start, end);
    places := seq(|page|, n requires 0 <= n < |page| => all[start + n]);
  }

  // ---------------------------------------------------------------- traversal

  /** The first `limit` matches beyond the boundary, the exact total, and whether more remain. */
  function PageAt(segments: seq<Segment>, limit: nat, after: Option<Boundary>): TraversalPage {
    var rest := Sort(HitLess, Filter(after, AllHits(segments)));
    TraversalPage(Take(limit, rest), |AllHits(segments)|, |rest| > limit)
  }

  method Traverse(segments: seq<Segment>, limit: nat, after: Option<Boundary>) returns (r: Result<TraversalPage, Error>)
    requires Snapshot(segments)
    ensures AnyMissing(segments) <==> r.Err?
    ensures r.Ok? ==> r.value == PageAt(segments, limit, after)
  {
    AllHitsCount(segments);
    hide Sort;
    hide Filter;
    hide AllHits;
    hide HitLess;
    hide AnyMissing;
    var collected := CollectAll(segments, 0, limit + 1, after);
    if collected.Err? {
      return Err(collected.error);
    }
    var page := collected.value.page;
    return Ok(TraversalPage(Take(limit, page), collected.value.matchCount, |page| > limit));
  }

  ghost predicate UniqueIds(hits: seq<Hit>) {
    forall i, j :: 0 <= i < j < |hits| ==> hits[i].id != hits[j].id
  }

  lemma ElementsAppend<A>(front: seq<A>, x: A)
    ensures multiset(front + [x]) == multiset(front) + multiset{x}
  {
  }

  lemma {:induction false} FilterElements(after: Option<Boundary>, s: seq<Hit>, x: Hit)
    ensures multiset(Filter(after, s))[x] == if Follows(after, x) then multiset(s)[x] else 0
  {
    if s != [] {
      var front, last := s[..|s| - 1], s[|s| - 1];
      FilterElements(after, front, x);
      var kept := Filter(after, front);
      var keep := Follows(after, last);
      assert Filter(after, s) == if keep then kept + [last] else kept;
      assert x == last ==> keep == Follows(after, x);
      hide Filter;
      hide Follows;
      assert s == front + [last];
      ElementsAppend(front, last);
      ElementsAppend(kept, last);
    }
  }

  lemma FilterSameElements(after: Option<Boundary>, a: seq<Hit>, b: seq<Hit>)
    requires multiset(a) == multiset(b)
    ensures multiset(Filter(after, a)) == multiset(Filter(after, b))
  {
    forall x: Hit ensures multiset(Filter(after, a))[x] == multiset(Filter(after, b))[x] {
      FilterElements(after, a, x);
      FilterElements(after, b, x);
    }
  }

  lemma {:induction false} UniqueElements(a: seq<Hit>, x: Hit, y: Hit)
    requires UniqueIds(a)
    ensures multiset(a)[x] <= 1
    ensures x in multiset(a) && y in multiset(a) && x.id == y.id ==> x == y
  {
    if a != [] {
      var front := a[..|a| - 1];
      assert a == front + [a[|a| - 1]];
      UniqueElements(front, x, y);
      assert forall h: Hit :: h in multiset(front) ==> h.id != a[|a| - 1].id by {
        forall h: Hit | h in multiset(front) ensures h.id != a[|a| - 1].id {
          var i :| 0 <= i < |front| && front[i] == h;
          assert a[i] == h;
        }
      }
    }
  }

  lemma UniqueAfterSort(a: seq<Hit>)
    requires UniqueIds(a)
    ensures UniqueIds(Sort(HitLess, a))
  {
    HitOrder();
    SortOrdered(HitLess, a);
    var s := Sort(HitLess, a);
    forall i, j | 0 <= i < j < |s| ensures s[i].id != s[j].id {
      UniqueElements(a, s[i], s[j]);
      assert s == s[..j] + s[j..];
      assert s[..j][i] == s[i] && s[j..][0] == s[j];
      assert s[i] in multiset(s) && s[j] in multiset(s);
    }
  }

  lemma {:induction false} FilterNone(after: Option<Boundary>, s: seq<Hit>)
    requires forall i :: 0 <= i < |s| ==> !Follows(after, s[i])
    ensures Filter(after, s) == []
  {
    if s != [] {
      FilterNone(after, s[..|s| - 1]);
    }
  }

  lemma {:induction false} FilterEvery(after: Option<Boundary>, s: seq<Hit>)
    requires forall i :: 0 <= i < |s| ==> Follows(after, s[i])
    ensures Filter(after, s) == s
  {
    if s != [] {
      FilterEvery(after, s[..|s| - 1]);
    }
  }

  /** The boundary a caller continues with after k hits. */
  function BoundaryAfter(hits: seq<Hit>, k: nat): Option<Boundary>
    requires k <= |hits|
  {
    if k == 0 then None else Some(Boundary(hits[k - 1].score, hits[k - 1].id))
  }

  lemma NotBefore(global: seq<Hit>, k: nat, i: nat)
    requires Ordered(HitLess, global) && UniqueIds(global) && 0 < k <= |global| && i < |global|
    ensures Follows(BoundaryAfter(global, k), global[i]) <==> k <= i
  {
    IdTotal(global[i].id, global[k - 1].id);
    if i < k - 1 {
      assert !HitLess(global[k - 1], global[i]);
    } else if k <= i {
      assert !HitLess(global[i], global[k - 1]);
    }
  }

  lemma FilterOrdered(global: seq<Hit>, k: nat)
    requires Ordered(HitLess, global) && UniqueIds(global) && k <= |global|
    ensures Filter(BoundaryAfter(global, k), global) == global[k..]
  {
    hide Ordered;
    hide UniqueIds;
    hide Follows;
    var after := BoundaryAfter(global, k);
    if k > 0 {
      hide BoundaryAfter;
      var head, tail := global[..k], global[k..];
      assert global == head + tail;
      FilterConcat(after, head, tail);
      forall i | 0 <= i < |head| ensures !Follows(after, head[i]) {
        NotBefore(global, k, i);
      }
      FilterNone(after, head);
      forall i | 0 <= i < |tail| ensures Follows(after, tail[i]) {
        NotBefore(global, k, k + i);
      }
      FilterEvery(after, tail);
    }
  }

  /** Continuing after the k-th hit leaves exactly the rest of the global list. */
  lemma ContinuesAt(segments: seq<Segment>, k: nat)
    requires UniqueIds(AllHits(segments)) && k <= |Global(segments)|
    ensures Sort(HitLess, Filter(BoundaryAfter(Global(segments), k), AllHits(segments))) == Global(segments)[k..]
  {
    HitOrder();
    hide HitLess;
    hide Sort;
    hide Filter;
    hide AllHits;
    var global := Global(segments);
    var after := BoundaryAfter(global, k);
    SortOrdered(HitLess, AllHits(segments));
    UniqueAfterSort(AllHits(segments));
    FilterSameElements(after, AllHits(segments), global);
    SortDeterminedByElements(HitLess, Filter(after, AllHits(segments)), Filter(after, global));
    FilterOrdered(global, k);
    SortSorted(HitLess, global[k..]);
  }

  lemma NextPage(segments: seq<Segment>, k: nat, limit: nat)
    requires UniqueIds(AllHits(segments)) && k <= |Global(segments)|
    ensures var page := PageAt(segments, limit, BoundaryAfter(Global(segments), k));
            && page.hits == Take(limit, Global(segments)[k..])
            && page.total == |Global(segments)|
            && (page.more <==> k + limit < |Global(segments)|)
  {
    ContinuesAt(segments, k);
  }

  function Delivered(pages: seq<TraversalPage>): seq<Hit> {
    if pages == [] then [] else Delivered(pages[..|pages| - 1]) + pages[|pages| - 1].hits
  }

  /** Every page reports the exact total, and announces more exactly while hits remain. */
  ghost predicate PagesAccount(pages: seq<TraversalPage>, total: nat) {
    pages == [] ||
    (var last := pages[|pages| - 1];
     && PagesAccount(pages[..|pages| - 1], total)
     && last.total == total
     && (last.more <==> |Delivered(pages)| < total))
  }

  /** `pages` delivered the first k hits and continue after them. */
  ghost predicate Progress(global: seq<Hit>, pages: seq<TraversalPage>, k: nat, after: Option<Boundary>) {
    && k <= |global| && Delivered(pages) == global[..k]
    && after == BoundaryAfter(global, k)
    && PagesAccount(pages, |global|)
  }

  lemma AppendPage(pages: seq<TraversalPage>, page: TraversalPage, total: nat)
    requires PagesAccount(pages, total) && page.total == total
    requires page.more <==> |Delivered(pages)| + |page.hits| < total
    ensures Delivered(pages + [page]) == Delivered(pages) + page.hits
    ensures PagesAccount(pages + [page], total)
  {
    assert (pages + [page])[..|pages|] == pages;
  }

  lemma NextProgress(segments: seq<Segment>, pages: seq<TraversalPage>, k: nat, after: Option<Boundary>, limit: nat)
    requires UniqueIds(AllHits(segments)) && limit > 0
    requires Progress(Global(segments), pages, k, after)
    ensures var page := PageAt(segments, limit, after);
            var next := k + |page.hits|;
            && (page.more ==> page.hits != [])
            && next <= |Global(segments)|
            && PagesAccount(pages + [page], |Global(segments)|)
            && Delivered(pages + [page]) == Global(segments)[..next]
            && (!page.more ==> next == |Global(segments)|)
            && (page.more ==>
                  Progress(Global(segments), pages + [page], next,
                           Some(Boundary(page.hits[|page.hits| - 1].score, page.hits[|page.hits| - 1].id))))
  {
    var global := Global(segments);
    NextPage(segments, k, limit);
    var page := PageAt(segments, limit, after);
    hide PageAt;
    hide Global;
    hide Delivered;
    hide PagesAccount;
    hide UniqueIds;
    AppendPage(pages, page, |global|);
    assert global[..k] + page.hits == global[..k + |page.hits|];
  }

  /**
   Follows the continuation from page to page with any positive page sizes until no page announces more. The hits
   of the pages, end to end, are the global list.
   */
  method FollowPages(segments: seq<Segment>, pageSize: nat -> nat) returns (r: Result<seq<TraversalPage>, Error>)
    requires Snapshot(segments) && UniqueIds(AllHits(segments))
    requires forall n :: pageSize(n) > 0
    ensures AnyMissing(segments) <==> r.Err?
    ensures r.Ok? ==> Delivered(r.value) == Global(segments) && UniqueIds(Delivered(r.value))
    ensures r.Ok? ==> PagesAccount(r.value, |Global(segments)|)
    ensures r.Ok? ==> r.value != [] && !r.value[|r.value| - 1].more
  {
    UniqueAfterSort(AllHits(segments));
    var pages: seq<TraversalPage> := [];
    var after: Option<Boundary> := None;
    ghost var k: nat := 0;
    assert Progress(Global(segments), pages, k, after);
    hide UniqueIds;
    hide AllHits;
    hide AnyMissing;
    hide Snapshot;
    hide Progress;
    hide PageAt;
    hide Delivered;
    hide PagesAccount;
    while true
      invariant Progress(Global(segments), pages, k, after)
      invariant k <= |Global(segments)|
      invariant pages != [] ==> !AnyMissing(segments)
      decreases |Global(segments)| - k, if pages == [] then 1 else 0
    {
      var page := Traverse(segments, pageSize(|pages|), after);
      if page.Err? {
        return Err(page.error);
      }
      NextProgress(segments, pages, k, after, pageSize(|pages|));
      var hits := page.value.hits;
      pages := pages + [page.value];
      k := k + |hits|;
      if !page.value.more {
        assert Global(segments)[..k] == Global(segments);
        return Ok(pages);
      }
      after := Some(Boundary(hits[|hits| - 1].score, hits[|hits| - 1].id));
    }
  }
}
