/** What the pipeline guarantees: provenance of spans, the Stream-Safe bound, and the text it leaves unchanged. */
module NfkcTheorems {
  import opened Wrappers
  import opened NfkcSpec
  import opened NfkcStream

  // ---------------------------------------------------------------- provenance

  /** Which source characters an emitted character was made from, as a tree of merges. */
  datatype Origin = Source(index: nat) | Joined(left: Origin, right: Origin)

  function Leaves(o: Origin): (r: seq<nat>)
    ensures r != []
  {
    match o
    case Source(i) => [i]
    case Joined(l, r) => Leaves(l) + Leaves(r)
  }

  function Join(a: Origin, b: Origin): Origin { Joined(a, b) }

  predicate Inside(o: Origin, source: seq<Mapped>) {
    match o
    case Source(i) => i < |source|
    case Joined(l, r) => Inside(l, source) && Inside(r, source)
  }

  /** The span obtained by merging the source spans along the tree. */
  function SpanOf(source: seq<Mapped>, o: Origin): Span {
    match o
    case Source(i) => if i < |source| then source[i].tag else Span(0, 0)
    case Joined(l, r) => MergeSpans(SpanOf(source, l), SpanOf(source, r))
  }

  /** The smallest span that covers the spans of all the given source characters. */
  ghost predicate IsHull(span: Span, source: seq<Mapped>, indices: seq<nat>) {
    && (forall k :: 0 <= k < |indices| ==> indices[k] < |source|)
    && (forall k :: 0 <= k < |indices| ==>
          span.start <= source[indices[k]].tag.start && source[indices[k]].tag.end <= span.end)
    && (exists k :: 0 <= k < |indices| && source[indices[k]].tag.start == span.start)
    && (exists k :: 0 <= k < |indices| && source[indices[k]].tag.end == span.end)
  }

  lemma {:induction false} SpanIsHull(source: seq<Mapped>, o: Origin)
    requires Inside(o, source)
    ensures IsHull(SpanOf(source, o), source, Leaves(o))
  {
    match o {
      case Source(i) =>
        assert Leaves(o)[0] == i;
      case Joined(l, r) =>
        SpanIsHull(source, l);
        SpanIsHull(source, r);
        HullJoin(source, SpanOf(source, l), Leaves(l), SpanOf(source, r), Leaves(r));
    }
  }

  lemma HullJoin(source: seq<Mapped>, a: Span, left: seq<nat>, b: Span, right: seq<nat>)
    requires IsHull(a, source, left) && IsHull(b, source, right)
    ensures IsHull(MergeSpans(a, b), source, left + right)
  {
    var all := left + right;
    var i :| 0 <= i < |left| && source[left[i]].tag.start == a.start;
    var j :| 0 <= j < |right| && source[right[j]].tag.start == b.start;
    var m :| 0 <= m < |left| && source[left[m]].tag.end == a.end;
    var n :| 0 <= n < |right| && source[right[n]].tag.end == b.end;
    assert all[i] == left[i] && all[|left| + j] == right[j];
    assert all[m] == left[m] && all[|left| + n] == right[n];
  }

  /** The source text with each character tagged by its own position. */
  function Numbered(source: seq<Mapped>): (r: seq<Tagged<Origin>>)
    ensures |r| == |source|
    ensures forall i :: 0 <= i < |source| ==> r[i] == Tagged(source[i].character, Source(i))
  {
    seq(|source|, i requires 0 <= i < |source| => Tagged(source[i].character, Source(i)))
  }

  function Map<T, U>(h: T -> U, xs: seq<Item<T>>): (r: seq<Item<U>>)
    ensures |r| == |xs|
    ensures forall i :: 0 <= i < |xs| ==> r[i] == Item(xs[i].ccc, xs[i].character, h(xs[i].tag))
  {
    seq(|xs|, i requires 0 <= i < |xs| => Item(xs[i].ccc, xs[i].character, h(xs[i].tag)))
  }

  function MapTags<T, U>(h: T -> U, xs: seq<Tagged<T>>): (r: seq<Tagged<U>>)
    ensures |r| == |xs|
    ensures forall i :: 0 <= i < |xs| ==> r[i] == Tagged(xs[i].character, h(xs[i].tag))
  {
    seq(|xs|, i requires 0 <= i < |xs| => Tagged(xs[i].character, h(xs[i].tag)))
  }

  lemma MapConcat<T, U>(h: T -> U, a: seq<Item<T>>, b: seq<Item<T>>)
    ensures Map(h, a + b) == Map(h, a) + Map(h, b)
  {
  }

  lemma PieceMap<T, U>(t: Tables, h: T -> U, count: nat, d: seq<char>, tag: T)
    ensures Map(h, Piece(t, count, d, tag)) == Piece(t, count, d, h(tag))
  {
  }

  lemma {:induction false} DecomposedMap<T, U>(t: Tables, h: T -> U, source: seq<Tagged<T>>, count: nat)
    ensures Decomposed(t, MapTags(h, source), count) == Map(h, Decomposed(t, source, count))
  {
    hide Piece;
    hide CountAfter;
    if source != [] {
      var d := t.decompose(source[0].character);
      var rest := Decomposed(t, source[1..], CountAfter(t, count, d));
      DecomposedMap(t, h, source[1..], CountAfter(t, count, d));
      assert MapTags(h, source)[1..] == MapTags(h, source[1..]);
      PieceMap(t, h, count, d, source[0].tag);
      MapConcat(h, Piece(t, count, d, source[0].tag), rest);
    }
  }

  lemma {:induction false} InsertMap<T, U>(h: T -> U, x: Item<T>, xs: seq<Item<T>>)
    requires SortedByClass(xs)
    ensures SortedByClass(Map(h, xs))
    ensures Map(h, Insert(x, xs)) == Insert(Item(x.ccc, x.character, h(x.tag)), Map(h, xs))
  {
    if xs != [] && xs[0].ccc < x.ccc {
      InsertMap(h, x, xs[1..]);
      assert Map(h, xs)[1..] == Map(h, xs[1..]);
    }
  }

  lemma {:induction false} StableSortMap<T, U>(h: T -> U, xs: seq<Item<T>>)
    ensures Map(h, StableSort(xs)) == StableSort(Map(h, xs))
  {
    if xs != [] {
      StableSortMap(h, xs[1..]);
      InsertMap(h, xs[0], StableSort(xs[1..]));
      assert Map(h, xs)[1..] == Map(h, xs[1..]);
    }
  }

  lemma {:induction false} RunStartMap<T, U>(h: T -> U, xs: seq<Item<T>>)
    ensures RunStart(Map(h, xs)) == RunStart(xs)
  {
    RunStartOf(Map(h, xs), RunStart(xs));
  }

  lemma {:induction false} ReorderMap<T, U>(h: T -> U, xs: seq<Item<T>>)
    ensures Map(h, Reorder(xs)) == Reorder(Map(h, xs))
    decreases |xs|, 1
  {
    hide StableSort;
    hide RunStart;
    hide ReorderClosed;
    var k := RunStart(xs);
    var ys := Map(h, xs);
    RunStartMap(h, xs);
    ClosedMap(h, xs[..k]);
    StableSortMap(h, xs[k..]);
    MapConcat(h, ReorderClosed(xs[..k]), StableSort(xs[k..]));
    assert ys[k..] == Map(h, xs[k..]);
    assert ys[..k] == Map(h, xs[..k]);
  }

  lemma {:induction false} ClosedMap<T, U>(h: T -> U, xs: seq<Item<T>>)
    requires EndsWithStarter(xs)
    ensures EndsWithStarter(Map(h, xs))
    ensures Map(h, ReorderClosed(xs)) == ReorderClosed(Map(h, xs))
    decreases |xs|, 0
  {
    hide Reorder;
    if xs != [] {
      var front := xs[..|xs| - 1];
      ReorderMap(h, front);
      assert Map(h, xs)[..|xs| - 1] == Map(h, front);
      MapConcat(h, Reorder(front), [xs[|xs| - 1]]);
    }
  }

  lemma ClosedEmpty<T>(xs: seq<Item<T>>)
    requires xs == []
    ensures ReorderClosed(xs) == []
  {
  }

  lemma LastStarterMap<T, U>(h: T -> U, xs: seq<Item<T>>)
    ensures LastStarter(Map(h, xs)) == LastStarter(xs)
  {
    if xs != [] {
      LastStarterMap(h, xs[..|xs| - 1]);
      assert Map(h, xs)[..|xs| - 1] == Map(h, xs[..|xs| - 1]);
    }
  }

  lemma StepMap<T, U>(t: Tables, h: T -> U, mt: (T, T) -> T, mu: (U, U) -> U, out: seq<Item<T>>, x: Item<T>)
    requires forall a, b :: h(mt(a, b)) == mu(h(a), h(b))
    ensures Map(h, ComposeStep(t, mt, out, x))
         == ComposeStep(t, mu, Map(h, out), Item(x.ccc, x.character, h(x.tag)))
  {
    LastStarterMap(h, out);
    var l := LastStarter(out);
    if l >= 0 {
      assert Blocked(out, l, x.ccc) <==> Blocked(Map(h, out), l, x.ccc) by {
        forall b | l < b < |out| ensures out[b].ccc == Map(h, out)[b].ccc {}
      }
    }
  }

  lemma {:induction false} ComposeMap<T, U>(t: Tables, h: T -> U, mt: (T, T) -> T, mu: (U, U) -> U, xs: seq<Item<T>>)
    requires forall a, b :: h(mt(a, b)) == mu(h(a), h(b))
    ensures Map(h, Compose(t, mt, xs)) == Compose(t, mu, Map(h, xs))
  {
    if xs != [] {
      var front := xs[..|xs| - 1];
      ComposeMap(t, h, mt, mu, front);
      StepMap(t, h, mt, mu, Compose(t, mt, front), xs[|xs| - 1]);
      assert Map(h, xs)[..|xs| - 1] == Map(h, front);
    }
  }

  // ---------------------------------------------------------------- conservation

  /** How often each source position contributed to the items. */
  function Contributions(xs: seq<Item<Origin>>): multiset<nat> {
    if xs == [] then multiset{} else Contributions(xs[..|xs| - 1]) + multiset(Leaves(xs[|xs| - 1].tag))
  }

  lemma {:induction false} ContributionsConcat(a: seq<Item<Origin>>, b: seq<Item<Origin>>)
    ensures Contributions(a + b) == Contributions(a) + Contributions(b)
    decreases |b|
  {
    if b == [] {
      assert a + b == a;
    } else {
      assert (a + b)[..|a + b| - 1] == a + b[..|b| - 1];
      ContributionsConcat(a, b[..|b| - 1]);
    }
  }

  lemma ContributionsOne(x: Item<Origin>)
    ensures Contributions([x]) == multiset(Leaves(x.tag))
  {
    assert [x][..0] == [];
  }

  lemma {:induction false} InsertConserves(x: Item<Origin>, xs: seq<Item<Origin>>)
    requires SortedByClass(xs)
    ensures Contributions(Insert(x, xs)) == Contributions(xs) + multiset(Leaves(x.tag))
  {
    hide Contributions;
    ContributionsOne(x);
    if xs == [] || x.ccc <= xs[0].ccc {
      ContributionsConcat([x], xs);
    } else {
      InsertConserves(x, xs[1..]);
      ContributionsConcat([xs[0]], Insert(x, xs[1..]));
      ContributionsConcat([xs[0]], xs[1..]);
      assert xs == [xs[0]] + xs[1..];
    }
  }

  lemma {:induction false} SortConserves(xs: seq<Item<Origin>>)
    ensures Contributions(StableSort(xs)) == Contributions(xs)
  {
    hide Contributions;
    hide Insert;
    if xs != [] {
      SortConserves(xs[1..]);
      InsertConserves(xs[0], StableSort(xs[1..]));
      ContributionsOne(xs[0]);
      ContributionsConcat([xs[0]], xs[1..]);
      assert xs == [xs[0]] + xs[1..];
    }
  }

  lemma {:induction false} ReorderConserves(xs: seq<Item<Origin>>)
    ensures Contributions(Reorder(xs)) == Contributions(xs)
    decreases |xs|
  {
    hide StableSort;
    hide Contributions;
    hide ReorderClosed;
    var k := RunStart(xs);
    SortConserves(xs[k..]);
    ContributionsConcat(ReorderClosed(xs[..k]), StableSort(xs[k..]));
    ContributionsConcat(xs[..k], xs[k..]);
    assert xs == xs[..k] + xs[k..];
    if k > 0 {
      ReorderConserves(xs[..k - 1]);
      ClosedUnfold(xs[..k]);
      assert xs[..k][..k - 1] == xs[..k - 1];
      ContributionsConcat(Reorder(xs[..k - 1]), [xs[k - 1]]);
      ContributionsConcat(xs[..k - 1], [xs[k - 1]]);
      assert xs[..k] == xs[..k - 1] + [xs[k - 1]];
    } else {
      ClosedEmpty(xs[..0]);
    }
  }

  lemma StepConserves(t: Tables, out: seq<Item<Origin>>, x: Item<Origin>)
    ensures Contributions(ComposeStep(t, Join, out, x)) == Contributions(out) + multiset(Leaves(x.tag))
  {
    hide Contributions;
    var l := LastStarter(out);
    var next := ComposeStep(t, Join, out, x);
    ContributionsOne(x);
    if |next| == |out| {
      var left, right := out[..l], out[l + 1..];
      assert out == left + [out[l]] + right && next == left + [next[l]] + right;
      ContributionsConcat(left + [out[l]], right);
      ContributionsConcat(left, [out[l]]);
      ContributionsConcat(left + [next[l]], right);
      ContributionsConcat(left, [next[l]]);
      ContributionsOne(out[l]);
      ContributionsOne(next[l]);
    } else {
      ContributionsConcat(out, [x]);
    }
  }

  /** No source character's contribution is lost or duplicated by reordering and composition. */
  lemma {:induction false} ComposeConserves(t: Tables, xs: seq<Item<Origin>>)
    ensures Contributions(Compose(t, Join, xs)) == Contributions(xs)
  {
    if xs != [] {
      ComposeConserves(t, xs[..|xs| - 1]);
      StepConserves(t, Compose(t, Join, xs[..|xs| - 1]), xs[|xs| - 1]);
    }
  }

  lemma BatchConserves(t: Tables, source: seq<Mapped>)
    ensures Contributions(Batch(t, Join, Numbered(source))) == Contributions(Decomposed(t, Numbered(source), 0))
  {
    ReorderConserves(Decomposed(t, Numbered(source), 0));
    ComposeConserves(t, Reorder(Decomposed(t, Numbered(source), 0)));
  }

  lemma PieceOrigin(t: Tables, count: nat, d: seq<char>, i: nat, n: nat)
    requires i < n
    ensures forall j :: j in Contributions(Piece(t, count, d, Source(i))) ==> j < n
  {
    AllSameOrigin(Piece(t, count, d, Source(i)), i);
  }

  lemma {:induction false} AllSameOrigin(xs: seq<Item<Origin>>, i: nat)
    requires forall k :: 0 <= k < |xs| ==> xs[k].tag == Source(i)
    ensures forall j :: j in Contributions(xs) ==> j == i
  {
    if xs != [] {
      AllSameOrigin(xs[..|xs| - 1], i);
    }
  }

  lemma {:induction false} DecomposedOrigin(t: Tables, tagged: seq<Tagged<Origin>>, count: nat, n: nat)
    requires forall k :: 0 <= k < |tagged| ==> tagged[k].tag.Source? && tagged[k].tag.index < n
    ensures forall j :: j in Contributions(Decomposed(t, tagged, count)) ==> j < n
  {
    hide Piece;
    if tagged != [] {
      var d := t.decompose(tagged[0].character);
      PieceOrigin(t, count, d, tagged[0].tag.index, n);
      DecomposedOrigin(t, tagged[1..], CountAfter(t, count, d), n);
      ContributionsConcat(Piece(t, count, d, tagged[0].tag), Decomposed(t, tagged[1..], CountAfter(t, count, d)));
    }
  }

  lemma {:induction false} ContributesAt(xs: seq<Item<Origin>>, k: nat)
    requires k < |xs|
    ensures multiset(Leaves(xs[k].tag)) <= Contributions(xs)
  {
    assert xs == xs[..k] + [xs[k]] + xs[k + 1..];
    ContributionsConcat(xs[..k] + [xs[k]], xs[k + 1..]);
    ContributionsConcat(xs[..k], [xs[k]]);
    ContributionsOne(xs[k]);
  }

  lemma {:induction false} InsideByLeaves(o: Origin, source: seq<Mapped>)
    requires forall k :: 0 <= k < |Leaves(o)| ==> Leaves(o)[k] < |source|
    ensures Inside(o, source)
  {
    match o {
      case Source(i) =>
        assert Leaves(o)[0] == i;
      case Joined(l, r) =>
        assert Leaves(o) == Leaves(l) + Leaves(r);
        forall k | 0 <= k < |Leaves(l)| ensures Leaves(l)[k] < |source| {
          assert Leaves(o)[k] == Leaves(l)[k];
        }
        forall k | 0 <= k < |Leaves(r)| ensures Leaves(r)[k] < |source| {
          assert Leaves(o)[|Leaves(l)| + k] == Leaves(r)[k];
        }
        InsideByLeaves(l, source);
        InsideByLeaves(r, source);
    }
  }

  /** Provenance: what was emitted, with the tree of source characters behind every emitted character. */
  function Origins(t: Tables, source: seq<Mapped>): seq<Item<Origin>> {
    Batch(t, Join, Numbered(source))
  }

  /** Every emitted span is the hull of the spans of exactly the source characters behind that character. */
  lemma SpansAreHulls(t: Tables, source: seq<Mapped>, k: nat)
    requires k < |Normalized(t, source)|
    ensures |Origins(t, source)| == |Normalized(t, source)|
    ensures Normalized(t, source)[k].character == Origins(t, source)[k].character
    ensures IsHull(Normalized(t, source)[k].tag, source, Leaves(Origins(t, source)[k].tag))
  {
    var h := (o: Origin) => SpanOf(source, o);
    var items := Decomposed(t, Numbered(source), 0);
    assert MapTags(h, Numbered(source)) == source;
    DecomposedMap(t, h, Numbered(source), 0);
    ReorderMap(h, items);
    ComposeMap(t, h, Join, MergeSpans, Reorder(items));
    var origins := Origins(t, source);
    assert Batch(t, MergeSpans, source) == Map(h, origins);
    BatchConserves(t, source);
    DecomposedOrigin(t, Numbered(source), 0, |source|);
    ContributesAt(origins, k);
    var o := origins[k].tag;
    forall m | 0 <= m < |Leaves(o)| ensures Leaves(o)[m] < |source| {
      assert Leaves(o)[m] in multiset(Leaves(o));
    }
    InsideByLeaves(o, source);
    SpanIsHull(source, o);
  }

  // ---------------------------------------------------------------- the Stream-Safe bound

  /** No decomposition by itself carries more than the allowed run of non-starters, and the joiner is a starter. */
  ghost predicate BoundedRuns(t: Tables) {
    && t.ccc(COMBINING_GRAPHEME_JOINER) == 0
    && forall c: char, j: nat :: j <= |t.decompose(c)| ==> Tail(0, Items(t, t.decompose(c)[..j], 0)) <= MAX_NONSTARTERS
  }

  lemma {:induction false} TailConcat<T>(count: nat, a: seq<Item<T>>, b: seq<Item<T>>)
    ensures Tail(count, a + b) == Tail(Tail(count, a), b)
    decreases |b|
  {
    if b == [] {
      assert a + b == a;
    } else {
      assert (a + b)[..|a + b| - 1] == a + b[..|b| - 1];
      TailConcat(count, a, b[..|b| - 1]);
    }
  }

  lemma {:induction false} TailTag<T, U>(t: Tables, count: nat, d: seq<char>, tag: T, other: U)
    ensures Tail(count, Items(t, d, tag)) == Tail(count, Items(t, d, other))
  {
    if d != [] {
      TailTag(t, count, d[..|d| - 1], tag, other);
      assert Items(t, d, tag)[..|d| - 1] == Items(t, d[..|d| - 1], tag);
      assert Items(t, d, other)[..|d| - 1] == Items(t, d[..|d| - 1], other);
    }
  }

  /** Either the prefix is all leading non-starters, or its count no longer depends on what came before. */
  lemma {:induction false} TailOfPrefix<T>(t: Tables, count: nat, d: seq<char>, j: nat, tag: T)
    requires j <= |d|
    ensures j <= Leading(t, d) ==> Tail(count, Items(t, d[..j], tag)) == count + j
    ensures j > Leading(t, d) ==> Tail(count, Items(t, d[..j], tag)) == Tail(0, Items(t, d[..j], tag))
    decreases j
  {
    if j > 0 {
      TailOfPrefix(t, count, d, j - 1, tag);
      assert Items(t, d[..j], tag)[..j - 1] == Items(t, d[..j - 1], tag);
    }
  }

  lemma {:induction false} TrailingIsTail<T>(t: Tables, d: seq<char>, tag: T)
    ensures Trailing(t, d) == Tail(0, Items(t, d, tag))
  {
    if d != [] {
      TrailingIsTail(t, d[..|d| - 1], tag);
      assert Items(t, d, tag)[..|d| - 1] == Items(t, d[..|d| - 1], tag);
    }
  }

  lemma PieceBounded<T>(t: Tables, count: nat, c: char, tag: T, j: nat)
    requires BoundedRuns(t) && count <= MAX_NONSTARTERS
    requires j <= |Piece(t, count, t.decompose(c), tag)|
    ensures Tail(count, Piece(t, count, t.decompose(c), tag)[..j]) <= MAX_NONSTARTERS
    ensures j == |Piece(t, count, t.decompose(c), tag)| ==>
              Tail(count, Piece(t, count, t.decompose(c), tag)[..j]) == CountAfter(t, count, t.decompose(c))
  {
    var d := t.decompose(c);
    var joiner := Items(t, if NeedsJoiner(t, count, d) then [COMBINING_GRAPHEME_JOINER] else [], tag);
    var own := Items(t, d, tag);
    var base := if NeedsJoiner(t, count, d) then 0 else count;
    assert Tail(count, joiner) == base;
    if j < |joiner| {
      assert Piece(t, count, d, tag)[..j] == [];
    } else {
      var m := j - |joiner|;
      assert Piece(t, count, d, tag)[..j] == joiner + own[..m];
      TailConcat(count, joiner, own[..m]);
      assert own[..m] == Items(t, d[..m], tag);
      LeadingBounded(t, c, Leading(t, d));
      OwnBounded(t, base, c, tag, m);
    }
  }

  lemma OwnBounded<T>(t: Tables, base: nat, c: char, tag: T, m: nat)
    requires BoundedRuns(t) && m <= |t.decompose(c)|
    requires base + Leading(t, t.decompose(c)) <= MAX_NONSTARTERS
    ensures Tail(base, Items(t, t.decompose(c)[..m], tag)) <= MAX_NONSTARTERS
    ensures m == |t.decompose(c)| ==>
              Tail(base, Items(t, t.decompose(c)[..m], tag))
              == (if Leading(t, t.decompose(c)) == m then base + m else Trailing(t, t.decompose(c)))
  {
    var d := t.decompose(c);
    TailOfPrefix(t, base, d, m, tag);
    TailTag(t, 0, d[..m], tag, 0);
    assert d[..|d|] == d;
    TrailingIsTail(t, d, tag);
  }

  lemma LeadingBounded(t: Tables, c: char, j: nat)
    requires BoundedRuns(t) && j <= Leading(t, t.decompose(c))
    ensures j <= MAX_NONSTARTERS
  {
    TailOfPrefix(t, 0, t.decompose(c), j, 0);
  }

  /** The decomposed text is in Stream-Safe Text Format: no prefix ends in more than 30 non-starters. */
  lemma {:induction false} StreamSafeFormat<T>(t: Tables, source: seq<Tagged<T>>, count: nat, j: nat)
    requires BoundedRuns(t) && count <= MAX_NONSTARTERS
    requires j <= |Decomposed(t, source, count)|
    ensures Tail(count, Decomposed(t, source, count)[..j]) <= MAX_NONSTARTERS
  {
    hide Piece;
    hide CountAfter;
    hide BoundedRuns;
    if source != [] {
      var c := source[0].character;
      var piece := Piece(t, count, t.decompose(c), source[0].tag);
      var next := CountAfter(t, count, t.decompose(c));
      var rest := Decomposed(t, source[1..], next);
      assert Decomposed(t, source, count) == piece + rest;
      if j <= |piece| {
        assert (piece + rest)[..j] == piece[..j];
        PieceBounded(t, count, c, source[0].tag, j);
      } else {
        assert (piece + rest)[..j] == piece + rest[..j - |piece|];
        TailConcat(count, piece, rest[..j - |piece|]);
        assert piece[..|piece|] == piece;
        PieceBounded(t, count, c, source[0].tag, |piece|);
        StreamSafeFormat(t, source[1..], next, j - |piece|);
      }
    }
  }

  lemma {:induction false} LongestRunBounded<T>(xs: seq<Item<T>>, bound: nat)
    requires forall j :: 0 <= j <= |xs| ==> Tail(0, xs[..j]) <= bound
    ensures LongestRun(xs) <= bound
  {
    if xs != [] {
      var front := xs[..|xs| - 1];
      forall j | 0 <= j <= |front| ensures Tail(0, front[..j]) <= bound { assert front[..j] == xs[..j]; }
      LongestRunBounded(front, bound);
      assert xs[..|xs|] == xs;
    }
  }

  /** For every text, neither buffer has ever held more than the limit, in the middle of a flush included. */
  lemma PendingBounded(n: MappedNfkc)
    requires n.Valid() && BoundedRuns(n.tables)
    ensures n.peak <= MAX_NONSTARTERS
    ensures !n.finished ==> |n.decompositionPending| <= n.peak && |n.compositionPending| <= n.peak
  {
    var all := Decomposed(n.tables, n.source, 0);
    forall j | 0 <= j <= |all| ensures Tail(0, all[..j]) <= MAX_NONSTARTERS { StreamSafeFormat(n.tables, n.source, 0, j); }
    LongestRunBounded(all, MAX_NONSTARTERS);
    if !n.finished { LongestRunPrefix(n.Seen(), Decomposed(n.tables, n.source[n.position..], n.nonstarterCount)); }
  }

  // ---------------------------------------------------------------- classes recorded and real

  ghost predicate ClassesReal<T>(t: Tables, xs: seq<Item<T>>) {
    forall i :: 0 <= i < |xs| ==> xs[i].ccc == t.ccc(xs[i].character)
  }

  /** When composites of starters are starters, the recorded classes are those of the composed characters. */
  lemma {:induction false} ComposedClassesReal<T>(t: Tables, merge: (T, T) -> T, xs: seq<Item<T>>)
    requires forall a: char, b: char :: t.ccc(a) == 0 && t.compose(a, b).Some? ==> t.ccc(t.compose(a, b).value) == 0
    requires ClassesReal(t, xs)
    ensures ClassesReal(t, Compose(t, merge, xs))
  {
    if xs != [] {
      ComposedClassesReal(t, merge, xs[..|xs| - 1]);
    }
  }

  // ---------------------------------------------------------------- text that is left alone

  /** Normalization without the Stream-Safe joiners. */
  function PlainDecomposed(t: Tables, text: seq<char>): seq<Item<Span>> {
    if text == [] then []
    else Items(t, t.decompose(text[0]), Span(0, 0)) + PlainDecomposed(t, text[1..])
  }

  function Characters<T>(xs: seq<Item<T>>): (r: seq<char>)
    ensures |r| == |xs|
    ensures forall i :: 0 <= i < |xs| ==> r[i] == xs[i].character
  {
    seq(|xs|, i requires 0 <= i < |xs| => xs[i].character)
  }

  /** The contract of the library's NFKC check: the text is its own plain NFKC form. */
  predicate IsNfkc(t: Tables, text: seq<char>) {
    Characters(Compose(t, MergeSpans, Reorder(PlainDecomposed(t, text)))) == text
  }

  predicate NeverJoined(t: Tables, text: seq<char>, count: nat) {
    text == [] ||
    (var d := t.decompose(text[0]);
     !NeedsJoiner(t, count, d) && NeverJoined(t, text[1..], CountAfter(t, count, d)))
  }

  /** Counts the non-starters at both edges of a decomposition in one pass. */
  method EdgeRuns(t: Tables, decomposed: seq<char>) returns (leading: nat, trailing: nat)
    ensures leading == Leading(t, decomposed) && trailing == Trailing(t, decomposed)
  {
    leading, trailing := 0, 0;
    var sawStarter := false;
    assert decomposed[..0] == [] && Leading(t, []) == 0 && Trailing(t, []) == 0;
    hide Leading;
    hide Trailing;
    for i := 0 to |decomposed|
      invariant leading == Leading(t, decomposed[..i]) && trailing == Trailing(t, decomposed[..i])
      invariant !sawStarter <==> leading == i
    {
      LeadingAppend(t, decomposed[..i], decomposed[i]);
      assert decomposed[..i + 1] == decomposed[..i] + [decomposed[i]];
      if t.ccc(decomposed[i]) == 0 {
        sawStarter := true;
        trailing := 0;
      } else {
        if !sawStarter {
          leading := leading + 1;
        }
        trailing := trailing + 1;
      }
    }
    assert decomposed[..|decomposed|] == decomposed;
  }

  method IsStreamSafeNfkc(t: Tables, text: seq<char>) returns (safe: bool)
    ensures safe <==> IsNfkc(t, text) && NeverJoined(t, text, 0)
  {
    hide IsNfkc;
    if !IsNfkc(t, text) {
      return false;
    }
    var nonstarterCount: nat := 0;
    var position := 0;
    assert text[0..] == text;
    while position < |text|
      invariant 0 <= position <= |text|
      invariant NeverJoined(t, text, 0) <==> NeverJoined(t, text[position..], nonstarterCount)
    {
      var decomposed := t.decompose(text[position]);
      var leading, trailing := EdgeRuns(t, decomposed);
      assert text[position..][1..] == text[position + 1..];
      if nonstarterCount + leading > MAX_NONSTARTERS {
        return false;
      }
      nonstarterCount := if leading == |decomposed| then nonstarterCount + |decomposed| else trailing;
      position := position + 1;
    }
    return true;
  }

  lemma {:induction false} LeadingAppend(t: Tables, d: seq<char>, c: char)
    ensures Leading(t, d + [c]) == if Leading(t, d) == |d| && t.ccc(c) != 0 then |d| + 1 else Leading(t, d)
    ensures Trailing(t, d + [c]) == if t.ccc(c) == 0 then 0 else Trailing(t, d) + 1
  {
    assert (d + [c])[..|d|] == d;
    if d != [] {
      assert (d + [c])[1..] == d[1..] + [c];
      LeadingAppend(t, d[1..], c);
    }
  }

  lemma {:induction false} DecomposedPlain(t: Tables, text: seq<char>, source: seq<Mapped>, count: nat)
    requires NeverJoined(t, text, count)
    requires |source| == |text| && forall i :: 0 <= i < |text| ==> source[i].character == text[i]
    ensures Map((s: Span) => Span(0, 0), Decomposed(t, source, count)) == PlainDecomposed(t, text)
  {
    hide Piece;
    hide CountAfter;
    var h := (s: Span) => Span(0, 0);
    if text != [] {
      var d := t.decompose(text[0]);
      var next := CountAfter(t, count, d);
      DecomposedPlain(t, text[1..], source[1..], next);
      var piece := Piece(t, count, d, source[0].tag);
      UnjoinedPiece(t, count, d, source[0].tag);
      assert Map(h, piece) == Items(t, d, Span(0, 0));
      MapConcat(h, piece, Decomposed(t, source[1..], next));
    }
  }

  lemma UnjoinedPiece<T>(t: Tables, count: nat, d: seq<char>, tag: T)
    requires !NeedsJoiner(t, count, d)
    ensures Piece(t, count, d, tag) == Items(t, d, tag)
  {
  }

  /** A text that passes the check would come out of the normalizer unchanged, so skipping it is sound. */
  lemma StreamSafeIsUnchanged(t: Tables, text: seq<char>)
    requires IsNfkc(t, text) && NeverJoined(t, text, 0)
    ensures |Normalized(t, CharIndices(text, 0))| == |text|
    ensures forall i :: 0 <= i < |text| ==> Normalized(t, CharIndices(text, 0))[i].character == text[i]
  {
    var h := (s: Span) => Span(0, 0);
    var source := CharIndices(text, 0);
    var items := Decomposed(t, source, 0);
    DecomposedPlain(t, text, source, 0);
    ReorderMap(h, items);
    ComposeMap(t, h, MergeSpans, (a: Span, b: Span) => Span(0, 0), Reorder(items));
    ComposeMap(t, h, MergeSpans, (a: Span, b: Span) => Span(0, 0), Reorder(PlainDecomposed(t, text)));
    assert Map(h, Reorder(PlainDecomposed(t, text))) == Reorder(PlainDecomposed(t, text)) by {
      ReorderMap(h, PlainDecomposed(t, text));
      ReorderMap(h, items);
      assert Map(h, Map(h, items)) == Map(h, items);
    }
    var batch := Batch(t, MergeSpans, source);
    var plain := Compose(t, MergeSpans, Reorder(PlainDecomposed(t, text)));
    assert Map(h, batch) == Map(h, plain);
    forall i | 0 <= i < |text| ensures batch[i].character == text[i] {
      assert Map(h, batch)[i].character == Map(h, plain)[i].character;
      assert Characters(plain)[i] == text[i];
    }
  }
}
