/** The n best of a sequence under a strict total order: the contract of a top-n collector, and the laws that
    make per-segment selection followed by a merge the same as one global selection. */
module TopN {
  import opened Wrappers

  ghost predicate StrictTotal<H(!new)>(less: (H, H) -> bool) {
    && (forall a :: !less(a, a))
    && (forall a, b :: a == b || less(a, b) || less(b, a))
    && (forall a, b, c :: less(a, b) && less(b, c) ==> less(a, c))
  }

  predicate Ordered<H>(less: (H, H) -> bool, s: seq<H>) {
    forall i, j :: 0 <= i < j < |s| ==> !less(s[j], s[i])
  }

  function Insert<H>(less: (H, H) -> bool, x: H, s: seq<H>): (r: seq<H>)
    ensures |r| == |s| + 1
  {
    if s == [] || less(x, s[0]) then [x] + s else [s[0]] + Insert(less, x, s[1..])
  }

  function Sort<H>(less: (H, H) -> bool, s: seq<H>): (r: seq<H>)
    ensures |r| == |s|
  {
    if s == [] then [] else Insert(less, s[|s| - 1], Sort(less, s[..|s| - 1]))
  }

  function Take<H>(n: nat, s: seq<H>): (r: seq<H>)
    ensures |r| == Min(n, |s|)
  {
    s[..Min(n, |s|)]
  }

  /** The n best, best first. */
  function Best<H>(less: (H, H) -> bool, n: nat, s: seq<H>): seq<H> {
    Take(n, Sort(less, s))
  }

  /** What a top-n collector promises: it keeps n (or all) of the hits and drops none that beats a kept one. */
  ghost predicate KeepsBest<H(!new)>(less: (H, H) -> bool, n: nat, s: seq<H>, kept: seq<H>) {
    && |kept| == Min(n, |s|)
    && multiset(kept) <= multiset(s)
    && forall k, d :: k in multiset(kept) && d in multiset(s) - multiset(kept) ==> !less(d, k)
  }

  lemma OrderedHead<H(!new)>(less: (H, H) -> bool, s: seq<H>)
    requires StrictTotal(less) && s != [] && Ordered(less, s)
    ensures Ordered(less, s[1..])
    ensures forall y :: y in multiset(s) ==> !less(y, s[0])
    ensures multiset(s) == multiset{s[0]} + multiset(s[1..])
  {
    assert s == [s[0]] + s[1..];
    forall y | y in multiset(s) ensures !less(y, s[0]) {
      var i :| 0 <= i < |s| && s[i] == y;
    }
  }

  lemma OrderedCons<H(!new)>(less: (H, H) -> bool, x: H, s: seq<H>)
    requires Ordered(less, s)
    requires forall y :: y in multiset(s) ==> !less(y, x)
    ensures Ordered(less, [x] + s)
  {
    forall j | 0 <= j < |s| ensures !less(s[j], x) {
      assert s[j] in multiset(s);
    }
  }

  lemma {:induction false} InsertOrdered<H(!new)>(less: (H, H) -> bool, x: H, s: seq<H>)
    requires StrictTotal(less) && Ordered(less, s)
    ensures Ordered(less, Insert(less, x, s))
    ensures multiset(Insert(less, x, s)) == multiset(s) + multiset{x}
  {
    hide Ordered;
    if s != [] {
      OrderedHead(less, s);
      if less(x, s[0]) {
        OrderedCons(less, x, s);
      } else {
        InsertOrdered(less, x, s[1..]);
        OrderedCons(less, s[0], Insert(less, x, s[1..]));
      }
    } else {
      OrderedCons(less, x, s);
    }
  }

  lemma {:induction false} SortOrdered<H(!new)>(less: (H, H) -> bool, s: seq<H>)
    requires StrictTotal(less)
    ensures Ordered(less, Sort(less, s))
    ensures multiset(Sort(less, s)) == multiset(s)
  {
    if s != [] {
      var front := s[..|s| - 1];
      SortOrdered(less, front);
      InsertOrdered(less, s[|s| - 1], Sort(less, front));
      assert s == front + [s[|s| - 1]];
    }
  }

  /** An ordered sequence is determined by its elements. */
  lemma {:induction false} OrderedUnique<H(!new)>(less: (H, H) -> bool, a: seq<H>, b: seq<H>)
    requires StrictTotal(less) && Ordered(less, a) && Ordered(less, b)
    requires multiset(a) == multiset(b)
    ensures a == b
  {
    hide Ordered;
    if a == [] {
      assert |b| == |multiset(b)| == 0;
    } else {
      assert a[0] in multiset(b);
      OrderedHead(less, a);
      OrderedHead(less, b);
      assert b[0] in multiset(a);
      assert a[0] == b[0];
      assert multiset(a[1..]) == multiset(a) - multiset{a[0]};
      assert multiset(b[1..]) == multiset(b) - multiset{b[0]};
      OrderedUnique(less, a[1..], b[1..]);
      assert a == [a[0]] + a[1..] && b == [b[0]] + b[1..];
    }
  }

  lemma SortDeterminedByElements<H(!new)>(less: (H, H) -> bool, a: seq<H>, b: seq<H>)
    requires StrictTotal(less) && multiset(a) == multiset(b)
    ensures Sort(less, a) == Sort(less, b)
  {
    SortOrdered(less, a);
    SortOrdered(less, b);
    OrderedUnique(less, Sort(less, a), Sort(less, b));
  }

  lemma {:induction false} InsertTake<H>(less: (H, H) -> bool, n: nat, x: H, s: seq<H>)
    ensures Take(n, Insert(less, x, s)) == Take(n, Insert(less, x, Take(n, s)))
  {
    if n > 0 && s != [] && !less(x, s[0]) {
      InsertTake(less, n - 1, x, s[1..]);
      var tail := Insert(less, x, s[1..]);
      assert Take(n, [s[0]] + tail) == [s[0]] + Take(n - 1, tail);
      assert Take(n, s)[1..] == Take(n - 1, s[1..]);
      var cut := Insert(less, x, Take(n - 1, s[1..]));
      assert Take(n, [s[0]] + cut) == [s[0]] + Take(n - 1, cut);
    }
  }

  /** Streaming: the n best after one more hit depend only on the n best so far. */
  lemma BestAppend<H>(less: (H, H) -> bool, n: nat, s: seq<H>, x: H)
    ensures Best(less, n, s + [x]) == Take(n, Insert(less, x, Best(less, n, s)))
  {
    assert (s + [x])[..|s|] == s;
    InsertTake(less, n, x, Sort(less, s));
  }

  lemma {:induction false} BestPrefix<H>(less: (H, H) -> bool, n: nat, a: seq<H>, a': seq<H>, b: seq<H>)
    requires Best(less, n, a) == Best(less, n, a')
    ensures Best(less, n, a + b) == Best(less, n, a' + b)
    decreases |b|
  {
    if b == [] {
      assert a + b == a && a' + b == a';
    } else {
      var front, x := b[..|b| - 1], b[|b| - 1];
      BestPrefix(less, n, a, a', front);
      assert a + b == (a + front) + [x] && a' + b == (a' + front) + [x];
      BestAppend(less, n, a + front, x);
      BestAppend(less, n, a' + front, x);
    }
  }

  lemma SortSorted<H(!new)>(less: (H, H) -> bool, s: seq<H>)
    requires StrictTotal(less) && Ordered(less, s)
    ensures Sort(less, s) == s
  {
    SortOrdered(less, s);
    OrderedUnique(less, Sort(less, s), s);
  }

  lemma BestTwice<H(!new)>(less: (H, H) -> bool, n: nat, s: seq<H>)
    requires StrictTotal(less)
    ensures Best(less, n, Best(less, n, s)) == Best(less, n, s)
  {
    SortOrdered(less, s);
    SortSorted(less, Best(less, n, s));
  }

  /** Selecting per part and then over the selections is selecting over everything. */
  lemma BestMerge<H(!new)>(less: (H, H) -> bool, n: nat, a: seq<H>, b: seq<H>)
    requires StrictTotal(less)
    ensures Best(less, n, a + b) == Best(less, n, a + Best(less, n, b))
  {
    var kept := Best(less, n, b);
    BestTwice(less, n, b);
    BestPrefix(less, n, b, kept, a);
    assert multiset(a + b) == multiset(b + a) && multiset(a + kept) == multiset(kept + a);
    SortDeterminedByElements(less, a + b, b + a);
    SortDeterminedByElements(less, a + kept, kept + a);
  }

  /** Any selection that meets the contract, put in order, is the n best. */
  lemma ContractIsBest<H(!new)>(less: (H, H) -> bool, n: nat, s: seq<H>, kept: seq<H>)
    requires StrictTotal(less) && KeepsBest(less, n, s, kept)
    ensures Sort(less, kept) == Best(less, n, s)
  {
    SortOrdered(less, s);
    SortOrdered(less, kept);
    var rest := RemoveAll(Sort(less, s), kept);
    RemoveAllElements(less, Sort(less, s), kept);
    var all := Sort(less, kept) + rest;
    OrderedJoin(less, Sort(less, kept), rest);
    hide Ordered;
    hide Sort;
    hide KeepsBest;
    hide RemoveAll;
    OrderedUnique(less, all, Sort(less, s));
    assert |all| == |s|;
    assert all[..|kept|] == Sort(less, kept);
  }

  lemma OrderedJoin<H(!new)>(less: (H, H) -> bool, a: seq<H>, b: seq<H>)
    requires Ordered(less, a) && Ordered(less, b)
    requires forall x, y :: x in multiset(a) && y in multiset(b) ==> !less(y, x)
    ensures Ordered(less, a + b)
  {
    forall i, j | 0 <= i < |a| && 0 <= j < |b| ensures !less(b[j], a[i]) {
      assert a[i] in multiset(a) && b[j] in multiset(b);
    }
  }

  ghost function RemoveOne<H>(s: seq<H>, x: H): seq<H> {
    if s == [] then [] else if s[0] == x then s[1..] else [s[0]] + RemoveOne(s[1..], x)
  }

  ghost function RemoveAll<H>(s: seq<H>, xs: seq<H>): seq<H> {
    if xs == [] then s else RemoveOne(RemoveAll(s, xs[..|xs| - 1]), xs[|xs| - 1])
  }

  lemma {:induction false} RemoveOneElements<H(!new)>(less: (H, H) -> bool, s: seq<H>, x: H)
    requires StrictTotal(less) && Ordered(less, s)
    ensures Ordered(less, RemoveOne(s, x))
    ensures multiset(RemoveOne(s, x)) == multiset(s) - multiset{x}
  {
    hide Ordered;
    if s != [] {
      OrderedHead(less, s);
      if s[0] != x {
        RemoveOneElements(less, s[1..], x);
        OrderedCons(less, s[0], RemoveOne(s[1..], x));
      }
    }
  }

  lemma {:induction false} RemoveAllElements<H(!new)>(less: (H, H) -> bool, s: seq<H>, xs: seq<H>)
    requires StrictTotal(less) && Ordered(less, s)
    ensures Ordered(less, RemoveAll(s, xs))
    ensures multiset(RemoveAll(s, xs)) == multiset(s) - multiset(xs)
  {
    if xs != [] {
      RemoveAllElements(less, s, xs[..|xs| - 1]);
      RemoveOneElements(less, RemoveAll(s, xs[..|xs| - 1]), xs[|xs| - 1]);
      assert xs == xs[..|xs| - 1] + [xs[|xs| - 1]];
    }
  }

  // ---------------------------------------------------------------- rearrangements

  /** `order` names every position below n exactly once. */
  ghost predicate Rearrangement(order: seq<nat>, n: nat) {
    && |order| == n && (forall i :: 0 <= i < n ==> order[i] < n)
    && (forall i, j :: 0 <= i < j < n ==> order[i] != order[j])
  }

  /** Sequences with the same elements are rearrangements of each other, position by position. */
  lemma {:induction false} Rearranged<H>(a: seq<H>, b: seq<H>) returns (order: seq<nat>)
    requires multiset(a) == multiset(b)
    ensures Rearrangement(order, |a|) && |b| == |a|
    ensures forall i :: 0 <= i < |b| ==> b[i] == a[order[i]]
    decreases |b|
  {
    assert |a| == |multiset(a)| == |b|;
    if b == [] {
      order := [];
    } else {
      var front, last := b[..|b| - 1], b[|b| - 1];
      assert b == front + [last];
      assert last in multiset(a);
      var k :| 0 <= k < |a| && a[k] == last;
      var without := a[..k] + a[k + 1..];
      WithoutOne(a, k);
      assert multiset(without) == multiset(a) - multiset{last} == multiset(front);
      var rest := Rearranged(without, front);
      order := Reinsert(rest, |a|, k);
      forall i | 0 <= i < |front| ensures b[i] == a[order[i]] {
        assert b[i] == front[i] == without[rest[i]];
      }
    }
  }

  lemma WithoutOne<H>(a: seq<H>, k: nat)
    requires k < |a|
    ensures multiset(a) == multiset(a[..k] + a[k + 1..]) + multiset{a[k]}
  {
    assert a == a[..k] + [a[k]] + a[k + 1..];
  }

  /** A rearrangement of the positions other than k, followed by k. */
  ghost function Reinsert(rest: seq<nat>, n: nat, k: nat): (order: seq<nat>)
    requires k < n && Rearrangement(rest, n - 1)
    ensures Rearrangement(order, n) && order[n - 1] == k
    ensures forall i :: 0 <= i < n - 1 ==> order[i] == if rest[i] < k then rest[i] else rest[i] + 1
  {
    seq(|rest|, i requires 0 <= i < |rest| => if rest[i] < k then rest[i] else rest[i] + 1) + [k]
  }

  /** Every position below n is named. */
  lemma {:induction false} RearrangementNamesAll(order: seq<nat>, n: nat, k: nat)
    requires Rearrangement(order, n) && k < n
    ensures k in order
  {
    if k !in order {
      forall i | 0 <= i < n ensures order[i] in Below(n) - {k} { assert order[i] in order; }
      DistinctWithin(order, Below(n) - {k});
    }
  }

  ghost function Below(n: nat): (s: set<nat>)
    ensures |s| == n && forall k: nat :: k in s <==> k < n
  {
    if n == 0 then {} else Below(n - 1) + {n - 1}
  }

  lemma {:induction false} DistinctWithin(order: seq<nat>, within: set<nat>)
    requires forall i :: 0 <= i < |order| ==> order[i] in within
    requires forall i, j :: 0 <= i < j < |order| ==> order[i] != order[j]
    ensures |order| <= |within|
  {
    if order != [] {
      DistinctWithin(order[..|order| - 1], within - {order[|order| - 1]});
    }
  }

  // ---------------------------------------------------------------- order isomorphisms

  function Image<A, B>(f: A -> B, s: seq<A>): (r: seq<B>)
    ensures |r| == |s|
    ensures forall i :: 0 <= i < |s| ==> r[i] == f(s[i])
  {
    seq(|s|, i requires 0 <= i < |s| => f(s[i]))
  }

  lemma {:induction false} InsertImage<A, B>(lessA: (A, A) -> bool, lessB: (B, B) -> bool, f: A -> B, x: A, s: seq<A>)
    requires forall i :: 0 <= i < |s| ==> (lessA(x, s[i]) <==> lessB(f(x), f(s[i])))
    ensures Image(f, Insert(lessA, x, s)) == Insert(lessB, f(x), Image(f, s))
  {
    if s != [] && !lessA(x, s[0]) {
      InsertImage(lessA, lessB, f, x, s[1..]);
      assert Image(f, s)[1..] == Image(f, s[1..]);
    }
  }

  /** An order isomorphism may be applied before or after selecting the n best. */
  lemma {:induction false} SortImage<A(!new), B>(lessA: (A, A) -> bool, lessB: (B, B) -> bool, f: A -> B, s: seq<A>)
    requires StrictTotal(lessA)
    requires forall i, j :: 0 <= i < |s| && 0 <= j < |s| ==> (lessA(s[i], s[j]) <==> lessB(f(s[i]), f(s[j])))
    ensures Image(f, Sort(lessA, s)) == Sort(lessB, Image(f, s))
  {
    if s != [] {
      var front, x := s[..|s| - 1], s[|s| - 1];
      SortImage(lessA, lessB, f, front);
      SortOrdered(lessA, front);
      var sorted := Sort(lessA, front);
      forall i | 0 <= i < |sorted| ensures lessA(x, sorted[i]) <==> lessB(f(x), f(sorted[i])) {
        assert sorted[i] in multiset(front);
        var j :| 0 <= j < |front| && front[j] == sorted[i];
        assert s[j] == sorted[i];
      }
      InsertImage(lessA, lessB, f, x, sorted);
      assert Image(f, s)[..|s| - 1] == Image(f, front);
    }
  }

  lemma BestImage<A(!new), B>(lessA: (A, A) -> bool, lessB: (B, B) -> bool, f: A -> B, n: nat, s: seq<A>)
    requires StrictTotal(lessA)
    requires forall i, j :: 0 <= i < |s| && 0 <= j < |s| ==> (lessA(s[i], s[j]) <==> lessB(f(s[i]), f(s[j])))
    ensures Image(f, Best(lessA, n, s)) == Best(lessB, n, Image(f, s))
  {
    SortImage(lessA, lessB, f, s);
  }
}
