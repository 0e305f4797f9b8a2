/**
 What the stages of the normalizer mean, said of the characters themselves: where joiners stand, when a text needs none
 and how runs are ordered.
 */
module NfkcMeaning {
  import opened Wrappers
  import opened NfkcSpec
  import opened NfkcStream
  import opened NfkcTheorems

  // ---- where joiners stand ----

  lemma {:induction false} RunStartIsTail<T>(xs: seq<Item<T>>)
    ensures Tail(0, xs) == |xs| - RunStart(xs)
  {
    if xs != [] { RunStartIsTail(xs[..|xs| - 1]); }
  }

  /** The count kept for the joiner rule is the number of non-starters that end the decomposed text so far. */
  lemma PieceCount<T>(t: Tables, count: nat, d: seq<char>, tag: T)
    requires t.ccc(COMBINING_GRAPHEME_JOINER) == 0
    ensures Tail(count, Piece(t, count, d, tag)) == CountAfter(t, count, d)
  {
    var joiner := Items(t, if NeedsJoiner(t, count, d) then [COMBINING_GRAPHEME_JOINER] else [], tag);
    var own := Items(t, d, tag);
    TailConcat(count, joiner, own);
    assert d[..|d|] == d;
    TailOfPrefix(t, Tail(count, joiner), d, |d|, tag);
    TrailingIsTail(t, d, tag);
  }

  lemma {:induction false} DecomposedAppend<T>(t: Tables, source: seq<Tagged<T>>, count: nat, x: Tagged<T>)
    requires t.ccc(COMBINING_GRAPHEME_JOINER) == 0
    ensures Decomposed(t, source + [x], count)
      == Decomposed(t, source, count) + Piece(t, Tail(count, Decomposed(t, source, count)), t.decompose(x.character), x.tag)
  {
    hide Piece;
    if source == [] {
      assert source + [x] == [x] && [x][1..] == [];
    } else {
      var d := t.decompose(source[0].character);
      var piece, next := Piece(t, count, d, source[0].tag), CountAfter(t, count, d);
      PieceCount(t, count, d, source[0].tag);
      DecomposedAppend(t, source[1..], next, x);
      assert (source + [x])[1..] == source[1..] + [x];
      TailConcat(count, piece, Decomposed(t, source[1..], next));
    }
  }

  /** Each source character contributes its decomposition, and right before it a joiner iff the non-starters that end the
      decomposed text so far together with those that begin the decomposition would be more than 30. */
  lemma JoinersExactly<T>(t: Tables, source: seq<Tagged<T>>, k: nat)
    requires t.ccc(COMBINING_GRAPHEME_JOINER) == 0 && k < |source|
    ensures var before := Decomposed(t, source[..k], 0);
      var d := t.decompose(source[k].character);
      var run := |before| - RunStart(before);
      Decomposed(t, source[..k + 1], 0) == before
        + ((if run + Leading(t, d) > MAX_NONSTARTERS then [Item(0, COMBINING_GRAPHEME_JOINER, source[k].tag)] else [])
           + Items(t, d, source[k].tag))
  {
    hide Decomposed, RunStart, Tail, Leading;
    assert source[..k + 1] == source[..k] + [source[k]];
    DecomposedAppend(t, source[..k], 0, source[k]);
    var before := Decomposed(t, source[..k], 0);
    RunStartIsTail(before);
    PieceOpened(t, |before| - RunStart(before), t.decompose(source[k].character), source[k].tag);
    hide Piece, Items;
  }

  lemma PieceOpened<T>(t: Tables, count: nat, d: seq<char>, tag: T)
    requires t.ccc(COMBINING_GRAPHEME_JOINER) == 0
    ensures Piece(t, count, d, tag)
      == (if count + Leading(t, d) > MAX_NONSTARTERS then [Item(0, COMBINING_GRAPHEME_JOINER, tag)] else []) + Items(t, d, tag)
  {
  }

  // ---- texts without joiners ----

  /** More non-starters in a row than allowed, from position i. */
  predicate TooLongAt<T>(xs: seq<Item<T>>, i: nat) {
    i + MAX_NONSTARTERS < |xs| && forall k :: i <= k <= i + MAX_NONSTARTERS ==> xs[k].ccc != 0
  }

  predicate TailsWithin<T>(count: nat, xs: seq<Item<T>>) { forall j :: 0 <= j <= |xs| ==> Tail(count, xs[..j]) <= MAX_NONSTARTERS }

  lemma TailsOfConcat<T>(count: nat, a: seq<Item<T>>, b: seq<Item<T>>)
    ensures TailsWithin(count, a + b) <==> TailsWithin(count, a) && TailsWithin(Tail(count, a), b)
  {
    forall j | 0 <= j <= |a| ensures (a + b)[..j] == a[..j] {}
    forall j | 0 <= j <= |b| ensures (a + b)[..|a| + j] == a + b[..j] && Tail(count, a + b[..j]) == Tail(Tail(count, a), b[..j]) {
      TailConcat(count, a, b[..j]);
    }
    if TailsWithin(count, a + b) {
      forall j | 0 <= j <= |a| ensures Tail(count, a[..j]) <= MAX_NONSTARTERS { assert (a + b)[..j] == a[..j]; }
      forall j | 0 <= j <= |b| ensures Tail(Tail(count, a), b[..j]) <= MAX_NONSTARTERS { assert (a + b)[..|a| + j] == a + b[..j]; }
    }
    if TailsWithin(count, a) && TailsWithin(Tail(count, a), b) {
      forall j | 0 <= j <= |a + b| ensures Tail(count, (a + b)[..j]) <= MAX_NONSTARTERS {
        if j > |a| { assert (a + b)[..j] == a + b[..j - |a|]; }
      }
    }
  }

  /** A character needs no joiner iff its decomposition keeps every run within the limit. */
  lemma OwnTails(t: Tables, count: nat, c: char)
    requires BoundedRuns(t) && count <= MAX_NONSTARTERS
    ensures var d := t.decompose(c);
      var own := Items(t, d, Span(0, 0));
      && (!NeedsJoiner(t, count, d) <==> TailsWithin(count, own))
      && (!NeedsJoiner(t, count, d) ==> Tail(count, own) == CountAfter(t, count, d) <= MAX_NONSTARTERS)
  {
    var d := t.decompose(c);
    var own := Items(t, d, Span(0, 0));
    if NeedsJoiner(t, count, d) {
      var l := Leading(t, d);
      TailOfPrefix(t, count, d, l, Span(0, 0));
      assert own[..l] == Items(t, d[..l], Span(0, 0));
    } else {
      forall m | 0 <= m <= |own| ensures Tail(count, own[..m]) <= MAX_NONSTARTERS {
        OwnBounded(t, count, c, Span(0, 0), m);
        assert own[..m] == Items(t, d[..m], Span(0, 0));
      }
      PieceCount(t, count, d, Span(0, 0));
      UnjoinedPiece(t, count, d, Span(0, 0));
      assert own[..|own|] == own;
    }
  }

  lemma {:induction false} NeverJoinedByTails(t: Tables, text: seq<char>, count: nat)
    requires BoundedRuns(t) && count <= MAX_NONSTARTERS
    ensures NeverJoined(t, text, count) <==> TailsWithin(count, PlainDecomposed(t, text))
  {
    hide BoundedRuns;
    if text != [] {
      var d := t.decompose(text[0]);
      var own := Items(t, d, Span(0, 0));
      OwnTails(t, count, text[0]);
      TailsOfConcat(count, own, PlainDecomposed(t, text[1..]));
      hide TailsWithin, CountAfter, NeedsJoiner;
      if !NeedsJoiner(t, count, d) { NeverJoinedByTails(t, text[1..], CountAfter(t, count, d)); }
    }
  }

  lemma {:induction false} TailIsRun<T>(xs: seq<Item<T>>, i: nat, n: nat)
    requires i + n == |xs| && forall k :: i <= k < i + n ==> xs[k].ccc != 0
    ensures Tail(0, xs) >= n
  {
    if n > 0 { TailIsRun(xs[..|xs| - 1], i, n - 1); }
  }

  lemma TailsAreRuns<T>(xs: seq<Item<T>>)
    ensures TailsWithin(0, xs) <==> !exists i: nat :: TooLongAt(xs, i)
  {
    if i: nat :| TooLongAt(xs, i) {
      var j := i + MAX_NONSTARTERS + 1;
      TailIsRun(xs[..j], i, MAX_NONSTARTERS + 1);
    }
    if j :| 0 <= j <= |xs| && Tail(0, xs[..j]) > MAX_NONSTARTERS {
      RunStartIsTail(xs[..j]);
      assert TooLongAt(xs, j - MAX_NONSTARTERS - 1);
    }
  }

  /** A text gets no joiner iff its plain decomposition nowhere has 31 non-starters in a row. */
  lemma NeverJoinedExactly(t: Tables, text: seq<char>)
    requires BoundedRuns(t)
    ensures NeverJoined(t, text, 0) <==> !exists i: nat :: TooLongAt(PlainDecomposed(t, text), i)
    ensures NeverJoined(t, text, 0) <==> LongestRun(PlainDecomposed(t, text)) <= MAX_NONSTARTERS
  {
    var plain := PlainDecomposed(t, text);
    NeverJoinedByTails(t, text, 0);
    TailsAreRuns(plain);
    if TailsWithin(0, plain) { LongestRunBounded(plain, MAX_NONSTARTERS); }
    LongestRunCovers(plain);
  }

  lemma {:induction false} LongestRunCovers<T>(xs: seq<Item<T>>)
    ensures forall j :: 0 <= j <= |xs| ==> Tail(0, xs[..j]) <= LongestRun(xs)
  {
    if xs != [] {
      LongestRunCovers(xs[..|xs| - 1]);
      forall j | 0 <= j <= |xs| ensures Tail(0, xs[..j]) <= LongestRun(xs) {
        if j == |xs| { assert xs[..j] == xs; } else { assert xs[..|xs| - 1][..j] == xs[..j]; }
      }
    }
  }

  /** Such a text decomposes into exactly the decompositions of its characters. */
  lemma PlainWhenShort(t: Tables, text: seq<char>)
    requires BoundedRuns(t) && LongestRun(PlainDecomposed(t, text)) <= MAX_NONSTARTERS
    ensures Characters(Decomposed(t, CharIndices(text, 0), 0)) == Characters(PlainDecomposed(t, text))
  {
    NeverJoinedExactly(t, text);
    var h := (s: Span) => Span(0, 0);
    DecomposedPlain(t, text, CharIndices(text, 0), 0);
    assert Characters(Map(h, Decomposed(t, CharIndices(text, 0), 0))) == Characters(Decomposed(t, CharIndices(text, 0), 0));
  }

  // ---- reordering ----

  lemma {:induction false} ReorderLength<T>(xs: seq<Item<T>>)
    ensures |Reorder(xs)| == |xs|
    decreases |xs|, 1
  {
    hide StableSort;
    var k := RunStart(xs);
    if k > 0 {
      ReorderLength(xs[..k - 1]);
      assert xs[..k][..k - 1] == xs[..k - 1];
      ClosedUnfold(xs[..k]);
    }
  }

  lemma ReorderClosedLength<T>(xs: seq<Item<T>>)
    requires EndsWithStarter(xs)
    ensures |ReorderClosed(xs)| == |xs|
  {
    if xs != [] { ReorderLength(xs[..|xs| - 1]); ClosedUnfold(xs); }
  }

  /** Between two starters, or from or to an end of the text, the run is stably sorted by combining class, in place. */
  lemma ReorderRun<T>(xs: seq<Item<T>>, i: nat, j: nat)
    requires i <= j <= |xs| && (i == 0 || xs[i - 1].ccc == 0) && (j == |xs| || xs[j].ccc == 0)
    requires forall k :: i <= k < j ==> xs[k].ccc != 0
    ensures |Reorder(xs)| == |xs| && Reorder(xs)[i..j] == StableSort(xs[i..j])
  {
    hide StableSort, Reorder, ReorderClosed, RunStart;
    var before, run := xs[..i], xs[i..j];
    ReorderLength(xs);
    ReorderClosedLength(before);
    if j == |xs| {
      assert xs == before + run;
      OpenRun(before, run);
    } else {
      var closed := before + run + [xs[j]];
      CloseRun(before, run, xs[j]);
      assert xs == closed + xs[j + 1..];
      ReorderPrefix(closed, xs[j + 1..]);
    }
  }

  /** Starters stay where they are. */
  lemma ReorderStarter<T>(xs: seq<Item<T>>, i: nat)
    requires i < |xs| && xs[i].ccc == 0
    ensures |Reorder(xs)| == |xs| && Reorder(xs)[i] == xs[i]
  {
    hide StableSort, Reorder, ReorderClosed, RunStart;
    var closed := xs[..i + 1];
    assert closed[..i] == xs[..i] && xs == closed + xs[i + 1..];
    ReorderLength(xs);
    ReorderLength(xs[..i]);
    ClosedUnfold(closed);
    ReorderPrefix(closed, xs[i + 1..]);
  }
}
