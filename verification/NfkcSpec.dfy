/**
 The batch NFKC pipeline that the streaming normalizer has to reproduce: the Stream-Safe Text Process
 (section 13 of UAX #15), full compatibility decomposition, canonical reordering and canonical composition
 with blocking (section 3.11 of the Unicode Standard). The Unicode tables are parameters.

 Every stage is generic in a tag that travels with a character, so the same definition gives the emitted
 spans (tag = span) and the emitted provenance (tag = tree of contributing source positions).
 */
module NfkcSpec {
  import opened Wrappers

  const MAX_NONSTARTERS: nat := 30
  const COMBINING_GRAPHEME_JOINER: char := '\U{034F}'

  datatype Tables = Tables(ccc: char -> nat, decompose: char -> seq<char>, compose: (char, char) -> Option<char>)

  /** `ccc` is the combining class the character had when it was decomposed; composing keeps a starter a starter. */
  datatype Item<T> = Item(ccc: nat, character: char, tag: T)

  datatype Tagged<T> = Tagged(character: char, tag: T)

  // ---------------------------------------------------------------- Stream-Safe decomposition

  function Leading(t: Tables, d: seq<char>): (n: nat)
    ensures n <= |d|
    ensures forall i :: 0 <= i < n ==> t.ccc(d[i]) != 0
    ensures n < |d| ==> t.ccc(d[n]) == 0
  {
    if d == [] || t.ccc(d[0]) == 0 then 0 else 1 + Leading(t, d[1..])
  }

  function Trailing(t: Tables, d: seq<char>): (n: nat)
    ensures n <= |d|
    ensures forall i :: |d| - n <= i < |d| ==> t.ccc(d[i]) != 0
    ensures n < |d| ==> t.ccc(d[|d| - n - 1]) == 0
  {
    if d == [] || t.ccc(d[|d| - 1]) == 0 then 0 else 1 + Trailing(t, d[..|d| - 1])
  }

  /** A joiner is needed when the running non-starter count would pass the limit. */
  predicate NeedsJoiner(t: Tables, count: nat, d: seq<char>) {
    count + Leading(t, d) > MAX_NONSTARTERS
  }

  /** The running non-starter count after a character with decomposition `d`. */
  function CountAfter(t: Tables, count: nat, d: seq<char>): nat {
    if Leading(t, d) == |d| then (if NeedsJoiner(t, count, d) then 0 else count) + |d| else Trailing(t, d)
  }

  function Items<T>(t: Tables, d: seq<char>, tag: T): (r: seq<Item<T>>)
    ensures |r| == |d|
    ensures forall i :: 0 <= i < |d| ==> r[i] == Item(t.ccc(d[i]), d[i], tag)
  {
    seq(|d|, i requires 0 <= i < |d| => Item(t.ccc(d[i]), d[i], tag))
  }

  /** What one source character contributes: a joiner where the limit would be passed, then its decomposition. */
  function Piece<T>(t: Tables, count: nat, d: seq<char>, tag: T): seq<Item<T>> {
    Items(t, if NeedsJoiner(t, count, d) then [COMBINING_GRAPHEME_JOINER] else [], tag) + Items(t, d, tag)
  }

  function Decomposed<T>(t: Tables, source: seq<Tagged<T>>, count: nat): seq<Item<T>> {
    if source == [] then []
    else
      var d := t.decompose(source[0].character);
      Piece(t, count, d, source[0].tag) + Decomposed(t, source[1..], CountAfter(t, count, d))
  }

  // ---------------------------------------------------------------- canonical reordering

  predicate SortedByClass<T>(xs: seq<Item<T>>) {
    forall i, j :: 0 <= i < j < |xs| ==> xs[i].ccc <= xs[j].ccc
  }

  function OfClass<T>(xs: seq<Item<T>>, ccc: nat): seq<Item<T>> {
    if xs == [] then []
    else (if xs[0].ccc == ccc then [xs[0]] else []) + OfClass(xs[1..], ccc)
  }

  function Insert<T>(x: Item<T>, xs: seq<Item<T>>): (r: seq<Item<T>>)
    requires SortedByClass(xs)
    ensures SortedByClass(r) && |r| == |xs| + 1
    ensures r[0] == x || (xs != [] && r[0] == xs[0])
    ensures x.ccc != 0 && (forall i :: 0 <= i < |xs| ==> xs[i].ccc != 0) ==> forall i :: 0 <= i < |r| ==> r[i].ccc != 0
  {
    if xs == [] || x.ccc <= xs[0].ccc then [x] + xs
    else [xs[0]] + Insert(x, xs[1..])
  }

  /** The stable sort by combining class, as a reference for a library sort. */
  function StableSort<T>(xs: seq<Item<T>>): (r: seq<Item<T>>)
    ensures SortedByClass(r) && |r| == |xs|
    ensures (forall i :: 0 <= i < |xs| ==> xs[i].ccc != 0) ==> forall i :: 0 <= i < |r| ==> r[i].ccc != 0
  {
    if xs == [] then [] else Insert(xs[0], StableSort(xs[1..]))
  }

  lemma {:induction false} InsertKeepsClasses<T>(x: Item<T>, xs: seq<Item<T>>, ccc: nat)
    requires SortedByClass(xs)
    ensures OfClass(Insert(x, xs), ccc) == (if x.ccc == ccc then [x] else []) + OfClass(xs, ccc)
  {
    if xs == [] || x.ccc <= xs[0].ccc {
      assert ([x] + xs)[1..] == xs;
    } else {
      InsertKeepsClasses(x, xs[1..], ccc);
      assert ([xs[0]] + Insert(x, xs[1..]))[1..] == Insert(x, xs[1..]);
      if x.ccc == ccc {
        NoneOfSmallerClass(xs, ccc);
      }
    }
  }

  // In a sorted sequence whose first class is smaller, the first entry is not of the class.
  lemma NoneOfSmallerClass<T>(xs: seq<Item<T>>, ccc: nat)
    requires xs != [] && xs[0].ccc < ccc
    ensures OfClass(xs, ccc) == OfClass(xs[1..], ccc)
  {
  }

  /** Reordering is stable: the entries of every class keep their order. */
  lemma {:induction false} StableSortKeepsClasses<T>(xs: seq<Item<T>>, ccc: nat)
    ensures OfClass(StableSort(xs), ccc) == OfClass(xs, ccc)
  {
    if xs != [] {
      StableSortKeepsClasses(xs[1..], ccc);
      InsertKeepsClasses(xs[0], StableSort(xs[1..]), ccc);
    }
  }

  /** Sorted and stable together leave one possible result, so the choice of sorting algorithm is immaterial. */
  lemma {:induction false} StableSortUnique<T>(xs: seq<Item<T>>, r: seq<Item<T>>)
    requires SortedByClass(r)
    requires forall ccc: nat :: OfClass(r, ccc) == OfClass(xs, ccc)
    ensures r == StableSort(xs)
  {
    forall ccc: nat ensures OfClass(r, ccc) == OfClass(StableSort(xs), ccc) {
      StableSortKeepsClasses(xs, ccc);
    }
    SortedDeterminedByClasses(r, StableSort(xs));
  }

  lemma {:induction false} FirstIsLeast<T>(xs: seq<Item<T>>, ccc: nat)
    requires SortedByClass(xs) && OfClass(xs, ccc) != []
    ensures xs != [] && xs[0].ccc <= ccc
  {
    if xs[0].ccc != ccc {
      FirstIsLeast(xs[1..], ccc);
    }
  }

  lemma {:induction false} SortedDeterminedByClasses<T>(a: seq<Item<T>>, b: seq<Item<T>>)
    requires SortedByClass(a) && SortedByClass(b)
    requires forall ccc: nat :: OfClass(a, ccc) == OfClass(b, ccc)
    ensures a == b
  {
    if a == [] {
      if b != [] {
        FirstIsLeast(a, b[0].ccc);
      }
    } else {
      var c := a[0].ccc;
      assert OfClass(a, c)[0] == a[0];
      FirstIsLeast(b, c);
      var d := b[0].ccc;
      assert OfClass(b, d)[0] == b[0];
      FirstIsLeast(a, d);
      assert c == d;
      assert a[0] == b[0];
      forall ccc: nat ensures OfClass(a[1..], ccc) == OfClass(b[1..], ccc) {
        var prefix := if c == ccc then [a[0]] else [];
        assert OfClass(a, ccc) == prefix + OfClass(a[1..], ccc);
        assert OfClass(b, ccc) == prefix + OfClass(b[1..], ccc);
        assert OfClass(a[1..], ccc) == OfClass(a, ccc)[|prefix|..];
        assert OfClass(b[1..], ccc) == OfClass(b, ccc)[|prefix|..];
      }
      SortedDeterminedByClasses(a[1..], b[1..]);
      assert a == [a[0]] + a[1..] && b == [b[0]] + b[1..];
    }
  }

  /** Start of the non-starter run that ends the sequence. */
  function RunStart<T>(xs: seq<Item<T>>): (k: nat)
    ensures k <= |xs|
    ensures forall i :: k <= i < |xs| ==> xs[i].ccc != 0
    ensures k > 0 ==> xs[k - 1].ccc == 0
  {
    if xs == [] || xs[|xs| - 1].ccc == 0 then |xs| else RunStart(xs[..|xs| - 1])
  }

  predicate EndsWithStarter<T>(xs: seq<Item<T>>) {
    xs == [] || xs[|xs| - 1].ccc == 0
  }

  /** Sorts every maximal run of non-starters by class; starters stay in place. */
  function Reorder<T>(xs: seq<Item<T>>): seq<Item<T>>
    decreases |xs|, 1
  {
    ReorderClosed(xs[..RunStart(xs)]) + StableSort(xs[RunStart(xs)..])
  }

  /** Reordering up to and including a starter. */
  function ReorderClosed<T>(xs: seq<Item<T>>): seq<Item<T>>
    requires EndsWithStarter(xs)
    decreases |xs|, 0
  {
    if xs == [] then [] else Reorder(xs[..|xs| - 1]) + [xs[|xs| - 1]]
  }

  // ---------------------------------------------------------------- canonical composition

  /** Position of the last starter, or -1. */
  function LastStarter<T>(out: seq<Item<T>>): (l: int)
    ensures -1 <= l < |out|
    ensures l >= 0 ==> out[l].ccc == 0
    ensures forall i :: l < i < |out| ==> out[i].ccc != 0
  {
    if out == [] then -1
    else if out[|out| - 1].ccc == 0 then |out| - 1
    else LastStarter(out[..|out| - 1])
  }

  /** Something between the starter and the character has an equal or higher class, or is a starter itself. */
  predicate Blocked<T>(out: seq<Item<T>>, l: nat, ccc: nat) {
    exists b :: l < b < |out| && (out[b].ccc == 0 || out[b].ccc >= ccc)
  }

  function ComposeStep<T>(t: Tables, merge: (T, T) -> T, out: seq<Item<T>>, x: Item<T>): seq<Item<T>> {
    var l := LastStarter(out);
    if l >= 0 && !Blocked(out, l, x.ccc) && t.compose(out[l].character, x.character).Some? then
      out[l := Item(0, t.compose(out[l].character, x.character).value, merge(out[l].tag, x.tag))]
    else out + [x]
  }

  /** Feeds `xs` into the composition buffer `out`, one character at a time. */
  function ComposeFrom<T>(t: Tables, merge: (T, T) -> T, out: seq<Item<T>>, xs: seq<Item<T>>): seq<Item<T>> {
    if xs == [] then out else ComposeStep(t, merge, ComposeFrom(t, merge, out, xs[..|xs| - 1]), xs[|xs| - 1])
  }

  function Compose<T>(t: Tables, merge: (T, T) -> T, xs: seq<Item<T>>): seq<Item<T>> {
    ComposeFrom(t, merge, [], xs)
  }

  /** The whole pipeline. */
  function Batch<T>(t: Tables, merge: (T, T) -> T, source: seq<Tagged<T>>): seq<Item<T>> {
    Compose(t, merge, Reorder(Decomposed(t, source, 0)))
  }

  lemma {:induction false} ComposeFromSplit<T>(t: Tables, merge: (T, T) -> T, out: seq<Item<T>>, xs: seq<Item<T>>, ys: seq<Item<T>>)
    ensures ComposeFrom(t, merge, out, xs + ys) == ComposeFrom(t, merge, ComposeFrom(t, merge, out, xs), ys)
    decreases |ys|
  {
    hide ComposeStep;
    if ys == [] {
      assert xs + ys == xs;
    } else {
      var front := ys[..|ys| - 1];
      ComposeFromSplit(t, merge, out, xs, front);
      assert (xs + ys)[..|xs + ys| - 1] == xs + front;
    }
  }

  // ---------------------------------------------------------------- stability of what precedes the last starter

  /** How much of a composition buffer no later character can change. */
  function Settled<T>(out: seq<Item<T>>): (n: nat)
    ensures n <= |out|
  {
    if LastStarter(out) < 0 then |out| else LastStarter(out)
  }

  lemma LastStarterUpdate<T>(out: seq<Item<T>>, l: nat, x: Item<T>)
    requires LastStarter(out) == l && x.ccc == 0
    ensures LastStarter(out[l := x]) == l
  {
    if l != |out| - 1 {
      LastStarterUpdate(out[..|out| - 1], l, x);
      assert out[l := x][..|out| - 1] == out[..|out| - 1][l := x];
    }
  }

  lemma StepKeepsSettled<T>(t: Tables, merge: (T, T) -> T, out: seq<Item<T>>, x: Item<T>)
    ensures Settled(out) <= Settled(ComposeStep(t, merge, out, x))
    ensures ComposeStep(t, merge, out, x)[..Settled(out)] == out[..Settled(out)]
  {
    var l := LastStarter(out);
    var next := ComposeStep(t, merge, out, x);
    if l >= 0 && !Blocked(out, l, x.ccc) && t.compose(out[l].character, x.character).Some? {
      LastStarterUpdate(out, l, next[l]);
    } else {
      assert next[..|next| - 1] == out;
    }
  }

  lemma {:induction false} ComposeKeepsSettled<T>(t: Tables, merge: (T, T) -> T, out: seq<Item<T>>, ys: seq<Item<T>>)
    ensures Settled(out) <= Settled(ComposeFrom(t, merge, out, ys))
    ensures ComposeFrom(t, merge, out, ys)[..Settled(out)] == out[..Settled(out)]
    decreases |ys|
  {
    hide ComposeStep;
    hide Settled;
    if ys != [] {
      var front := ComposeFrom(t, merge, out, ys[..|ys| - 1]);
      ComposeKeepsSettled(t, merge, out, ys[..|ys| - 1]);
      StepKeepsSettled(t, merge, front, ys[|ys| - 1]);
      var n := Settled(out);
      var next := ComposeFrom(t, merge, out, ys);
      assert next[..n] == next[..Settled(front)][..n];
      assert front[..n] == front[..Settled(front)][..n];
    }
  }

  lemma RunStartOf<T>(xs: seq<Item<T>>, k: nat)
    requires k <= |xs|
    requires forall i :: k <= i < |xs| ==> xs[i].ccc != 0
    requires k > 0 ==> xs[k - 1].ccc == 0
    ensures RunStart(xs) == k
  {
    if k < |xs| {
      RunStartOf(xs[..|xs| - 1], k);
    }
  }

  /** Closing a run with a starter: the run is sorted, nothing before it moves. */
  lemma CloseRun<T>(xs: seq<Item<T>>, run: seq<Item<T>>, starter: Item<T>)
    requires EndsWithStarter(xs) && starter.ccc == 0
    requires forall i :: 0 <= i < |run| ==> run[i].ccc != 0
    ensures EndsWithStarter(xs + run + [starter])
    ensures ReorderClosed(xs + run + [starter]) == ReorderClosed(xs) + StableSort(run) + [starter]
  {
    assert (xs + run + [starter])[..|xs| + |run|] == xs + run;
    OpenRun(xs, run);
  }

  lemma OpenRun<T>(xs: seq<Item<T>>, run: seq<Item<T>>)
    requires EndsWithStarter(xs)
    requires forall i :: 0 <= i < |run| ==> run[i].ccc != 0
    ensures Reorder(xs + run) == ReorderClosed(xs) + StableSort(run)
  {
    hide StableSort;
    RunStartOf(xs + run, |xs|);
    assert (xs + run)[..|xs|] == xs && (xs + run)[|xs|..] == run;
  }

  lemma ClosedUnfold<T>(xs: seq<Item<T>>)
    requires xs != [] && EndsWithStarter(xs)
    ensures ReorderClosed(xs) == Reorder(xs[..|xs| - 1]) + [xs[|xs| - 1]]
  {
  }

  /** Reordering never moves an entry across a starter that has already been seen. */
  lemma {:induction false} ReorderPrefix<T>(xs: seq<Item<T>>, ys: seq<Item<T>>)
    requires EndsWithStarter(xs)
    ensures ReorderClosed(xs) <= Reorder(xs + ys)
    decreases |ys|
  {
    hide Reorder;
    hide ReorderClosed;
    hide StableSort;
    hide RunStart;
    var k := RunStart(ys);
    if k == 0 {
      OpenRun(xs, ys);
    } else {
      ReorderPrefix(xs, ys[..k - 1]);
      var closed := xs + ys[..k];
      assert closed[..|closed| - 1] == xs + ys[..k - 1];
      ClosedUnfold(closed);
      assert xs + ys == closed + ys[k..];
      OpenRun(closed, ys[k..]);
    }
  }

  /** Non-starters seen since the last starter, starting from a count. */
  function Tail<T>(count: nat, xs: seq<Item<T>>): nat {
    if xs == [] then count
    else if xs[|xs| - 1].ccc == 0 then 0
    else Tail(count, xs[..|xs| - 1]) + 1
  }

  /** The most non-starters in a row. */
  function LongestRun<T>(xs: seq<Item<T>>): nat {
    if xs == [] then 0 else Max(LongestRun(xs[..|xs| - 1]), Tail(0, xs))
  }

  lemma {:induction false} LongestRunPrefix<T>(xs: seq<Item<T>>, ys: seq<Item<T>>)
    ensures LongestRun(xs) <= LongestRun(xs + ys)
    decreases |ys|
  {
    if ys == [] {
      assert xs + ys == xs;
    } else {
      assert (xs + ys)[..|xs + ys| - 1] == xs + ys[..|ys| - 1];
      LongestRunPrefix(xs, ys[..|ys| - 1]);
    }
  }

  lemma {:induction false} TailOfRun<T>(closed: seq<Item<T>>, run: seq<Item<T>>)
    requires EndsWithStarter(closed)
    requires forall i :: 0 <= i < |run| ==> run[i].ccc != 0
    ensures Tail(0, closed + run) == |run|
    decreases |run|
  {
    if run == [] {
      assert closed + run == closed;
    } else {
      assert (closed + run)[..|closed + run| - 1] == closed + run[..|run| - 1];
      TailOfRun(closed, run[..|run| - 1]);
    }
  }
}
