/**
 Composing keeps the meaning of a text: replacing every composite by what it was made of and ordering the marks again
 gives back the ordered text that was composed. It composes as much as the blocking rule allows and nothing more.
 */
module NfkcEquivalence {
  import opened Wrappers
  import opened NfkcSpec
  import opened NfkcStream
  import opened NfkcTheorems
  import opened NfkcMeaning

  // ---- texts that order alike ----

  lemma OfClassHead<T>(xs: seq<Item<T>>, ccc: nat)
    requires xs != []
    ensures OfClass(xs, ccc) == (if xs[0].ccc == ccc then [xs[0]] else []) + OfClass(xs[1..], ccc)
  {
  }

  lemma {:induction false} OfClassConcat<T>(a: seq<Item<T>>, b: seq<Item<T>>, ccc: nat)
    ensures OfClass(a + b, ccc) == OfClass(a, ccc) + OfClass(b, ccc)
  {
    if a == [] {
      assert a + b == b;
    } else {
      OfClassConcat(a[1..], b, ccc);
      OfClassHead(a, ccc);
      OfClassHead(a + b, ccc);
      hide OfClass;
      assert (a + b)[0] == a[0] && (a + b)[1..] == a[1..] + b;
      Associative(if a[0].ccc == ccc then [a[0]] else [], OfClass(a[1..], ccc), OfClass(b, ccc));
    }
  }

  lemma Associative<T>(a: seq<T>, b: seq<T>, c: seq<T>)
    ensures a + (b + c) == a + b + c
  {
  }

  lemma SortTwice<T>(r: seq<Item<T>>)
    ensures StableSort(StableSort(r)) == StableSort(r)
  {
    StableSortUnique(StableSort(r), StableSort(r));
  }

  lemma SortAppendSame<T>(r: seq<Item<T>>, s: seq<Item<T>>, x: Item<T>)
    requires StableSort(r) == StableSort(s)
    ensures StableSort(r + [x]) == StableSort(s + [x])
  {
    forall ccc: nat ensures OfClass(StableSort(r + [x]), ccc) == OfClass(s + [x], ccc) {
      StableSortKeepsClasses(r + [x], ccc);
      StableSortKeepsClasses(r, ccc);
      StableSortKeepsClasses(s, ccc);
      OfClassConcat(r, [x], ccc);
      OfClassConcat(s, [x], ccc);
    }
    hide StableSort, OfClass;
    StableSortUnique(s + [x], StableSort(r + [x]));
  }

  /** Reordering, seen from the last starter: what it ends, ordered, and the sorted run after it. */
  lemma ReorderedRunStart<T>(xs: seq<Item<T>>)
    ensures var k := RunStart(xs);
      && |ReorderClosed(xs[..k])| == k && EndsWithStarter(ReorderClosed(xs[..k]))
      && RunStart(Reorder(xs)) == k && |Reorder(xs)| == |xs|
      && Reorder(xs)[..k] == ReorderClosed(xs[..k]) && Reorder(xs)[k..] == StableSort(xs[k..])
  {
    var k := RunStart(xs);
    var closed, sorted := ReorderClosed(xs[..k]), StableSort(xs[k..]);
    ReorderClosedLength(xs[..k]);
    if k > 0 { ClosedUnfold(xs[..k]); }
    assert Reorder(xs) == closed + sorted;
    hide Reorder, ReorderClosed, StableSort, RunStart;
    assert (closed + sorted)[..k] == closed && (closed + sorted)[k..] == sorted;
    RunStartOf(closed + sorted, k);
  }

  lemma ReorderByParts<T>(xs: seq<Item<T>>, k: nat)
    requires k <= |xs| && RunStart(xs) == k
    ensures Reorder(xs) == ReorderClosed(xs[..k]) + StableSort(xs[k..])
  {
  }

  lemma {:induction false} ReorderTwice<T>(xs: seq<Item<T>>)
    ensures Reorder(Reorder(xs)) == Reorder(xs)
    decreases |xs|, 1
  {
    hide StableSort, RunStart, Reorder, ReorderClosed;
    var k := RunStart(xs);
    ReorderedRunStart(xs);
    ReorderByParts(xs, k);
    ReorderByParts(Reorder(xs), k);
    SortTwice(xs[k..]);
    ClosedTwice(xs[..k]);
  }

  lemma {:induction false} ClosedTwice<T>(xs: seq<Item<T>>)
    requires EndsWithStarter(xs)
    ensures EndsWithStarter(ReorderClosed(xs)) && ReorderClosed(ReorderClosed(xs)) == ReorderClosed(xs)
    decreases |xs|, 0
  {
    hide StableSort, RunStart, Reorder;
    if xs != [] {
      var front := xs[..|xs| - 1];
      ReorderTwice(front);
      ClosedUnfold(xs);
      var closed := ReorderClosed(xs);
      ClosedUnfold(closed);
      assert closed[..|closed| - 1] == Reorder(front);
    } else {
      ClosedEmpty(xs);
    }
  }

  lemma ReorderAppend<T>(a: seq<Item<T>>, x: Item<T>)
    ensures x.ccc == 0 ==> Reorder(a + [x]) == Reorder(a) + [x]
    ensures x.ccc != 0 ==> Reorder(a + [x]) == ReorderClosed(a[..RunStart(a)]) + StableSort(a[RunStart(a)..] + [x])
  {
    var k := RunStart(a);
    if x.ccc == 0 {
      OpenRun(a + [x], []);
      ClosedUnfold(a + [x]);
      assert (a + [x])[..|a|] == a && a + [x] + [] == a + [x];
      assert StableSort<T>([]) == [];
    } else {
      assert a + [x] == a[..k] + (a[k..] + [x]);
      OpenRun(a[..k], a[k..] + [x]);
    }
  }

  /** Texts that order alike still do with one more character. */
  lemma AlikeAppend<T>(a: seq<Item<T>>, b: seq<Item<T>>, x: Item<T>)
    requires Reorder(a) == Reorder(b)
    ensures Reorder(a + [x]) == Reorder(b + [x])
  {
    ReorderAppend(a, x);
    ReorderAppend(b, x);
    ReorderedRunStart(a);
    ReorderedRunStart(b);
    hide Reorder, ReorderClosed, StableSort, RunStart;
    SortAppendSame(a[RunStart(a)..], b[RunStart(b)..], x);
  }

  lemma {:induction false} NoneOfClass<T>(m: seq<Item<T>>, ccc: nat)
    requires forall i :: 0 <= i < |m| ==> m[i].ccc != ccc
    ensures OfClass(m, ccc) == []
  {
    if m != [] { NoneOfClass(m[1..], ccc); }
  }

  lemma SortMove<T>(r: seq<Item<T>>, m: seq<Item<T>>, x: Item<T>)
    requires forall i :: 0 <= i < |m| ==> m[i].ccc < x.ccc
    ensures StableSort(r + m + [x]) == StableSort(r + [x] + m)
  {
    forall ccc: nat ensures OfClass(StableSort(r + m + [x]), ccc) == OfClass(r + [x] + m, ccc) {
      StableSortKeepsClasses(r + m + [x], ccc);
      OfClassConcat(r + m, [x], ccc);
      OfClassConcat(r, m, ccc);
      OfClassConcat(r + [x], m, ccc);
      OfClassConcat(r, [x], ccc);
      if ccc == x.ccc { NoneOfClass(m, ccc); }
    }
    hide StableSort, OfClass;
    StableSortUnique(r + [x] + m, StableSort(r + m + [x]));
  }

  /** A character may move across marks of lower class. */
  lemma AlikeMove<T>(a: seq<Item<T>>, m: seq<Item<T>>, x: Item<T>)
    requires forall i :: 0 <= i < |m| ==> 0 < m[i].ccc < x.ccc
    ensures Reorder(a + m + [x]) == Reorder(a + [x] + m)
  {
    hide Reorder, ReorderClosed, StableSort;
    if m == [] {
      assert a + m + [x] == a + [x] + m;
    } else {
      var k := RunStart(a);
      var run := a[k..];
      assert 0 < m[0].ccc < x.ccc;
      assert a + m + [x] == a[..k] + (run + m + [x]) && a + [x] + m == a[..k] + (run + [x] + m);
      OpenRun(a[..k], run + m + [x]);
      OpenRun(a[..k], run + [x] + m);
      SortMove(run, m, x);
    }
  }

  // ---- what composites are made of ----

  /** Each item tagged by itself alone, so that merging tags records what a composite was made of. */
  function Alone<T>(xs: seq<Item<T>>): (r: seq<Item<seq<Item<T>>>>)
    ensures |r| == |xs| && forall i :: 0 <= i < |xs| ==> r[i] == Item(xs[i].ccc, xs[i].character, [xs[i]])
  {
    seq(|xs|, i requires 0 <= i < |xs| => Item(xs[i].ccc, xs[i].character, [xs[i]]))
  }

  function Concat<T>(a: seq<T>, b: seq<T>): seq<T> { a + b }

  /** Every composite replaced by what it was made of. */
  function Expanded<T>(xs: seq<Item<seq<Item<T>>>>): seq<Item<T>> {
    if xs == [] then [] else Expanded(xs[..|xs| - 1]) + xs[|xs| - 1].tag
  }

  /** A starter is its parts composed from left to right; anything else is itself. */
  predicate MadeOf<T>(t: Tables, ccc: nat, character: char, parts: seq<Item<T>>)
    decreases |parts|
  {
    && parts != []
    && var last := parts[|parts| - 1];
       if |parts| == 1 then last.ccc == ccc && last.character == character
       else ccc == 0 && exists a: char :: MadeOf(t, 0, a, parts[..|parts| - 1]) && t.compose(a, last.character) == Some(character)
  }

  ghost predicate AllMade<T>(t: Tables, out: seq<Item<seq<Item<T>>>>) {
    forall k :: 0 <= k < |out| ==> MadeOf(t, out[k].ccc, out[k].character, out[k].tag)
  }

  lemma {:induction false} ExpandedConcat<T>(a: seq<Item<seq<Item<T>>>>, b: seq<Item<seq<Item<T>>>>)
    ensures Expanded(a + b) == Expanded(a) + Expanded(b)
    decreases |b|
  {
    if b == [] {
      assert a + b == a;
    } else {
      assert (a + b)[..|a + b| - 1] == a + b[..|b| - 1];
      ExpandedConcat(a, b[..|b| - 1]);
    }
  }

  lemma ExpandedOne<T>(x: Item<seq<Item<T>>>)
    ensures Expanded([x]) == x.tag
  {
    assert [x][..0] == [];
  }

  /** Marks are not composed, so they expand to themselves, one for one. */
  lemma {:induction false} ExpandedMarks<T>(t: Tables, m: seq<Item<seq<Item<T>>>>)
    requires AllMade(t, m) && forall i :: 0 <= i < |m| ==> m[i].ccc != 0
    ensures |Expanded(m)| == |m| && forall i :: 0 <= i < |m| ==> Expanded(m)[i].ccc == m[i].ccc
  {
    if m != [] { ExpandedMarks(t, m[..|m| - 1]); }
  }

  lemma ExpandedAround<T>(out: seq<Item<seq<Item<T>>>>, l: nat)
    requires l < |out|
    ensures Expanded(out) == Expanded(out[..l]) + out[l].tag + Expanded(out[l + 1..])
  {
    hide Expanded;
    assert out == out[..l] + [out[l]] + out[l + 1..];
    ExpandedConcat(out[..l] + [out[l]], out[l + 1..]);
    ExpandedConcat(out[..l], [out[l]]);
    ExpandedOne(out[l]);
  }

  /** A starter after which only marks of a class below the character's have come. */
  predicate OpenStarter<T>(out: seq<Item<T>>, l: nat, ccc: nat) {
    l < |out| && out[l].ccc == 0 && forall b :: l < b < |out| ==> 0 < out[b].ccc < ccc
  }

  /** What one step of composition does, said of the buffer itself: a starter still open to the character is replaced by
      their composite, if they have one; in every other case the character is added. */
  lemma ComposesExactly<T>(t: Tables, merge: (T, T) -> T, out: seq<Item<T>>, x: Item<T>)
    ensures forall l: nat :: OpenStarter(out, l, x.ccc) ==>
      match t.compose(out[l].character, x.character)
      case Some(c) => ComposeStep(t, merge, out, x) == out[l := Item(0, c, merge(out[l].tag, x.tag))]
      case None => ComposeStep(t, merge, out, x) == out + [x]
    ensures (forall l: nat :: !OpenStarter(out, l, x.ccc)) ==> ComposeStep(t, merge, out, x) == out + [x]
  {
    var last := LastStarter(out);
    assert forall l: nat :: OpenStarter(out, l, x.ccc) ==> l == last;
    if last >= 0 && !Blocked(out, last, x.ccc) { assert OpenStarter(out, last, x.ccc); }
  }

  /** A starter taking up a mark across others: the expansion orders as if the mark had been added at the end. */
  lemma TakeUpAlike<T>(t: Tables, out: seq<Item<seq<Item<T>>>>, l: nat, c: char, x: Item<T>)
    requires AllMade(t, out) && OpenStarter(out, l, x.ccc)
    ensures Reorder(Expanded(out[l := Item(0, c, out[l].tag + [x])])) == Reorder(Expanded(out) + [x])
  {
    var next := out[l := Item(0, c, out[l].tag + [x])];
    var marks := out[l + 1..];
    ExpandedMarks(t, marks);
    ExpandedAround(out, l);
    ExpandedAround(next, l);
    assert next[..l] == out[..l] && next[l + 1..] == marks;
    forall i | 0 <= i < |Expanded(marks)| ensures 0 < Expanded(marks)[i].ccc < x.ccc { assert marks[i] == out[l + 1 + i]; }
    hide AllMade, OpenStarter, Expanded, Reorder;
    TakenUp(Expanded(out[..l]), out[l].tag, x, Expanded(marks));
  }

  lemma TakenUp<T>(before: seq<Item<T>>, tag: seq<Item<T>>, x: Item<T>, marks: seq<Item<T>>)
    requires forall i :: 0 <= i < |marks| ==> 0 < marks[i].ccc < x.ccc
    ensures Reorder(before + (tag + [x]) + marks) == Reorder(before + tag + marks + [x])
  {
    hide Reorder;
    assert before + (tag + [x]) + marks == (before + tag) + [x] + marks;
    AlikeMove(before + tag, marks, x);
  }

  lemma MadeByOneMore<T>(t: Tables, out: seq<Item<seq<Item<T>>>>, l: nat, c: char, x: Item<T>)
    requires AllMade(t, out) && l < |out| && out[l].ccc == 0 && t.compose(out[l].character, x.character) == Some(c)
    ensures AllMade(t, out[l := Item(0, c, out[l].tag + [x])])
  {
    var parts := out[l].tag + [x];
    assert parts[..|parts| - 1] == out[l].tag;
    assert out[l].tag != [] && parts[|parts| - 1] == x;
    assert MadeOf(t, 0, out[l].character, parts[..|parts| - 1]);
    assert MadeOf(t, 0, c, parts);
  }

  lemma AddedAlike<T>(t: Tables, out: seq<Item<seq<Item<T>>>>, x: Item<T>)
    requires AllMade(t, out)
    ensures AllMade(t, out + [Item(x.ccc, x.character, [x])])
    ensures Expanded(out + [Item(x.ccc, x.character, [x])]) == Expanded(out) + [x]
  {
    var y := Item(x.ccc, x.character, [x]);
    ExpandedConcat(out, [y]);
    ExpandedOne(y);
    assert MadeOf(t, x.ccc, x.character, [x]);
    hide MadeOf, Expanded;
  }

  lemma StepAlike<T>(t: Tables, out: seq<Item<seq<Item<T>>>>, x: Item<T>)
    requires AllMade(t, out)
    ensures var next := ComposeStep(t, Concat, out, Item(x.ccc, x.character, [x]));
      AllMade(t, next) && Reorder(Expanded(next)) == Reorder(Expanded(out) + [x])
  {
    hide AllMade, Expanded, Reorder, ComposeStep;
    ComposesExactly(t, Concat, out, Item(x.ccc, x.character, [x]));
    AddedAlike(t, out, x);
    if l: nat :| OpenStarter(out, l, x.ccc) {
      match t.compose(out[l].character, x.character)
      case Some(c) =>
        TakeUpAlike(t, out, l, c, x);
        MadeByOneMore(t, out, l, c, x);
      case None =>
    }
  }

  /** Composing keeps the meaning: every composite is made of the characters it stands for, and with those in its place
      the text orders as before. */
  lemma {:induction false} CompositionKeepsMeaning<T>(t: Tables, xs: seq<Item<T>>)
    ensures var out := Compose(t, Concat, Alone(xs));
      AllMade(t, out) && Reorder(Expanded(out)) == Reorder(xs)
  {
    hide Reorder, ComposeStep, MadeOf;
    if xs != [] {
      var front, x := xs[..|xs| - 1], xs[|xs| - 1];
      CompositionKeepsMeaning(t, front);
      assert Alone(xs)[..|xs| - 1] == Alone(front);
      var out := Compose(t, Concat, Alone(front));
      StepAlike(t, out, x);
      AlikeAppend(Expanded(out), front, x);
      assert front + [x] == xs;
    }
  }

  // ---- the whole pipeline ----

  /** The canonical decomposition of a character, as far as the tables go: what is not composed stands for itself, and a
      composite is what it was composed of. */
  ghost predicate Undoes(t: Tables, canonical: char -> seq<char>) {
    forall a: char, b: char :: t.compose(a, b).Some? ==> canonical(t.compose(a, b).value) == canonical(a) + canonical(b)
  }

  ghost predicate Undecomposable<T>(canonical: char -> seq<char>, xs: seq<Item<T>>) {
    forall k :: 0 <= k < |xs| ==> canonical(xs[k].character) == [xs[k].character]
  }

  function AllOf(canonical: char -> seq<char>, text: seq<char>): seq<char> {
    if text == [] then [] else AllOf(canonical, text[..|text| - 1]) + canonical(text[|text| - 1])
  }

  lemma {:induction false} MadeOfUndone<T>(t: Tables, canonical: char -> seq<char>, ccc: nat, character: char, parts: seq<Item<T>>)
    requires Undoes(t, canonical) && Undecomposable(canonical, parts) && MadeOf(t, ccc, character, parts)
    ensures canonical(character) == Characters(parts)
    decreases |parts|
  {
    if |parts| > 1 {
      var front := parts[..|parts| - 1];
      var a: char :| MadeOf(t, 0, a, front) && t.compose(a, parts[|parts| - 1].character) == Some(character);
      MadeOfUndone(t, canonical, 0, a, front);
      assert Characters(parts) == Characters(front) + [parts[|parts| - 1].character];
    } else {
      assert Characters(parts) == [parts[0].character];
    }
  }

  lemma UndecomposableParts<T>(canonical: char -> seq<char>, a: seq<Item<T>>, b: seq<Item<T>>)
    requires Undecomposable(canonical, a + b)
    ensures Undecomposable(canonical, a) && Undecomposable(canonical, b)
  {
    forall k | 0 <= k < |a| ensures canonical(a[k].character) == [a[k].character] { assert (a + b)[k] == a[k]; }
    forall k | 0 <= k < |b| ensures canonical(b[k].character) == [b[k].character] { assert (a + b)[|a| + k] == b[k]; }
  }

  lemma CharactersConcat<T>(a: seq<Item<T>>, b: seq<Item<T>>)
    ensures Characters(a + b) == Characters(a) + Characters(b)
  {
  }

  lemma CharactersLast<T>(xs: seq<Item<T>>)
    requires xs != []
    ensures Characters(xs)[..|xs| - 1] == Characters(xs[..|xs| - 1])
  {
  }

  lemma {:induction false} ExpansionUndone<T>(t: Tables, canonical: char -> seq<char>, out: seq<Item<seq<Item<T>>>>)
    requires Undoes(t, canonical) && AllMade(t, out) && Undecomposable(canonical, Expanded(out))
    ensures AllOf(canonical, Characters(out)) == Characters(Expanded(out))
  {
    if out != [] {
      var front, last := out[..|out| - 1], out[|out| - 1];
      assert MadeOf(t, last.ccc, last.character, last.tag);
      assert AllMade(t, front);
      UndecomposableParts(canonical, Expanded(front), last.tag);
      hide MadeOf, Undoes, Undecomposable, AllMade;
      ExpansionUndone(t, canonical, front);
      MadeOfUndone(t, canonical, last.ccc, last.character, last.tag);
      CharactersLast(out);
      CharactersConcat(Expanded(front), last.tag);
    }
  }

  lemma {:induction false} ExpandedElements<T>(out: seq<Item<seq<Item<T>>>>, ordered: seq<Item<T>>, canonical: char -> seq<char>)
    requires Reorder(Expanded(out)) == Reorder(ordered) && Undecomposable(canonical, ordered)
    ensures Undecomposable(canonical, Expanded(out))
  {
    hide Reorder;
    forall k | 0 <= k < |Expanded(out)| ensures canonical(Expanded(out)[k].character) == [Expanded(out)[k].character] {
      ReorderElements(Expanded(out));
      ReorderElements(ordered);
      assert Expanded(out)[k] in multiset(Expanded(out));
      var j :| 0 <= j < |ordered| && ordered[j] == Expanded(out)[k];
    }
  }

  lemma {:induction false} InsertElements<T>(x: Item<T>, xs: seq<Item<T>>)
    requires SortedByClass(xs)
    ensures multiset(Insert(x, xs)) == multiset(xs) + multiset{x}
  {
    if xs != [] && x.ccc > xs[0].ccc {
      InsertElements(x, xs[1..]);
      assert xs == [xs[0]] + xs[1..];
    }
  }

  lemma {:induction false} SortElements<T>(xs: seq<Item<T>>)
    ensures multiset(StableSort(xs)) == multiset(xs)
  {
    hide Insert;
    if xs != [] {
      SortElements(xs[1..]);
      InsertElements(xs[0], StableSort(xs[1..]));
      assert xs == [xs[0]] + xs[1..];
    }
  }

  lemma {:induction false} ReorderElements<T>(xs: seq<Item<T>>)
    ensures multiset(Reorder(xs)) == multiset(xs)
    decreases |xs|
  {
    hide StableSort, RunStart;
    var k := RunStart(xs);
    SortElements(xs[k..]);
    assert xs == xs[..k] + xs[k..];
    if k > 0 {
      assert xs[..k][..k - 1] == xs[..k - 1] && xs[..k] == xs[..k - 1] + [xs[k - 1]];
      ReorderElements(xs[..k - 1]);
      ClosedUnfold(xs[..k]);
    }
  }

  /** The characters composed do not depend on what the characters are tagged with. */
  lemma SameCharacters(t: Tables, xs: seq<Item<Span>>)
    ensures Characters(Compose(t, MergeSpans, xs)) == Characters(Compose(t, Concat, Alone(xs)))
  {
    var none := (a: Span, b: Span) => Span(0, 0);
    var f := (s: Span) => Span(0, 0);
    var g := (s: seq<Item<Span>>) => Span(0, 0);
    ComposeMap(t, f, MergeSpans, none, xs);
    ComposeMap(t, g, Concat, none, Alone(xs));
    assert Map(f, xs) == Map(g, Alone(xs));
    assert Characters(Map(f, Compose(t, MergeSpans, xs))) == Characters(Compose(t, MergeSpans, xs));
    assert Characters(Map(g, Compose(t, Concat, Alone(xs)))) == Characters(Compose(t, Concat, Alone(xs)));
  }

  /** Normalizing keeps the meaning of a text: the canonical decomposition of what comes out is, up to the order in which
      marks on a character are written, the decomposed text that went into composition. */
  lemma NormalizedKeepsMeaning(t: Tables, source: seq<Mapped>, canonical: char -> seq<char>) returns (undone: seq<Item<Span>>)
    requires Undoes(t, canonical) && Undecomposable(canonical, Decomposed(t, source, 0))
    ensures AllOf(canonical, Characters(Batch(t, MergeSpans, source))) == Characters(undone)
    ensures Reorder(undone) == Reorder(Decomposed(t, source, 0))
  {
    var decomposed := Decomposed(t, source, 0);
    var ordered := Reorder(decomposed);
    CompositionKeepsMeaning(t, ordered);
    SameCharacters(t, ordered);
    ReorderTwice(decomposed);
    hide Reorder, Compose, Undoes, Undecomposable, AllMade, Decomposed, Expanded;
    var out := Compose(t, Concat, Alone(ordered));
    undone := Expanded(out);
    ExpandedElements(out, decomposed, canonical);
    ExpansionUndone(t, canonical, out);
  }
}
