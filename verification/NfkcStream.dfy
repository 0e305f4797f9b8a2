/**
 The streaming, span-tracking normalizer: `MappedNfkc` and the check that lets it be skipped. Each call of
 `Next` is proved to hand out the next character, with its span, of the batch pipeline in NfkcSpec.
 */
module NfkcStream {
  import opened Wrappers
  import opened NfkcSpec

  datatype Span = Span(start: nat, end: nat)

  function MergeSpans(a: Span, b: Span): Span {
    Span(Min(a.start, b.start), Max(a.end, b.end))
  }

  type Mapped = Tagged<Span>

  function Utf8Length(c: char): nat {
    if c as int < 0x80 then 1 else if c as int < 0x800 then 2 else if c as int < 0x10000 then 3 else 4
  }

  /** The characters of a text with their byte spans, starting at a byte offset. */
  function CharIndices(text: seq<char>, offset: nat): (r: seq<Mapped>)
    ensures |r| == |text|
    ensures forall i :: 0 <= i < |text| ==> r[i].character == text[i]
  {
    if text == [] then []
    else
      var end := offset + Utf8Length(text[0]);
      [Tagged(text[0], Span(offset, end))] + CharIndices(text[1..], end)
  }

  function Untyped(xs: seq<Item<Span>>): (r: seq<Mapped>)
    ensures |r| == |xs|
    ensures forall i :: 0 <= i < |xs| ==> r[i] == Tagged(xs[i].character, xs[i].tag)
  {
    seq(|xs|, i requires 0 <= i < |xs| => Tagged(xs[i].character, xs[i].tag))
  }

  /** What a whole text normalizes to. */
  function Normalized(t: Tables, source: seq<Mapped>): seq<Mapped> {
    Untyped(Batch(t, MergeSpans, source))
  }

  /**
   The streaming composition state stands for the batch composition buffer: what has been written out is the
   part before the last starter, the composee is that starter, and the pending characters follow it.
   */
  ghost predicate Represents(
    buffer: seq<Item<Span>>, written: seq<Mapped>, composee: Option<Mapped>, pending: seq<Mapped>, last: Option<nat>)
  {
    var l := LastStarter(buffer);
    if l < 0 then
      composee.None? && pending == [] && last.None? && written == Untyped(buffer)
    else
      && composee == Some(Tagged(buffer[l].character, buffer[l].tag))
      && written == Untyped(buffer[..l])
      && pending == Untyped(buffer[l + 1..])
      && SortedByClass(buffer[l + 1..])
      && last == if l + 1 == |buffer| then None else Some(buffer[|buffer| - 1].ccc)
  }

  function Plain(x: Item<Span>): Mapped { Tagged(x.character, x.tag) }

  lemma AppendLast<T>(out: seq<Item<T>>, x: Item<T>)
    ensures LastStarter(out + [x]) == if x.ccc == 0 then |out| else LastStarter(out)
  {
    assert (out + [x])[..|out|] == out;
  }

  /** Before the first starter nothing composes: non-starters go straight out. */
  lemma StepBeforeStarter(t: Tables, buffer: seq<Item<Span>>, written: seq<Mapped>, x: Item<Span>)
    requires Represents(buffer, written, None, [], None)
    ensures x.ccc != 0 ==> Represents(ComposeStep(t, MergeSpans, buffer, x), written + [Plain(x)], None, [], None)
    ensures x.ccc == 0 ==> Represents(ComposeStep(t, MergeSpans, buffer, x), written, Some(Plain(x)), [], None)
  {
    AppendLast(buffer, x);
    assert ComposeStep(t, MergeSpans, buffer, x) == buffer + [x];
    assert (buffer + [x])[..|buffer|] == buffer;
  }

  /** The remembered class decides blocking, because the pending characters are sorted by class. */
  lemma BlockedByLast(buffer: seq<Item<Span>>, written: seq<Mapped>, composee: Mapped, pending: seq<Mapped>, last: Option<nat>, ccc: nat)
    requires Represents(buffer, written, Some(composee), pending, last)
    ensures Blocked(buffer, LastStarter(buffer), ccc) <==> last.Some? && last.value >= ccc
  {
    var l := LastStarter(buffer);
    if last.Some? {
      var n := |buffer| - 1;
      assert buffer[n] == buffer[l + 1..][n - (l + 1)];
      forall b | l < b < |buffer| ensures buffer[b].ccc <= buffer[n].ccc {
        assert buffer[b] == buffer[l + 1..][b - (l + 1)];
      }
    }
  }

  lemma StepComposes(t: Tables, buffer: seq<Item<Span>>, written: seq<Mapped>, composee: Mapped, pending: seq<Mapped>, last: Option<nat>, x: Item<Span>)
    requires Represents(buffer, written, Some(composee), pending, last)
    requires last.None? || last.value < x.ccc
    requires t.compose(composee.character, x.character).Some?
    ensures Represents(ComposeStep(t, MergeSpans, buffer, x), written,
                       Some(Tagged(t.compose(composee.character, x.character).value, MergeSpans(composee.tag, x.tag))), pending, last)
  {
    var l := LastStarter(buffer);
    BlockedByLast(buffer, written, composee, pending, last, x.ccc);
    var next := ComposeStep(t, MergeSpans, buffer, x);
    LastStarterUpdate(buffer, l, next[l]);
    hide LastStarter;
    hide ComposeStep;
    hide Blocked;
    assert next[..l] == buffer[..l];
    assert next[l + 1..] == buffer[l + 1..];
  }

  lemma StepAppends(t: Tables, buffer: seq<Item<Span>>, written: seq<Mapped>, composee: Mapped, pending: seq<Mapped>, last: Option<nat>, x: Item<Span>)
    requires Represents(buffer, written, Some(composee), pending, last)
    requires (last.Some? && last.value >= x.ccc) || t.compose(composee.character, x.character).None?
    ensures x.ccc == 0 ==>
              Represents(ComposeStep(t, MergeSpans, buffer, x), written + [composee] + pending, Some(Plain(x)), [], None)
    ensures x.ccc != 0 && (last.Some? ==> last.value <= x.ccc) ==>
              Represents(ComposeStep(t, MergeSpans, buffer, x), written, Some(composee), pending + [Plain(x)], Some(x.ccc))
  {
    BlockedByLast(buffer, written, composee, pending, last, x.ccc);
    assert ComposeStep(t, MergeSpans, buffer, x) == buffer + [x];
    if x.ccc == 0 {
      WholeBuffer(buffer, written, composee, pending, last);
      AppendStarter(buffer, x);
    } else if last.Some? ==> last.value <= x.ccc {
      AppendNonStarter(buffer, written, composee, pending, last, x);
    }
  }

  lemma AppendStarter(buffer: seq<Item<Span>>, x: Item<Span>)
    requires x.ccc == 0
    ensures Represents(buffer + [x], Untyped(buffer), Some(Plain(x)), [], None)
  {
    AppendLast(buffer, x);
    assert (buffer + [x])[..|buffer|] == buffer;
  }

  lemma AppendNonStarter(buffer: seq<Item<Span>>, written: seq<Mapped>, composee: Mapped, pending: seq<Mapped>, last: Option<nat>, x: Item<Span>)
    requires Represents(buffer, written, Some(composee), pending, last)
    requires x.ccc != 0 && (last.Some? ==> last.value <= x.ccc)
    ensures Represents(buffer + [x], written, Some(composee), pending + [Plain(x)], Some(x.ccc))
  {
    AppendLast(buffer, x);
    hide LastStarter;
    hide SortedByClass;
    var l := LastStarter(buffer);
    var tail := buffer[l + 1..];
    assert (buffer + [x])[..l] == buffer[..l];
    assert (buffer + [x])[l + 1..] == tail + [x];
    SortedAppend(tail, x);
  }

  lemma SortedAppend<T>(xs: seq<Item<T>>, x: Item<T>)
    requires SortedByClass(xs)
    requires xs != [] ==> xs[|xs| - 1].ccc <= x.ccc
    ensures SortedByClass(xs + [x])
  {
  }

  lemma UntypedSplit(xs: seq<Item<Span>>, l: nat)
    requires l < |xs|
    ensures Untyped(xs) == Untyped(xs[..l]) + [Plain(xs[l])] + Untyped(xs[l + 1..])
  {
  }

  lemma WholeBuffer(buffer: seq<Item<Span>>, written: seq<Mapped>, composee: Mapped, pending: seq<Mapped>, last: Option<nat>)
    requires Represents(buffer, written, Some(composee), pending, last)
    ensures Untyped(buffer) == written + [composee] + pending
  {
    UntypedSplit(buffer, LastStarter(buffer));
  }

  /** What has left composition is final. */
  lemma WrittenIsSettled(buffer: seq<Item<Span>>, written: seq<Mapped>, composee: Option<Mapped>, pending: seq<Mapped>, last: Option<nat>)
    requires Represents(buffer, written, composee, pending, last)
    ensures written == Untyped(buffer[..Settled(buffer)])
  {
    assert buffer[..|buffer|] == buffer;
  }

  lemma PendingAndLast(buffer: seq<Item<Span>>, written: seq<Mapped>, composee: Option<Mapped>, pending: seq<Mapped>, last: Option<nat>)
    requires Represents(buffer, written, composee, pending, last)
    ensures pending == [] <==> last.None?
    ensures composee.None? ==> last.None?
  {
  }

  class MappedNfkc {
    const tables: Tables
    const source: seq<Mapped>
    var position: nat
    var decompositionPending: seq<Item<Span>>
    var nonstarterCount: nat
    var composee: Option<Mapped>
    var compositionPending: seq<Mapped>
    var lastCombiningClass: Option<nat>
    var output: seq<Mapped>
    var outputOffset: nat
    var finished: bool

    ghost var closed: seq<Item<Span>>  // what has been decomposed, up to and including the last starter
    ghost var buffer: seq<Item<Span>>  // the batch composition buffer for what has been handed to composition
    ghost var cleared: seq<Mapped>     // what has been cleared from `output`
    ghost var peak: nat                // the most characters either pending buffer has ever held

    /** The composition fields stand for `buffer`. */
    ghost predicate Composing()
      reads this`buffer, this`cleared, this`output, this`composee, this`compositionPending, this`lastCombiningClass, this`peak
    {
      Represents(buffer, cleared + output, composee, compositionPending, lastCombiningClass) && |compositionPending| <= peak
    }

    /** Everything up to the last starter has been reordered and composed; the rest is a pending run. */
    ghost predicate Decomposing()
      reads this`closed, this`buffer, this`decompositionPending, this`compositionPending, this`lastCombiningClass, this`peak
    {
      && EndsWithStarter(closed)
      && buffer == Compose(tables, MergeSpans, ReorderClosed(closed))
      && (forall i :: 0 <= i < |decompositionPending| ==>
            0 != decompositionPending[i].ccc == tables.ccc(decompositionPending[i].character))
      && lastCombiningClass.None? && compositionPending == []
      && |decompositionPending| <= peak <= LongestRun(closed + decompositionPending)
    }

    /** Every character decomposed so far. */
    ghost function Seen(): seq<Item<Span>>
      reads this`closed, this`decompositionPending
    {
      closed + decompositionPending
    }

    ghost predicate Valid()
      reads this
    {
      && position <= |source|
      && outputOffset <= |output|
      && (if finished then
            cleared + output == Normalized(tables, source) && peak <= LongestRun(Decomposed(tables, source, 0))
          else
            && Composing() && Decomposing()
            && Seen() + Decomposed(tables, source[position..], nonstarterCount)
            == Decomposed(tables, source, 0))
    }

    /** How many characters the caller has been given. */
    ghost function Emitted(): nat
      reads this
    {
      |cleared| + outputOffset
    }

    constructor (tables: Tables, text: seq<char>)
      ensures Valid() && Emitted() == 0
      ensures this.tables == tables && source == CharIndices(text, 0)
    {
      this.tables := tables;
      source := CharIndices(text, 0);
      position, nonstarterCount, outputOffset, finished := 0, 0, 0, false;
      decompositionPending, composee, compositionPending := [], None, [];
      lastCombiningClass, output := None, [];
      closed, buffer, cleared, peak := [], [], [], 0;
    }

    method PushRecomposition(character: Mapped)
      requires Composing()
      requires tables.ccc(character.character) != 0 && lastCombiningClass.Some? ==>
                 lastCombiningClass.value <= tables.ccc(character.character)
      modifies this`composee, this`compositionPending, this`lastCombiningClass, this`output, this`buffer, this`peak
      ensures Composing()
      ensures old(peak) <= peak <= Max(old(peak), |compositionPending|)
      ensures |compositionPending| <= if tables.ccc(character.character) == 0 then 0 else |old(compositionPending)| + 1
      ensures buffer == ComposeStep(tables, MergeSpans, old(buffer),
                                    Item(tables.ccc(character.character), character.character, character.tag))
      ensures old(output) <= output
      ensures tables.ccc(character.character) == 0 ==> lastCombiningClass.None?
      ensures lastCombiningClass == old(lastCombiningClass) || lastCombiningClass == Some(tables.ccc(character.character))
           || lastCombiningClass.None?
    {
      hide Represents;
      hide ComposeStep;
      PendingAndLast(buffer, cleared + output, composee, compositionPending, lastCombiningClass);
      var ccc := tables.ccc(character.character);
      ghost var x := Item(ccc, character.character, character.tag);
      ghost var before, written := buffer, cleared + output;
      buffer := ComposeStep(tables, MergeSpans, buffer, x);
      if composee.None? {
        StepBeforeStarter(tables, before, written, x);
        if ccc == 0 {
          composee := Some(character);
        } else {
          output := output + [character];
          assert cleared + output == written + [character];
        }
        return;
      }
      var composition := match lastCombiningClass
        case None => tables.compose(composee.value.character, character.character)
        case Some(last) =>
          if last < ccc then tables.compose(composee.value.character, character.character) else None;
      if composition.Some? {
        StepComposes(tables, before, written, composee.value, compositionPending, lastCombiningClass, x);
        composee := Some(Tagged(composition.value, MergeSpans(composee.value.tag, character.tag)));
        return;
      }
      StepAppends(tables, before, written, composee.value, compositionPending, lastCombiningClass, x);
      if ccc == 0 {
        output := output + [composee.value] + compositionPending;
        assert cleared + output == written + [composee.value] + compositionPending;
        compositionPending := [];
        composee := Some(character);
        lastCombiningClass := None;
      } else {
        compositionPending := compositionPending + [character];
        peak := Max(peak, |compositionPending|);
        lastCombiningClass := Some(ccc);
      }
    }

    /** Sorts the pending run and hands it to composition. */
    method FlushDecomposition()
      requires Composing() && Decomposing()
      modifies this`composee, this`compositionPending, this`lastCombiningClass, this`output, this`buffer,
               this`decompositionPending, this`peak
      ensures Composing() && decompositionPending == []
      ensures old(peak) <= peak <= LongestRun(closed + old(decompositionPending))
      ensures buffer == Compose(tables, MergeSpans, ReorderClosed(closed) + StableSort(old(decompositionPending)))
      ensures old(output) <= output
    {
      hide Represents;
      hide ComposeStep;
      hide ReorderClosed;
      hide StableSort;
      hide ComposeFrom;
      TailOfRun(closed, decompositionPending);
      assert |decompositionPending| <= LongestRun(closed + decompositionPending);
      hide LongestRun;
      var pending := StableSort(decompositionPending);
      ghost var ordered := ReorderClosed(closed);
      SortKeepsMeaning(decompositionPending, tables);
      decompositionPending := [];
      var i := 0;
      ComposeFromTake(tables, buffer, pending, 0);
      while i < |pending|
        invariant 0 <= i <= |pending|
        invariant Composing() && decompositionPending == []
        invariant buffer == ComposeFrom(tables, MergeSpans, old(buffer), pending[..i])
        invariant lastCombiningClass.Some? ==> i > 0 && lastCombiningClass.value <= pending[i - 1].ccc
        invariant old(output) <= output
        invariant |compositionPending| <= i && old(peak) <= peak <= LongestRun(closed + old(decompositionPending))
      {
        PushRecomposition(Plain(pending[i]));
        ComposeFromTake(tables, old(buffer), pending, i + 1);
        i := i + 1;
      }
      assert pending[..|pending|] == pending;
      ComposeFromSplit(tables, MergeSpans, [], ordered, pending);
    }

    method PushDecomposed(character: Mapped)
      requires Composing() && Decomposing()
      modifies this`composee, this`compositionPending, this`lastCombiningClass, this`output, this`buffer,
               this`decompositionPending, this`closed, this`peak
      ensures Composing() && Decomposing()
      ensures Seen() == old(Seen())
              + [Item(tables.ccc(character.character), character.character, character.tag)]
      ensures old(output) <= output
      ensures old(peak) <= peak
    {
      hide Represents;
      hide ComposeStep;
      hide ReorderClosed;
      hide StableSort;
      var ccc := tables.ccc(character.character);
      var x := Item(ccc, character.character, character.tag);
      if ccc == 0 {
        ghost var run := decompositionPending;
        FlushDecomposition();
        PushRecomposition(character);
        PendingAndLast(buffer, cleared + output, composee, compositionPending, lastCombiningClass);
        CloseRun(closed, run, x);
        ComposeAppend(tables, ReorderClosed(closed) + StableSort(run), x);
        LongestRunPrefix(closed + run, [x]);
        closed := closed + run + [x];
        assert closed + [] == closed;
      } else {
        LongestRunPrefix(Seen(), [x]);
        decompositionPending := decompositionPending + [x];
        peak := Max(peak, |decompositionPending|);
        TailOfRun(closed, decompositionPending);
        assert Seen() == old(Seen()) + [x];
      }
    }

    method Finish()
      requires Valid() && !finished && position == |source|
      modifies this
      ensures Valid() && finished && position == old(position)
      ensures cleared == old(cleared) && outputOffset == old(outputOffset) && old(output) <= output
      ensures old(peak) <= peak
    {
      hide Represents;
      hide Reorder;
      hide ReorderClosed;
      hide StableSort;
      hide Decomposed;
      hide Compose;
      assert source[position..] == [];
      DecomposedStep(tables, source[position..], nonstarterCount);
      assert Seen() == Decomposed(tables, source, 0);
      hide LongestRun;
      OpenRun(closed, decompositionPending);
      FlushDecomposition();
      ghost var written := cleared + output;
      FinalBuffer(buffer, written, composee, compositionPending, lastCombiningClass);
      if composee.Some? {
        output := output + [composee.value];
        composee := None;
      }
      output := output + compositionPending;
      compositionPending := [];
      finished := true;
      assert cleared + output == Untyped(buffer);
    }

    /** Pushes the whole decomposition of one source character. */
    method PushAll(decomposed: seq<char>, span: Span)
      requires Composing() && Decomposing()
      modifies this`composee, this`compositionPending, this`lastCombiningClass, this`output, this`buffer,
               this`decompositionPending, this`closed, this`peak
      ensures Composing() && Decomposing()
      ensures Seen() == old(Seen()) + Items(tables, decomposed, span)
      ensures old(output) <= output
      ensures old(peak) <= peak
    {
      hide Represents;
      hide ReorderClosed;
      hide Compose;
      ghost var start := Seen();
      ghost var own := Items(tables, decomposed, span);
      hide Items;
      var i := 0;
      while i < |decomposed|
        invariant 0 <= i <= |decomposed|
        invariant Composing() && Decomposing()
        invariant Seen() == start + own[..i]
        invariant old(output) <= output && old(peak) <= peak
      {
        PushDecomposed(Tagged(decomposed[i], span));
        assert own[..i + 1] == own[..i] + [own[i]];
        i := i + 1;
      }
      assert own[..|own|] == own;
    }

    /** Pushes one source character, joined if its leading non-starters would pass the limit. */
    method PushCharacter(current: Mapped)
      requires Composing() && Decomposing()
      modifies this`composee, this`compositionPending, this`lastCombiningClass, this`output, this`buffer,
               this`decompositionPending, this`closed, this`nonstarterCount, this`peak
      ensures Composing() && Decomposing()
      ensures var d := tables.decompose(current.character);
              && Seen() == old(Seen()) + Piece(tables, old(nonstarterCount), d, current.tag)
              && nonstarterCount == CountAfter(tables, old(nonstarterCount), d)
      ensures old(output) <= output
      ensures old(peak) <= peak
    {
      hide Represents;
      hide ReorderClosed;
      hide EndsWithStarter;
      hide Compose;
      hide Items;
      hide Seen;
      hide Composing;
      hide Decomposing;
      hide Leading;
      hide Trailing;
      hide LongestRun;
      var decomposed := tables.decompose(current.character);
      var leading := Leading(tables, decomposed);
      if nonstarterCount + leading > MAX_NONSTARTERS {
        PushAll([COMBINING_GRAPHEME_JOINER], current.tag);
        nonstarterCount := 0;
      }
      if leading == |decomposed| {
        nonstarterCount := nonstarterCount + |decomposed|;
      } else {
        nonstarterCount := Trailing(tables, decomposed);
      }
      PushAll(decomposed, current.tag);
    }

    /** Consumes the next source character. */
    method Advance()
      requires Valid() && !finished && position < |source|
      modifies this
      ensures Valid() && !finished && position == old(position) + 1
      ensures cleared == old(cleared) && outputOffset == old(outputOffset) && old(output) <= output
      ensures old(peak) <= peak
    {
      hide Represents;
      hide ReorderClosed;
      hide EndsWithStarter;
      hide Compose;
      hide Decomposed;
      hide Piece;
      hide CountAfter;
      hide Seen;
      var current := source[position];
      ghost var count := nonstarterCount;
      DecomposedStep(tables, source[position..], count);
      position := position + 1;
      assert source[old(position)..][1..] == source[position..];
      PushCharacter(current);
    }

    /** Hands out the next character of the normalized text, or nothing once the text is exhausted. */
    method Next() returns (r: Option<Mapped>)
      requires Valid()
      modifies this
      ensures Valid()
      ensures old(Emitted()) <= |Normalized(tables, source)|
      ensures r == if old(Emitted()) == |Normalized(tables, source)| then None
                   else Some(Normalized(tables, source)[old(Emitted())])
      ensures Emitted() == old(Emitted()) + if r.Some? then 1 else 0
      ensures old(peak) <= peak
    {
      hide Represents;
      hide Normalized;
      hide Compose;
      hide Decomposed;
      hide ReorderClosed;
      while true
        invariant Valid() && Emitted() == old(Emitted()) && old(peak) <= peak
        decreases |source| - position, !finished, |output|
      {
        OutputIsFinal();
        if outputOffset < |output| {
          r := Some(output[outputOffset]);
          assert (cleared + output)[Emitted()] == output[outputOffset];
          outputOffset := outputOffset + 1;
          return;
        }
        cleared := cleared + output;
        output := [];
        outputOffset := 0;
        assert cleared + output == cleared;
        if finished {
          return None;
        }
        if position < |source| {
          Advance();
        } else {
          Finish();
        }
      }
    }

    /** What has left composition is final: later input cannot change it. */
    lemma OutputIsFinal()
      requires Valid()
      ensures cleared + output <= Normalized(tables, source)
    {
      hide Represents;
      hide ReorderClosed;
      hide Reorder;
      hide Decomposed;
      hide Compose;
      hide Untyped;
      if !finished {
        var rest := decompositionPending + Decomposed(tables, source[position..], nonstarterCount);
        assert Decomposed(tables, source, 0) == closed + rest;
        WrittenIsSettled(buffer, cleared + output, composee, compositionPending, lastCombiningClass);
        SettledIsFinal(tables, closed, rest);
      }
    }
  }

  lemma DecomposedStep(t: Tables, source: seq<Mapped>, count: nat)
    ensures source == [] ==> Decomposed(t, source, count) == []
    ensures source != [] ==>
              var d := t.decompose(source[0].character);
              Decomposed(t, source, count)
              == Piece(t, count, d, source[0].tag) + Decomposed(t, source[1..], CountAfter(t, count, d))
  {
  }

  lemma ComposeFromTake(t: Tables, out: seq<Item<Span>>, xs: seq<Item<Span>>, i: nat)
    requires i <= |xs|
    ensures ComposeFrom(t, MergeSpans, out, xs[..i])
         == if i == 0 then out else ComposeStep(t, MergeSpans, ComposeFrom(t, MergeSpans, out, xs[..i - 1]), xs[i - 1])
  {
    assert i > 0 ==> xs[..i][..i - 1] == xs[..i - 1];
  }

  lemma ComposeAppend(t: Tables, xs: seq<Item<Span>>, x: Item<Span>)
    ensures Compose(t, MergeSpans, xs + [x]) == ComposeStep(t, MergeSpans, Compose(t, MergeSpans, xs), x)
  {
    assert (xs + [x])[..|xs|] == xs;
  }

  lemma FinalBuffer(buffer: seq<Item<Span>>, written: seq<Mapped>, composee: Option<Mapped>, pending: seq<Mapped>, last: Option<nat>)
    requires Represents(buffer, written, composee, pending, last)
    ensures Untyped(buffer) == written + (if composee.Some? then [composee.value] else []) + pending
  {
    if composee.Some? {
      WholeBuffer(buffer, written, composee.value, pending, last);
    }
  }

  lemma SettledIsFinal(t: Tables, closed: seq<Item<Span>>, rest: seq<Item<Span>>)
    requires EndsWithStarter(closed)
    ensures var buffer := Compose(t, MergeSpans, ReorderClosed(closed));
            Untyped(buffer[..Settled(buffer)]) <= Untyped(Compose(t, MergeSpans, Reorder(closed + rest)))
  {
    hide Reorder;
    hide ReorderClosed;
    hide Settled;
    hide ComposeStep;
    ReorderPrefix(closed, rest);
    var ordered := ReorderClosed(closed);
    var later := Reorder(closed + rest)[|ordered|..];
    assert Reorder(closed + rest) == ordered + later;
    ComposeFromSplit(t, MergeSpans, [], ordered, later);
    ComposeKeepsSettled(t, MergeSpans, Compose(t, MergeSpans, ordered), later);
    var buffer := Compose(t, MergeSpans, ordered);
    var all := Compose(t, MergeSpans, ordered + later);
    assert Untyped(all)[..Settled(buffer)] == Untyped(all[..Settled(buffer)]);
  }

  lemma {:induction false} SortKeepsMeaning(xs: seq<Item<Span>>, t: Tables)
    requires forall i :: 0 <= i < |xs| ==> 0 != xs[i].ccc == t.ccc(xs[i].character)
    ensures forall i :: 0 <= i < |xs| ==> 0 != StableSort(xs)[i].ccc == t.ccc(StableSort(xs)[i].character)
  {
    if xs != [] {
      SortKeepsMeaning(xs[1..], t);
      InsertKeepsMeaning(xs[0], StableSort(xs[1..]), t);
    }
  }

  lemma {:induction false} InsertKeepsMeaning(x: Item<Span>, xs: seq<Item<Span>>, t: Tables)
    requires SortedByClass(xs)
    requires 0 != x.ccc == t.ccc(x.character)
    requires forall i :: 0 <= i < |xs| ==> 0 != xs[i].ccc == t.ccc(xs[i].character)
    ensures forall i :: 0 <= i < |Insert(x, xs)| ==> 0 != Insert(x, xs)[i].ccc == t.ccc(Insert(x, xs)[i].character)
  {
    if xs != [] && xs[0].ccc < x.ccc {
      InsertKeepsMeaning(x, xs[1..], t);
    }
  }
}
