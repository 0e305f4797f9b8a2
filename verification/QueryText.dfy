/** How many terms a query text can produce: the tokenizer's runs and the byte scan that bounds them. */
module QueryText {
  import opened Wrappers
  import opened SearchAst

  const MAX_TOKEN_CHARACTERS := 40

  type Bytes = seq<byte>

  predicate Alphanumeric(b: byte) { 48 <= b <= 57 || 65 <= b <= 90 || 97 <= b <= 122 }

  predicate IsAscii(text: Bytes) { forall i :: 0 <= i < |text| ==> text[i] < 0x80 }

  predicate EndsInRun(text: Bytes) { text != [] && Alphanumeric(text[|text| - 1]) }

  /** The maximal alphanumeric runs of an ASCII text, each cut to its leading characters. */
  function Runs(text: Bytes): (r: seq<Bytes>)
    ensures EndsInRun(text) ==> r != []
  {
    if text == [] then []
    else
      var front, last := text[..|text| - 1], text[|text| - 1];
      var before := Runs(front);
      if !Alphanumeric(last) then before
      else if EndsInRun(front) then
        var run := before[|before| - 1];
        before[..|before| - 1] + [Extended(run, last)]
      else before + [[last]]
  }

  /** What one more byte does to the runs. */
  lemma RunsStep(text: Bytes, k: nat)
    requires k < |text|
    ensures EndsInRun(text[..k + 1]) <==> Alphanumeric(text[k])
    ensures !Alphanumeric(text[k]) ==> Runs(text[..k + 1]) == Runs(text[..k])
    ensures Alphanumeric(text[k]) && !EndsInRun(text[..k]) ==> Runs(text[..k + 1]) == Runs(text[..k]) + [[text[k]]]
    ensures Alphanumeric(text[k]) && EndsInRun(text[..k]) ==>
      var r := Runs(text[..k]);
      Runs(text[..k + 1]) == r[..|r| - 1] + [Extended(r[|r| - 1], text[k])]
  {
    assert text[..k + 1][..k] == text[..k];
  }

  function Extended(run: Bytes, b: byte): Bytes { if |run| < MAX_TOKEN_CHARACTERS then run + [b] else run }

  lemma LastRun(before: seq<Bytes>, token: Bytes)
    ensures (before + [token])[..|before + [token]| - 1] == before && (before + [token])[|before + [token]| - 1] == token
  {
  }

  /** The tokenizer over ASCII text: skip to a run, then take it. */
  method Tokenize(text: Bytes) returns (tokens: seq<Bytes>)
    ensures tokens == Runs(text)
  {
    tokens := [];
    var k := 0;
    assert Runs(text[..0]) == [];
    hide Runs, EndsInRun;
    while k < |text|
      invariant k <= |text|
      invariant tokens == Runs(text[..k]) && (k < |text| ==> !EndsInRun(text[..k]))
    {
      RunsStep(text, k);
      if !Alphanumeric(text[k]) {
        k := k + 1;
        continue;
      }
      ghost var before := tokens;
      var token := [text[k]];
      k := k + 1;
      while k < |text| && Alphanumeric(text[k])
        invariant k <= |text| && EndsInRun(text[..k])
        invariant before + [token] == Runs(text[..k])
        decreases |text| - k
      {
        RunsStep(text, k);
        LastRun(before, token);
        token := Extended(token, text[k]);
        k := k + 1;
      }
      tokens := tokens + [token];
      if k < |text| {
        RunsStep(text, k);
        k := k + 1;
      }
    }
    assert text[..k] == text;
  }

  /** The scan that never builds a token counts exactly the runs, and gives up on the first byte outside ASCII. */
  method AsciiQueryTermUpper(text: Bytes) returns (r: Option<nat>)
    ensures r == if IsAscii(text) then Some(|Runs(text)|) else None
  {
    var terms: nat := 0;
    var inTerm := false;
    var k := 0;
    assert Runs(text[..0]) == [] && !EndsInRun(text[..0]);
    hide Runs, EndsInRun;
    while k < |text|
      invariant k <= |text| && IsAscii(text[..k])
      invariant terms == |Runs(text[..k])| && inTerm == EndsInRun(text[..k])
    {
      RunsStep(text, k);
      if text[k] >= 0x80 { return None; }
      var alphanumeric := Alphanumeric(text[k]);
      if alphanumeric && !inTerm { terms := terms + 1; }
      inTerm := alphanumeric;
      k := k + 1;
    }
    assert text[..k] == text;
    r := Some(terms);
  }

  // ---- what a run is ----

  /** A maximal stretch of alphanumeric bytes. */
  predicate IsRun(text: Bytes, start: nat, end: nat) {
    && start < end <= |text| && (forall i :: start <= i < end ==> Alphanumeric(text[i]))
    && (start > 0 ==> !Alphanumeric(text[start - 1])) && (end < |text| ==> !Alphanumeric(text[end]))
  }

  /** The token is the first 40 bytes of the run at this place. */
  predicate TokenOfRun(text: Bytes, token: Bytes, place: (nat, nat)) {
    IsRun(text, place.0, place.1) && token == text[place.0..Min(place.0 + 40, place.1)]
  }

  predicate InSome(places: seq<(nat, nat)>, k: nat) { exists i :: 0 <= i < |places| && places[i].0 <= k < places[i].1 }

  /** The tokens are those of the runs at these places, in order, and no alphanumeric byte is outside them. */
  ghost predicate TokensOfRuns(text: Bytes, tokens: seq<Bytes>, places: seq<(nat, nat)>) {
    && |places| == |tokens|
    && (forall i :: 0 <= i < |places| ==> TokenOfRun(text, tokens[i], places[i]))
    && (forall i, j :: 0 <= i < j < |places| ==> places[i].1 < places[j].0)
    && (forall k: nat :: k < |text| && Alphanumeric(text[k]) ==> InSome(places, k))
  }

  lemma TokenLater(text: Bytes, last: byte, token: Bytes, place: (nat, nat))
    requires TokenOfRun(text, token, place)
    ensures place.1 <= |text|
    ensures place.1 < |text| || !Alphanumeric(last) ==> TokenOfRun(text + [last], token, place)
    ensures place.1 == |text| && Alphanumeric(last) ==> TokenOfRun(text + [last], Extended(token, last), (place.0, place.1 + 1))
  {
    assert (text + [last])[place.0..Min(place.0 + 40, place.1)] == text[place.0..Min(place.0 + 40, place.1)];
  }

  lemma TokenNew(text: Bytes, last: byte)
    requires Alphanumeric(last) && !EndsInRun(text)
    ensures TokenOfRun(text + [last], [last], (|text|, |text| + 1))
  {
  }

  /** A run that ends where a text ends in none ends before it. */
  lemma EndsEarlier(text: Bytes, token: Bytes, place: (nat, nat))
    requires TokenOfRun(text, token, place) && !EndsInRun(text)
    ensures place.1 < |text|
  {
  }

  lemma NewPlaces(text: Bytes, last: byte, tokens: seq<Bytes>, places: seq<(nat, nat)>)
    requires TokensOfRuns(text, tokens, places) && Alphanumeric(last) && !EndsInRun(text)
    ensures TokensOfRuns(text + [last], tokens + [[last]], places + [(|text|, |text| + 1)])
  {
    TokenNew(text, last);
    forall i | 0 <= i < |places| ensures TokenOfRun(text + [last], tokens[i], places[i]) && places[i].1 < |text| {
      TokenLater(text, last, tokens[i], places[i]);
      EndsEarlier(text, tokens[i], places[i]);
    }
    hide TokenOfRun, EndsInRun;
    forall k: nat | k < |text + [last]| && Alphanumeric((text + [last])[k]) ensures InSome(places + [(|text|, |text| + 1)], k) {
      MorePlaces(places, (|text|, |text| + 1), k);
      if k < |text| { assert (text + [last])[k] == text[k]; }
    }
    hide InSome;
  }

  lemma MorePlaces(places: seq<(nat, nat)>, p: (nat, nat), k: nat)
    ensures InSome(places + [p], k) <==> InSome(places, k) || p.0 <= k < p.1
  {
    if i :| 0 <= i < |places| && places[i].0 <= k < places[i].1 { assert (places + [p])[i] == places[i]; }
    assert (places + [p])[|places|] == p;
  }

  lemma SamePlaces(text: Bytes, last: byte, tokens: seq<Bytes>, places: seq<(nat, nat)>)
    requires TokensOfRuns(text, tokens, places) && !Alphanumeric(last)
    ensures TokensOfRuns(text + [last], tokens, places)
  {
    forall i | 0 <= i < |places| ensures TokenOfRun(text + [last], tokens[i], places[i]) { TokenLater(text, last, tokens[i], places[i]); }
    hide TokenOfRun, InSome;
  }

  /** The last run of a text that ends in one reaches its end. */
  lemma LastPlace(text: Bytes, tokens: seq<Bytes>, places: seq<(nat, nat)>)
    requires TokensOfRuns(text, tokens, places) && EndsInRun(text)
    ensures places != [] && places[|places| - 1].1 == |text|
  {
    assert InSome(places, |text| - 1);
    var i :| 0 <= i < |places| && places[i].0 <= |text| - 1 < places[i].1;
    var n := |places| - 1;
    assert places[i].1 <= places[n].1 <= |text| by {
      assert TokenOfRun(text, tokens[n], places[n]) && TokenOfRun(text, tokens[i], places[i]);
    }
  }

  lemma LongerPlaces(text: Bytes, last: byte, tokens: seq<Bytes>, token: Bytes, places: seq<(nat, nat)>, start: nat)
    requires TokensOfRuns(text, tokens + [token], places + [(start, |text|)]) && Alphanumeric(last)
    ensures TokensOfRuns(text + [last], tokens + [Extended(token, last)], places + [(start, |text| + 1)])
  {
    var before, after := places + [(start, |text|)], places + [(start, |text| + 1)];
    assert before[|places|] == (start, |text|) && (tokens + [token])[|tokens|] == token;
    TokenLater(text, last, token, (start, |text|));
    forall i | 0 <= i < |places| ensures TokenOfRun(text + [last], tokens[i], places[i]) && places[i].1 < start {
      assert before[i] == places[i] && (tokens + [token])[i] == tokens[i];
      assert before[i].1 < before[|places|].0;
      assert TokenOfRun(text, token, (start, |text|));
      TokenLater(text, last, tokens[i], places[i]);
    }
    forall i, j | 0 <= i < j < |after| ensures after[i].1 < after[j].0 { assert before[i].1 < before[j].0; }
    hide TokenOfRun, Extended;
    forall k: nat | k < |text + [last]| && Alphanumeric((text + [last])[k]) ensures InSome(after, k) {
      MorePlaces(places, (start, |text|), k);
      MorePlaces(places, (start, |text| + 1), k);
      if k < |text| { assert (text + [last])[k] == text[k]; } else { StartsBefore(text, tokens + [token], before, |places|); }
    }
    hide InSome;
  }

  lemma StartsBefore(text: Bytes, tokens: seq<Bytes>, places: seq<(nat, nat)>, i: nat)
    requires TokensOfRuns(text, tokens, places) && i < |places|
    ensures places[i].0 < places[i].1 <= |text|
  {
    assert TokenOfRun(text, tokens[i], places[i]);
  }

  lemma GrownPlaces(text: Bytes, last: byte, tokens: seq<Bytes>, places: seq<(nat, nat)>) returns (more: seq<(nat, nat)>)
    requires TokensOfRuns(text, tokens, places) && Alphanumeric(last) && EndsInRun(text) && tokens != []
    ensures TokensOfRuns(text + [last], tokens[..|tokens| - 1] + [Extended(tokens[|tokens| - 1], last)], more)
  {
    LastPlace(text, tokens, places);
    var n := |places| - 1;
    assert |tokens| == |places|;
    hide TokensOfRuns, EndsInRun, Extended;
    assert places == places[..n] + [(places[n].0, |text|)] && tokens == tokens[..n] + [tokens[n]];
    LongerPlaces(text, last, tokens[..n], tokens[n], places[..n], places[n].0);
    more := places[..n] + [(places[n].0, |text| + 1)];
  }

  /** The tokens of an ASCII text: its maximal alphanumeric runs, all of them, in order, each cut to 40 bytes. */
  lemma {:induction false} RunsAreMaximal(text: Bytes) returns (places: seq<(nat, nat)>)
    ensures TokensOfRuns(text, Runs(text), places)
  {
    if text == [] {
      places := [];
    } else {
      var n := |text| - 1;
      var front, last := text[..n], text[n];
      var before := RunsAreMaximal(front);
      RunsStep(text, n);
      assert text == front + [last] && text[..n + 1] == text;
      assert EndsInRun(front) ==> Runs(front) != [];
      hide TokensOfRuns, EndsInRun, Runs;
      if !Alphanumeric(last) {
        SamePlaces(front, last, Runs(front), before);
        places := before;
      } else if EndsInRun(front) {
        places := GrownPlaces(front, last, Runs(front), before);
      } else {
        NewPlaces(front, last, Runs(front), before);
        places := before + [(|front|, |front| + 1)];
      }
    }
  }

  function TermUpper(text: Bytes): Option<nat> { if IsAscii(text) then Some(|Runs(text)|) else None }
}
