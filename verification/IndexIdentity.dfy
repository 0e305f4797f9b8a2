/** The persisted identity of an index: its byte form in the three emitted versions, and the recovery of the index ID
    from any persisted form. */
module IndexIdentity {
  import opened Wrappers
  import opened SearchAst
  import opened Codec

  type Text = Bytes

  datatype FilterKind = StringFilter | NumberFilter | BooleanFilter

  datatype Filter = Filter(name: Text, kind: FilterKind)

  datatype Rule = Rule(source: Text, replacements: seq<Text>)

  /** A canonical identity; field weights are configuration and are not persisted. */
  datatype Identity = Identity(
    indexId: Text, generation: Text, analyzer: Text, stopWords: bool, positions: bool, surfaceTerms: bool,
    synonyms: seq<Rule>, fields: seq<Text>, filters: seq<Filter>)

  datatype Config = Config(identity: Identity, weights: seq<word>)

  predicate IsText(t: Text) { |t| < 0x1_0000_0000 && IsUtf8(t) }

  predicate AllTexts(ts: seq<Text>) { |ts| < 0x1_0000 && forall i :: 0 <= i < |ts| ==> IsText(ts[i]) }

  predicate IsRule(r: Rule) { IsText(r.source) && AllTexts(r.replacements) }

  predicate Valid(c: Identity) {
    && IsText(c.indexId) && IsText(c.generation) && IsText(c.analyzer)
    && |c.synonyms| < 0x1_0000 && (forall i :: 0 <= i < |c.synonyms| ==> IsRule(c.synonyms[i]))
    && AllTexts(c.fields)
    && |c.filters| < 0x1_0000 && forall i :: 0 <= i < |c.filters| ==> IsText(c.filters[i].name)
  }

  // ---- lists of encodable things ----

  /** A form with its parser: what is parsed is the form followed by the rest, and every form parses back. */
  ghost predicate Inverse<X(!new)>(ok: X -> bool, put: X -> Bytes, take: Bytes -> Option<(X, Bytes)>) {
    && (forall s :: take(s).Some? ==> ok(take(s).value.0) && s == put(take(s).value.0) + take(s).value.1)
    && (forall x, rest :: ok(x) ==> take(put(x) + rest) == Some((x, rest)))
  }

  function PutMany<X>(put: X -> Bytes, xs: seq<X>): Bytes {
    if xs == [] then [] else PutMany(put, xs[..|xs| - 1]) + put(xs[|xs| - 1])
  }

  function TakeMany<X>(take: Bytes -> Option<(X, Bytes)>, s: Bytes, n: nat): (r: Option<(seq<X>, Bytes)>)
    ensures r.Some? ==> |r.value.0| == n
  {
    if n == 0 then Some(([], s))
    else
      var before := TakeMany(take, s, n - 1);
      if before.None? then None
      else
        var last := take(before.value.1);
        if last.None? then None else Some((before.value.0 + [last.value.0], last.value.1))
  }

  lemma {:induction false} ManySound<X(!new)>(ok: X -> bool, put: X -> Bytes, take: Bytes -> Option<(X, Bytes)>, s: Bytes, n: nat)
    requires Inverse(ok, put, take) && TakeMany(take, s, n).Some?
    ensures var (xs, rest) := TakeMany(take, s, n).value; (forall i :: 0 <= i < n ==> ok(xs[i])) && s == PutMany(put, xs) + rest
  {
    if n == 0 {
      assert [] + s == s;
    } else {
      ManySound(ok, put, take, s, n - 1);
      var (front, middle) := TakeMany(take, s, n - 1).value;
      var (last, rest) := take(middle).value;
      assert (front + [last])[..n - 1] == front;
      Assoc(PutMany(put, front), put(last), rest);
    }
  }

  lemma {:induction false} ManyComplete<X(!new)>(ok: X -> bool, put: X -> Bytes, take: Bytes -> Option<(X, Bytes)>, xs: seq<X>, rest: Bytes)
    requires Inverse(ok, put, take) && forall i :: 0 <= i < |xs| ==> ok(xs[i])
    ensures TakeMany(take, PutMany(put, xs) + rest, |xs|) == Some((xs, rest))
  {
    if xs == [] {
      assert [] + rest == rest;
    } else {
      var front, last := xs[..|xs| - 1], xs[|xs| - 1];
      ManyComplete(ok, put, take, front, put(last) + rest);
      Assoc(PutMany(put, front), put(last), rest);
      assert xs == front + [last];
    }
  }

  /** A counted list: its length in two bytes, then its members. */
  function PutCounted<X>(put: X -> Bytes, xs: seq<X>): Bytes { if |xs| < 0x1_0000 then Put16(|xs|) + PutMany(put, xs) else [] }

  function TakeCounted<X>(take: Bytes -> Option<(X, Bytes)>, s: Bytes): Option<(seq<X>, Bytes)> {
    var n := Take16(s);
    if n.None? then None else TakeMany(take, n.value.1, n.value.0)
  }

  lemma CountedSound<X(!new)>(ok: X -> bool, put: X -> Bytes, take: Bytes -> Option<(X, Bytes)>, s: Bytes)
    requires Inverse(ok, put, take) && TakeCounted(take, s).Some?
    ensures var (xs, rest) := TakeCounted(take, s).value;
      |xs| < 0x1_0000 && (forall i :: 0 <= i < |xs| ==> ok(xs[i])) && s == PutCounted(put, xs) + rest
  {
    var (n, s1) := Take16(s).value;
    Take16Iff(s, n, s1);
    ManySound(ok, put, take, s1, n);
    var (xs, rest) := TakeMany(take, s1, n).value;
    hide Put16, Take16;
    Assoc(Put16(n), PutMany(put, xs), rest);
  }

  lemma CountedComplete<X(!new)>(ok: X -> bool, put: X -> Bytes, take: Bytes -> Option<(X, Bytes)>, xs: seq<X>, rest: Bytes)
    requires Inverse(ok, put, take) && |xs| < 0x1_0000 && forall i :: 0 <= i < |xs| ==> ok(xs[i])
    ensures TakeCounted(take, PutCounted(put, xs) + rest) == Some((xs, rest))
  {
    ManyComplete(ok, put, take, xs, rest);
    hide Put16, Take16;
    var tail := PutMany(put, xs) + rest;
    Assoc(Put16(|xs|), PutMany(put, xs), rest);
    Take16Iff(Put16(|xs|) + tail, |xs|, tail);
  }

  // ---- strings, rules and filters ----

  function PutText(t: Text): Bytes { if |t| < 0x1_0000_0000 then Put32(|t|) + t else [] }

  function TakeText(s: Bytes): Option<(Text, Bytes)> {
    var n := Take32(s);
    if n.None? then None
    else
      var t := Take(n.value.1, n.value.0);
      if t.None? || !IsUtf8(t.value.0) then None else t
  }

  lemma TextInverse()
    ensures Inverse(IsText, PutText, TakeText)
  {
    hide IsUtf8, Put32, Take32;
    forall s | TakeText(s).Some? ensures IsText(TakeText(s).value.0) && s == PutText(TakeText(s).value.0) + TakeText(s).value.1 {
      var (n, s1) := Take32(s).value;
      Take32Iff(s, n, s1);
      Assoc(Put32(n), TakeText(s).value.0, TakeText(s).value.1);
    }
    forall t, rest: Bytes | IsText(t) ensures TakeText(PutText(t) + rest) == Some((t, rest)) {
      Assoc(Put32(|t|), t, rest);
      Take32Iff(Put32(|t|) + (t + rest), |t|, t + rest);
      assert (t + rest)[..|t|] == t && (t + rest)[|t|..] == rest;
    }
  }

  function PutRule(r: Rule): Bytes { PutText(r.source) + PutCounted(PutText, r.replacements) }

  function TakeRule(s: Bytes): Option<(Rule, Bytes)> {
    var source := TakeText(s);
    if source.None? then None
    else
      var replacements := TakeCounted(TakeText, source.value.1);
      if replacements.None? then None else Some((Rule(source.value.0, replacements.value.0), replacements.value.1))
  }

  lemma RuleInverse()
    ensures Inverse(IsRule, PutRule, TakeRule)
  {
    TextInverse();
    hide TakeText, PutText, PutCounted, TakeCounted, IsText;
    forall s | TakeRule(s).Some? ensures IsRule(TakeRule(s).value.0) && s == PutRule(TakeRule(s).value.0) + TakeRule(s).value.1 {
      var (source, s1) := TakeText(s).value;
      CountedSound(IsText, PutText, TakeText, s1);
      var (replacements, rest) := TakeCounted(TakeText, s1).value;
      Assoc(PutText(source), PutCounted(PutText, replacements), rest);
    }
    forall r, rest: Bytes | IsRule(r) ensures TakeRule(PutRule(r) + rest) == Some((r, rest)) {
      CountedComplete(IsText, PutText, TakeText, r.replacements, rest);
      Assoc(PutText(r.source), PutCounted(PutText, r.replacements), rest);
    }
  }

  function KindByte(k: FilterKind): byte { match k case StringFilter => 0 case NumberFilter => 1 case BooleanFilter => 2 }

  function ByteKind(b: byte): FilterKind
    requires b <= 2
  {
    if b == 0 then StringFilter else if b == 1 then NumberFilter else BooleanFilter
  }

  function PutFilter(f: Filter): Bytes { PutText(f.name) + [KindByte(f.kind)] }

  function TakeFilter(s: Bytes): Option<(Filter, Bytes)> {
    var name := TakeText(s);
    if name.None? then None
    else
      var k := TakeByte(name.value.1);
      if k.None? || k.value.0 > 2 then None else Some((Filter(name.value.0, ByteKind(k.value.0)), k.value.1))
  }

  predicate IsFilter(f: Filter) { IsText(f.name) }

  lemma FilterInverse()
    ensures Inverse(IsFilter, PutFilter, TakeFilter)
  {
    TextInverse();
    hide TakeText, PutText, IsText;
    forall s | TakeFilter(s).Some? ensures IsFilter(TakeFilter(s).value.0) && s == PutFilter(TakeFilter(s).value.0) + TakeFilter(s).value.1 {
      var (name, s1) := TakeText(s).value;
      Uncons(s1);
      Assoc(PutText(name), [s1[0]], s1[1..]);
    }
    forall f, rest: Bytes | IsFilter(f) ensures TakeFilter(PutFilter(f) + rest) == Some((f, rest)) {
      Assoc(PutText(f.name), [KindByte(f.kind)], rest);
      Cons(KindByte(f.kind), rest);
    }
  }

  // ---- the body of an identity ----

  datatype Flags = Flags(stopWords: bool, positions: bool, surfaceTerms: bool)

  function PutFlags(f: Flags): Bytes {
    [if f.stopWords then 1 else 0, if f.positions then 1 else 0, if f.surfaceTerms then 1 else 0]
  }

  function TakeFlags(s: Bytes): Option<(Flags, Bytes)> {
    if |s| < 3 || s[0] > 1 || s[1] > 1 || s[2] > 1 then None else Some((Flags(s[0] == 1, s[1] == 1, s[2] == 1), s[3..]))
  }

  predicate AnyFlags(f: Flags) { true }

  lemma FlagsInverse()
    ensures Inverse(AnyFlags, PutFlags, TakeFlags)
  {
    forall s | TakeFlags(s).Some? ensures s == PutFlags(TakeFlags(s).value.0) + TakeFlags(s).value.1 {
      assert s == [s[0], s[1], s[2]] + s[3..];
    }
  }

  /** Three strings and the flags. */
  datatype Front = Front(indexId: Text, generation: Text, analyzer: Text, flags: Flags)

  predicate IsFront(f: Front) { IsText(f.indexId) && IsText(f.generation) && IsText(f.analyzer) }

  function PutFront(f: Front): Bytes { PutText(f.indexId) + (PutText(f.generation) + (PutText(f.analyzer) + PutFlags(f.flags))) }

  function TakeFront(s: Bytes): Option<(Front, Bytes)> {
    var id := TakeText(s);
    if id.None? then None
    else
      var generation := TakeText(id.value.1);
      if generation.None? then None
      else
        var analyzer := TakeText(generation.value.1);
        if analyzer.None? then None
        else
          var flags := TakeFlags(analyzer.value.1);
          if flags.None? then None
          else Some((Front(id.value.0, generation.value.0, analyzer.value.0, flags.value.0), flags.value.1))
  }

  lemma FrontInverse()
    ensures Inverse(IsFront, PutFront, TakeFront)
  {
    TextInverse();
    FlagsInverse();
    hide TakeText, PutText, IsText, PutFlags, TakeFlags;
    forall s | TakeFront(s).Some? ensures IsFront(TakeFront(s).value.0) && s == PutFront(TakeFront(s).value.0) + TakeFront(s).value.1 {
      var f, rest := TakeFront(s).value.0, TakeFront(s).value.1;
      FrontAssoc(PutText(f.indexId), PutText(f.generation), PutText(f.analyzer), PutFlags(f.flags), rest);
    }
    forall f, rest: Bytes | IsFront(f) ensures TakeFront(PutFront(f) + rest) == Some((f, rest)) {
      FrontAssoc(PutText(f.indexId), PutText(f.generation), PutText(f.analyzer), PutFlags(f.flags), rest);
    }
  }

  lemma FrontAssoc(a: Bytes, b: Bytes, c: Bytes, d: Bytes, rest: Bytes)
    ensures (a + (b + (c + d))) + rest == a + (b + (c + (d + rest)))
  {
  }

  function FrontOf(c: Identity): Front { Front(c.indexId, c.generation, c.analyzer, Flags(c.stopWords, c.positions, c.surfaceTerms)) }

  /** Which lists a version carries. */
  datatype Layout = Layout(synonyms: bool, filters: bool)

  function LayoutOf(version: byte): Layout { Layout(3 <= version, version == 5 || version == 7 || version == 8) }

  function Body(c: Identity, layout: Layout): Bytes {
    PutFront(FrontOf(c)) + ((if layout.synonyms then PutCounted(PutRule, c.synonyms) else [])
      + (PutCounted(PutText, c.fields) + if layout.filters then PutCounted(PutFilter, c.filters) else []))
  }

  function Decode(s: Bytes, layout: Layout): Option<(Identity, Bytes)> {
    var front := TakeFront(s);
    if front.None? then None
    else
      var synonyms := if layout.synonyms then TakeCounted(TakeRule, front.value.1) else Some(([], front.value.1));
      if synonyms.None? then None
      else
        var fields := TakeCounted(TakeText, synonyms.value.1);
        if fields.None? then None
        else
          var filters := if layout.filters then TakeCounted(TakeFilter, fields.value.1) else Some(([], fields.value.1));
          if filters.None? then None
          else
            var f := front.value.0;
            Some((Identity(f.indexId, f.generation, f.analyzer, f.flags.stopWords, f.flags.positions, f.flags.surfaceTerms,
                           synonyms.value.0, fields.value.0, filters.value.0), filters.value.1))
  }

  /** What fits a layout: a list it does not carry is empty. */
  predicate Fits(c: Identity, layout: Layout) {
    Valid(c) && (!layout.synonyms ==> c.synonyms == []) && (!layout.filters ==> c.filters == [])
  }

  lemma BodyAssoc(a: Bytes, b: Bytes, c: Bytes, d: Bytes, rest: Bytes)
    ensures (a + (b + (c + d))) + rest == a + (b + (c + (d + rest)))
  {
  }

  lemma BodyParts(c: Identity, layout: Layout, rest: Bytes)
    ensures Body(c, layout) + rest == PutFront(FrontOf(c)) + ((if layout.synonyms then PutCounted(PutRule, c.synonyms) else [])
      + (PutCounted(PutText, c.fields) + ((if layout.filters then PutCounted(PutFilter, c.filters) else []) + rest)))
  {
    hide PutCounted, PutFront;
    BodyAssoc(PutFront(FrontOf(c)), if layout.synonyms then PutCounted(PutRule, c.synonyms) else [],
              PutCounted(PutText, c.fields), if layout.filters then PutCounted(PutFilter, c.filters) else [], rest);
  }

  lemma Skip(s: Bytes)
    ensures [] + s == s
  {
  }

  /** Every identity that fits is read back, whatever follows it. */
  lemma DecodeComplete(c: Identity, layout: Layout, rest: Bytes)
    requires Fits(c, layout)
    ensures Decode(Body(c, layout) + rest, layout) == Some((c, rest))
  {
    FrontInverse();
    TextInverse();
    RuleInverse();
    FilterInverse();
    hide Inverse, PutFront, TakeFront, PutCounted, TakeCounted, PutText, PutRule, PutFilter, IsText, IsRule, Body;
    BodyParts(c, layout, rest);
    var s3 := (if layout.filters then PutCounted(PutFilter, c.filters) else []) + rest;
    var s2 := PutCounted(PutText, c.fields) + s3;
    var s1 := (if layout.synonyms then PutCounted(PutRule, c.synonyms) else []) + s2;
    UseInverse(IsFront, PutFront, TakeFront, FrontOf(c), s1);
    if layout.synonyms { CountedComplete(IsRule, PutRule, TakeRule, c.synonyms, s2); } else { Skip(s2); }
    CountedComplete(IsText, PutText, TakeText, c.fields, s3);
    if layout.filters { CountedComplete(IsFilter, PutFilter, TakeFilter, c.filters, rest); } else { Skip(rest); }
  }

  lemma UseInverse<X(!new)>(ok: X -> bool, put: X -> Bytes, take: Bytes -> Option<(X, Bytes)>, x: X, rest: Bytes)
    requires Inverse(ok, put, take) && ok(x)
    ensures take(put(x) + rest) == Some((x, rest))
  {
  }

  lemma UseInverseBack<X(!new)>(ok: X -> bool, put: X -> Bytes, take: Bytes -> Option<(X, Bytes)>, s: Bytes)
    requires Inverse(ok, put, take) && take(s).Some?
    ensures ok(take(s).value.0) && s == put(take(s).value.0) + take(s).value.1
  {
  }

  /** Whatever is read is a fitting identity, and its bytes were exactly its body. */
  lemma DecodeSound(s: Bytes, layout: Layout)
    requires Decode(s, layout).Some?
    ensures Fits(Decode(s, layout).value.0, layout)
    ensures s == Body(Decode(s, layout).value.0, layout) + Decode(s, layout).value.1
  {
    FrontInverse();
    TextInverse();
    RuleInverse();
    FilterInverse();
    hide Inverse, PutFront, TakeFront, PutCounted, TakeCounted, PutText, PutRule, PutFilter, IsText, IsRule, Body;
    var (c, rest) := Decode(s, layout).value;
    UseInverseBack(IsFront, PutFront, TakeFront, s);
    var s1 := TakeFront(s).value.1;
    var s2 := if layout.synonyms then TakeCounted(TakeRule, s1).value.1 else s1;
    if layout.synonyms { CountedSound(IsRule, PutRule, TakeRule, s1); } else { Skip(s2); }
    CountedSound(IsText, PutText, TakeText, s2);
    var s3 := TakeCounted(TakeText, s2).value.1;
    if layout.filters { CountedSound(IsFilter, PutFilter, TakeFilter, s3); } else { Skip(s3); }
    BodyParts(c, layout, rest);
  }

  // ---- the persisted form ----

  const MAGIC: Bytes := [72, 84, 70, 73]

  /** Version 6 without filter fields, 8 with a string filter, 7 with others only. */
  function VersionOf(c: Identity): byte {
    if c.filters == [] then 6
    else if exists i :: 0 <= i < |c.filters| && c.filters[i].kind.StringFilter? then 8
    else 7
  }

  function IdentityBytes(c: Config): Bytes {
    MAGIC + [VersionOf(c.identity), 0] + Body(c.identity, LayoutOf(VersionOf(c.identity)))
  }

  predicate KnownHeader(s: Bytes) { |s| >= 6 && s[..4] == MAGIC && 1 <= s[4] <= 8 && s[5] == 0 }

  function PersistedIndexId(s: Bytes): Option<Text> {
    if !KnownHeader(s) then None
    else
      var d := Decode(s[6..], LayoutOf(s[4]));
      if d.None? || d.value.1 != [] then None else Some(d.value.0.indexId)
  }

  lemma HeaderSplit(v: byte, body: Bytes, rest: Bytes)
    ensures var s := (MAGIC + [v, 0] + body) + rest;
      |s| >= 6 && s[..4] == MAGIC && s[4] == v && s[5] == 0 && s[6..] == body + rest
  {
    var s := (MAGIC + [v, 0] + body) + rest;
    assert s[..4] == MAGIC;
  }

  lemma HeaderOf(c: Config, rest: Bytes)
    ensures var s := IdentityBytes(c) + rest;
      KnownHeader(s) && s[4] == VersionOf(c.identity) && s[6..] == Body(c.identity, LayoutOf(VersionOf(c.identity))) + rest
  {
    var v := VersionOf(c.identity);
    assert 6 <= v <= 8;
    hide Body, VersionOf, LayoutOf;
    HeaderSplit(v, Body(c.identity, LayoutOf(v)), rest);
  }

  lemma EmittedFits(c: Identity)
    requires Valid(c)
    ensures Fits(c, LayoutOf(VersionOf(c)))
  {
  }

  /** The persisted bytes determine the identity, everything but the field weights. */
  lemma IdentityIsInjective(a: Config, b: Config)
    requires Valid(a.identity) && Valid(b.identity)
    ensures IdentityBytes(a) == IdentityBytes(b) <==> a.identity == b.identity
  {
    if IdentityBytes(a) == IdentityBytes(b) {
      HeaderOf(a, []);
      HeaderOf(b, []);
      EmittedFits(a.identity);
      EmittedFits(b.identity);
      hide Body, Decode, LayoutOf, VersionOf;
      var layout := LayoutOf(VersionOf(a.identity));
      DecodeComplete(a.identity, layout, []);
      DecodeComplete(b.identity, layout, []);
    }
  }

  /** The index ID is recovered from every persisted identity, and from none of its proper extensions. */
  lemma RecoversIndexId(c: Config, rest: Bytes)
    requires Valid(c.identity)
    ensures PersistedIndexId(IdentityBytes(c) + rest) == if rest == [] then Some(c.identity.indexId) else None
  {
    HeaderOf(c, rest);
    EmittedFits(c.identity);
    hide Body, Decode, LayoutOf, VersionOf;
    DecodeComplete(c.identity, LayoutOf(VersionOf(c.identity)), rest);
  }

  lemma CutAfterHeader(s: Bytes, n: nat)
    requires 6 <= n <= |s|
    ensures s[..n][4] == s[4] && s[..n][6..] == s[6..][..n - 6]
  {
  }

  /** Nor from any of its proper prefixes: a torn write is recognized. */
  lemma RejectsProperPrefixes(c: Config, n: nat)
    requires Valid(c.identity) && n < |IdentityBytes(c)|
    ensures PersistedIndexId(IdentityBytes(c)[..n]).None?
  {
    EmittedFits(c.identity);
    HeaderOf(c, []);
    var s := IdentityBytes(c);
    Whole(s);
    var layout := LayoutOf(VersionOf(c.identity));
    var body := Body(c.identity, layout);
    Whole(body);
    hide Body, Decode, LayoutOf, VersionOf, IdentityBytes, Fits;
    if n >= 6 {
      CutAfterHeader(s, n);
      var d := Decode(body[..n - 6], layout);
      if d.Some? && d.value.1 == [] { OnlyTheWholeBody(c.identity, layout, n - 6); }
    }
  }

  lemma Whole(s: Bytes)
    ensures s + [] == s
  {
  }

  /** No part of a body short of all of it reads to its end. */
  lemma OnlyTheWholeBody(c: Identity, layout: Layout, n: nat)
    requires Fits(c, layout) && n <= |Body(c, layout)|
    requires var d := Decode(Body(c, layout)[..n], layout); d.Some? && d.value.1 == []
    ensures n == |Body(c, layout)|
  {
    hide Body, Decode;
    var body := Body(c, layout);
    var p, cut := body[..n], body[n..];
    DecodeSound(p, layout);
    var shorter := Decode(p, layout).value.0;
    assert p == Body(shorter, layout) + [] == Body(shorter, layout);
    DecodeComplete(shorter, layout, cut);
    DecodeComplete(c, layout, []);
    assert Body(shorter, layout) + cut == body == body + [];
  }

  // ---- the byte-level loops ----

  /** Writes a length and the bytes. */
  method PushString(bytes: Bytes, t: Text) returns (r: Bytes)
    requires |t| < 0x1_0000_0000
    ensures r == bytes + PutText(t)
  {
    hide Put32;
    r := bytes + Put32(|t|);
    r := r + t;
    assert r == bytes + (Put32(|t|) + t);
  }

  /** The identity pushed piece by piece. */
  method PushIdentity(c: Config) returns (bytes: Bytes)
    requires Valid(c.identity)
    ensures bytes == IdentityBytes(c)
  {
    hide PutText, PutFlags, IsText;
    var i := c.identity;
    assert IsText(i.indexId) && IsText(i.generation) && IsText(i.analyzer);
    ghost var start := MAGIC + [VersionOf(i), 0];
    bytes := MAGIC + [VersionOf(i), 0];
    TextLengths(i);
    bytes := PushString(bytes, i.indexId);
    bytes := PushString(bytes, i.generation);
    bytes := PushString(bytes, i.analyzer);
    bytes := bytes + PutFlags(Flags(i.stopWords, i.positions, i.surfaceTerms));
    assert bytes == start + PutFront(FrontOf(i)) by {
      FrontPushed(start, PutText(i.indexId), PutText(i.generation), PutText(i.analyzer), PutFlags(FrontOf(i).flags));
    }
    ghost var front := bytes;
    bytes := PushRules(bytes, i.synonyms);
    ghost var withRules := bytes;
    bytes := PushTexts(bytes, i.fields);
    if i.filters != [] { bytes := PushFilters(bytes, i.filters); }
    BodyPushed(start, PutFront(FrontOf(i)), PutCounted(PutRule, i.synonyms), PutCounted(PutText, i.fields),
               if i.filters != [] then PutCounted(PutFilter, i.filters) else []);
  }

  lemma TextLengths(c: Identity)
    requires Valid(c)
    ensures |c.indexId| < 0x1_0000_0000 && |c.generation| < 0x1_0000_0000 && |c.analyzer| < 0x1_0000_0000
  {
  }

  lemma FrontPushed(start: Bytes, a: Bytes, b: Bytes, c: Bytes, d: Bytes)
    ensures start + a + b + c + d == start + (a + (b + (c + d)))
  {
  }

  lemma BodyPushed(start: Bytes, a: Bytes, b: Bytes, c: Bytes, d: Bytes)
    ensures (start + a) + b + c + d == start + (a + (b + (c + d)))
    ensures (start + a) + b + c == start + (a + (b + (c + [])))
  {
  }

  method PushTexts(start: Bytes, ts: seq<Text>) returns (bytes: Bytes)
    requires AllTexts(ts)
    ensures bytes == start + PutCounted(PutText, ts)
  {
    hide PutText, Put16, IsUtf8;
    bytes := start + Put16(|ts|);
    var k := 0;
    while k < |ts|
      invariant k <= |ts| && bytes == start + (Put16(|ts|) + PutMany(PutText, ts[..k]))
    {
      assert IsText(ts[k]) && ts[..k + 1][..k] == ts[..k];
      bytes := PushString(bytes, ts[k]);
      PushedOneMore(start, Put16(|ts|), PutMany(PutText, ts[..k]), PutText(ts[k]));
      k := k + 1;
    }
    assert ts[..k] == ts;
  }

  lemma PushedOneMore(start: Bytes, count: Bytes, many: Bytes, one: Bytes)
    ensures (start + (count + many)) + one == start + (count + (many + one))
  {
  }

  method PushRules(start: Bytes, rules: seq<Rule>) returns (bytes: Bytes)
    requires |rules| < 0x1_0000 && forall i :: 0 <= i < |rules| ==> IsRule(rules[i])
    ensures bytes == start + PutCounted(PutRule, rules)
  {
    hide PutText, Put16, IsUtf8;
    bytes := start + Put16(|rules|);
    var k := 0;
    while k < |rules|
      invariant k <= |rules| && bytes == start + (Put16(|rules|) + PutMany(PutRule, rules[..k]))
    {
      assert IsRule(rules[k]) && rules[..k + 1][..k] == rules[..k];
      ghost var before := bytes;
      bytes := PushString(bytes, rules[k].source);
      bytes := PushTexts(bytes, rules[k].replacements);
      assert bytes == before + PutRule(rules[k]) by { Assoc(before, PutText(rules[k].source), PutCounted(PutText, rules[k].replacements)); }
      PushedOneMore(start, Put16(|rules|), PutMany(PutRule, rules[..k]), PutRule(rules[k]));
      k := k + 1;
    }
    assert rules[..k] == rules;
  }

  method PushFilters(start: Bytes, filters: seq<Filter>) returns (bytes: Bytes)
    requires |filters| < 0x1_0000 && forall i :: 0 <= i < |filters| ==> IsText(filters[i].name)
    ensures bytes == start + PutCounted(PutFilter, filters)
  {
    hide PutText, Put16, IsUtf8;
    bytes := start + Put16(|filters|);
    var k := 0;
    while k < |filters|
      invariant k <= |filters| && bytes == start + (Put16(|filters|) + PutMany(PutFilter, filters[..k]))
    {
      assert IsText(filters[k].name) && filters[..k + 1][..k] == filters[..k];
      ghost var before := bytes;
      bytes := PushString(bytes, filters[k].name);
      bytes := bytes + [KindByte(filters[k].kind)];
      assert bytes == before + PutFilter(filters[k]) by { Assoc(before, PutText(filters[k].name), [KindByte(filters[k].kind)]); }
      PushedOneMore(start, Put16(|filters|), PutMany(PutFilter, filters[..k]), PutFilter(filters[k]));
      k := k + 1;
    }
    assert filters[..k] == filters;
  }

  lemma {:induction false} ManyFail<X>(take: Bytes -> Option<(X, Bytes)>, s: Bytes, k: nat, n: nat)
    requires k <= n && TakeMany(take, s, k).None?
    ensures TakeMany(take, s, n).None?
  {
    if k < n { ManyFail(take, s, k, n - 1); }
  }

  /** Where a skipped part ends, if it is well-formed. */
  ghost predicate Skips<X>(take: Bytes -> Option<(X, Bytes)>, bytes: Bytes, from: nat, to: Option<nat>)
    requires from <= |bytes|
  {
    match take(bytes[from..])
    case None => to == None
    case Some(t) => to.Some? && from <= to.value <= |bytes| && bytes[to.value..] == t.1
  }

  method SkipText(bytes: Bytes, from: nat) returns (to: Option<nat>, t: Text)
    requires from <= |bytes|
    ensures Skips(TakeText, bytes, from, to)
    ensures to.Some? ==> t == TakeText(bytes[from..]).value.0
  {
    hide IsUtf8;
    t := [];
    if |bytes| - from < 4 { return None, []; }
    var s := bytes[from..];
    var length := Get32(bytes[from..from + 4]);
    assert s[..4] == bytes[from..from + 4] && s[4..] == bytes[from + 4..];
    if |bytes| - from - 4 < length { return None, []; }
    t := bytes[from + 4..from + 4 + length];
    assert s[4..][..length] == t && s[4..][length..] == bytes[from + 4 + length..];
    to := if IsUtf8(t) then Some(from + 4 + length) else None;
  }

  method SkipCount(bytes: Bytes, from: nat) returns (to: Option<nat>, count: nat)
    requires from <= |bytes|
    ensures Skips(Take16, bytes, from, to)
    ensures to.Some? ==> count == Take16(bytes[from..]).value.0
  {
    count := 0;
    if |bytes| - from < 2 { return None, 0; }
    var s := bytes[from..];
    assert s[..2] == bytes[from..from + 2] && s[2..] == bytes[from + 2..];
    count := Get16(bytes[from..from + 2]);
    to := Some(from + 2);
  }

  method SkipTexts(bytes: Bytes, from: nat) returns (to: Option<nat>)
    requires from <= |bytes|
    ensures Skips(s => TakeCounted(TakeText, s), bytes, from, to)
  {
    hide TakeText;
    var after, count := SkipCount(bytes, from);
    if after.None? { return None; }
    ghost var start := bytes[after.value..];
    var at, k := after.value, 0;
    while k < count
      invariant k <= count && at <= |bytes| && from <= at
      invariant TakeMany(TakeText, start, k).Some? && TakeMany(TakeText, start, k).value.1 == bytes[at..]
    {
      var next, t := SkipText(bytes, at);
      if next.None? {
        ManyFail(TakeText, start, k + 1, count);
        return None;
      }
      at := next.value;
      k := k + 1;
    }
    to := Some(at);
  }

  method SkipRule(bytes: Bytes, from: nat) returns (to: Option<nat>)
    requires from <= |bytes|
    ensures Skips(TakeRule, bytes, from, to)
  {
    hide TakeCounted, TakeText;
    var source, t := SkipText(bytes, from);
    if source.None? { return None; }
    to := SkipTexts(bytes, source.value);
  }

  method SkipRules(bytes: Bytes, from: nat) returns (to: Option<nat>)
    requires from <= |bytes|
    ensures Skips(s => TakeCounted(TakeRule, s), bytes, from, to)
  {
    hide TakeRule;
    var after, count := SkipCount(bytes, from);
    if after.None? { return None; }
    ghost var start := bytes[after.value..];
    var at, k := after.value, 0;
    while k < count
      invariant k <= count && at <= |bytes| && from <= at
      invariant TakeMany(TakeRule, start, k).Some? && TakeMany(TakeRule, start, k).value.1 == bytes[at..]
    {
      var next := SkipRule(bytes, at);
      if next.None? {
        ManyFail(TakeRule, start, k + 1, count);
        return None;
      }
      at := next.value;
      k := k + 1;
    }
    to := Some(at);
  }

  method SkipFilters(bytes: Bytes, from: nat) returns (to: Option<nat>)
    requires from <= |bytes|
    ensures Skips(s => TakeCounted(TakeFilter, s), bytes, from, to)
  {
    hide TakeText;
    var after, count := SkipCount(bytes, from);
    if after.None? { return None; }
    ghost var start := bytes[after.value..];
    var at, k := after.value, 0;
    while k < count
      invariant k <= count && at <= |bytes| && from <= at
      invariant TakeMany(TakeFilter, start, k).Some? && TakeMany(TakeFilter, start, k).value.1 == bytes[at..]
    {
      var next, t := SkipText(bytes, at);
      if next.None? || next.value == |bytes| || bytes[next.value] > 2 {
        ManyFail(TakeFilter, start, k + 1, count);
        return None;
      }
      at := next.value + 1;
      k := k + 1;
    }
    to := Some(at);
  }

  /** The index ID of any persisted version, skipping over everything else. */
  method ReadPersistedIndexId(bytes: Bytes) returns (r: Option<Text>)
    ensures r == PersistedIndexId(bytes)
  {
    hide TakeText, TakeCounted, TakeFlags, IsUtf8;
    if !KnownHeader(bytes) { return None; }
    var layout := LayoutOf(bytes[4]);
    var id, indexId := SkipText(bytes, 6);
    if id.None? { return None; }
    var generation, g := SkipText(bytes, id.value);
    if generation.None? { return None; }
    var analyzer, a := SkipText(bytes, generation.value);
    if analyzer.None? { return None; }
    var flags := SkipFlags(bytes, analyzer.value);
    if flags.None? { return None; }
    var at := flags;
    if layout.synonyms { at := SkipRules(bytes, at.value); }
    if at.None? { return None; }
    at := SkipTexts(bytes, at.value);
    if at.None? { return None; }
    if layout.filters { at := SkipFilters(bytes, at.value); }
    if at.None? { return None; }
    r := if at.value == |bytes| then Some(indexId) else None;
  }

  method SkipFlags(bytes: Bytes, from: nat) returns (to: Option<nat>)
    requires from <= |bytes|
    ensures Skips(TakeFlags, bytes, from, to)
  {
    if |bytes| - from < 3 || bytes[from] > 1 || bytes[from + 1] > 1 || bytes[from + 2] > 1 { return None; }
    assert bytes[from..][3..] == bytes[from + 3..];
    to := Some(from + 3);
  }
}
