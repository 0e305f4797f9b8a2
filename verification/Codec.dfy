/**
 The packed form of a search expression: its encoding, and the grammar by which a decoder reads it back under the
 structural budget.
 */
module Codec {
  import opened Wrappers
  import opened SearchAst

  const MAX_STRING_BYTES := 1048576
  const MAX_FIELDS := 1024

  type Bytes = seq<byte>

  // ---- primitive forms: little-endian words, booleans, length-prefixed byte strings ----

  function Put16(n: nat): (r: Bytes)
    requires n < 0x1_0000
    ensures |r| == 2
  {
    [n % 256, n / 256]
  }

  function Get16(b: Bytes): (r: nat)
    requires |b| == 2
    ensures r < 0x1_0000
  {
    b[0] as int + 256 * b[1] as int
  }

  function Put32(n: nat): (r: Bytes)
    requires n < 0x1_0000_0000
    ensures |r| == 4
  {
    Put16(n % 0x1_0000) + Put16(n / 0x1_0000)
  }

  function Get32(b: Bytes): (r: nat)
    requires |b| == 4
    ensures r < 0x1_0000_0000
  {
    Get16(b[..2]) + 0x1_0000 * Get16(b[2..])
  }

  lemma Words(n: nat, b: Bytes)
    ensures n < 0x1_0000_0000 ==> Get32(Put32(n)) == n
    ensures |b| == 4 ==> Put32(Get32(b)) == b
  {
    if n < 0x1_0000_0000 {
      var p := Put32(n);
      assert p[..2] == Put16(n % 0x1_0000) && p[2..] == Put16(n / 0x1_0000);
    }
    if |b| == 4 {
      assert Put16(Get16(b[..2])) == b[..2] && Put16(Get16(b[2..])) == b[2..];
      assert b == b[..2] + b[2..];
    }
  }

  function PutBool(b: bool): Bytes { if b then [1] else [0] }

  function PutString(s: Bytes): Bytes
    requires |s| <= MAX_STRING_BYTES
  {
    Put32(|s|) + s
  }

  function Take(s: Bytes, n: nat): (r: Option<(Bytes, Bytes)>)
    ensures r.Some? <==> n <= |s|
    ensures r.Some? ==> |r.value.0| == n && s == r.value.0 + r.value.1
  {
    if n <= |s| then Some((s[..n], s[n..])) else None
  }

  function TakeByte(s: Bytes): Option<(byte, Bytes)> {
    if s == [] then None else Some((s[0], s[1..]))
  }

  function Take16(s: Bytes): Option<(nat, Bytes)> {
    var t := Take(s, 2);
    if t.None? then None else Some((Get16(t.value.0), t.value.1))
  }

  function Take32(s: Bytes): (r: Option<(nat, Bytes)>)
    ensures r.Some? ==> r.value.0 < 0x1_0000_0000
  {
    var t := Take(s, 4);
    if t.None? then None else Some((Get32(t.value.0), t.value.1))
  }

  function TakeBool(s: Bytes): Option<(bool, Bytes)> {
    var t := TakeByte(s);
    if t.None? || t.value.0 > 1 then None else Some((t.value.0 == 1, t.value.1))
  }

  function TakeString(s: Bytes): Option<(Bytes, Bytes)> {
    var n := Take32(s);
    if n.None? || n.value.0 > MAX_STRING_BYTES then None else Take(n.value.1, n.value.0)
  }

  lemma TakeStringIff(s: Bytes, text: Bytes, rest: Bytes)
    ensures TakeString(s) == Some((text, rest)) <==> |text| <= MAX_STRING_BYTES && s == PutString(text) + rest
  {
    Words(|text|, if |s| >= 4 then s[..4] else []);
    if TakeString(s) == Some((text, rest)) {
      assert s == s[..4] + s[4..];
    }
    if |text| <= MAX_STRING_BYTES && s == PutString(text) + rest {
      assert s[..4] == Put32(|text|) && s[4..] == text + rest;
    }
  }

  lemma Take16Iff(s: Bytes, n: nat, rest: Bytes)
    ensures Take16(s) == Some((n, rest)) <==> n < 0x1_0000 && s == Put16(n) + rest
  {
    if Take16(s) == Some((n, rest)) { assert s[..2] == Put16(n); }
    if n < 0x1_0000 && s == Put16(n) + rest { assert s[..2] == Put16(n) && s[2..] == rest; }
  }

  lemma Take32Iff(s: Bytes, n: nat, rest: Bytes)
    ensures Take32(s) == Some((n, rest)) <==> n < 0x1_0000_0000 && s == Put32(n) + rest
  {
    Words(n, if |s| >= 4 then s[..4] else []);
    if n < 0x1_0000_0000 && s == Put32(n) + rest { assert s[..4] == Put32(n) && s[4..] == rest; }
  }

  // ---- text ----

  predicate Continuation(b: byte) { 0x80 <= b <= 0xBF }

  /** Well-formed UTF-8: no overlong form, no surrogate, nothing above U+10FFFF. */
  predicate IsUtf8(s: Bytes) {
    || s == []
    || (s[0] < 0x80 && IsUtf8(s[1..]))
    || (|s| >= 2 && 0xC2 <= s[0] <= 0xDF && Continuation(s[1]) && IsUtf8(s[2..]))
    || (|s| >= 3 && 0xE0 <= s[0] <= 0xEF && Continuation(s[1]) && Continuation(s[2])
        && (s[0] == 0xE0 ==> s[1] >= 0xA0) && (s[0] == 0xED ==> s[1] <= 0x9F) && IsUtf8(s[3..]))
    || (|s| >= 4 && 0xF0 <= s[0] <= 0xF4 && Continuation(s[1]) && Continuation(s[2]) && Continuation(s[3])
        && (s[0] == 0xF0 ==> s[1] >= 0x90) && (s[0] == 0xF4 ==> s[1] <= 0x8F) && IsUtf8(s[4..]))
  }

  function PutMode(m: Mode): byte {
    match m case Any => 0 case All => 1 case Phrase => 2 case Prefix => 3 case Fuzzy => 4 case FuzzyPrefix => 5
  }

  function GetMode(b: byte): Option<Mode> {
    if b == 0 then Some(Any) else if b == 1 then Some(All) else if b == 2 then Some(Phrase)
    else if b == 3 then Some(Prefix) else if b == 4 then Some(Fuzzy) else if b == 5 then Some(FuzzyPrefix) else None
  }

  predicate IsName(s: Bytes) { |s| <= MAX_STRING_BYTES && IsUtf8(s) }

  // ---- encoding ----

  /** The trees that have a packed form. */
  predicate Encodable(e: Expression) {
    match e
    case Clause(text, mode, options, fields) =>
      && IsName(text) && options.Valid(mode)
      && |fields| < 0x1_0000 && forall i :: 0 <= i < |fields| ==> IsName(fields[i])
    case And(children) => |children| < 0x1_0000 && forall i :: 0 <= i < |children| ==> Encodable(children[i])
    case Or(children) => |children| < 0x1_0000 && forall i :: 0 <= i < |children| ==> Encodable(children[i])
    case Not(child) => Encodable(child)
    case Boost(_, child) => Encodable(child)
    case Optional(required, optional) =>
      Encodable(required) && |optional| < 0x1_0000 && forall i :: 0 <= i < |optional| ==> Encodable(optional[i])
  }

  function EncodeNames(names: seq<Bytes>): Bytes
    requires forall i :: 0 <= i < |names| ==> IsName(names[i])
  {
    if names == [] then []
    else
      var last := names[|names| - 1];
      assert IsName(last);
      EncodeNames(names[..|names| - 1]) + PutString(last)
  }

  function Encode(e: Expression): Bytes
    requires Encodable(e)
    decreases e, 0
  {
    match e
    case Clause(text, mode, options, fields) =>
      [0] + (PutString(text) + ([PutMode(mode), options.distance] + (PutBool(options.transpositions) + (Put16(|fields|) + EncodeNames(fields)))))
    case And(children) => [1] + (Put16(|children|) + EncodeAll(children))
    case Or(children) => [2] + (Put16(|children|) + EncodeAll(children))
    case Not(child) => [3] + Encode(child)
    case Boost(boost, child) => [4] + (Put32(boost) + Encode(child))
    case Optional(required, optional) => [5] + (Put16(|optional|) + (Encode(required) + EncodeAll(optional)))
  }

  function EncodeAll(es: seq<Expression>): Bytes
    requires forall i :: 0 <= i < |es| ==> Encodable(es[i])
    decreases es, 1
  {
    if es == [] then [] else EncodeAll(es[..|es| - 1]) + Encode(es[|es| - 1])
  }

  // ---- the grammar under a budget ----

  datatype Budget = Budget(remaining: nat, text: nat)

  datatype Parsed = Parsed(e: Expression, rest: Bytes, left: Budget)

  function TakeNames(s: Bytes, count: nat): (r: Option<(seq<Bytes>, Bytes)>)
    ensures r.Some? ==> |r.value.0| == count
  {
    if count == 0 then Some(([], s))
    else
      var before := TakeNames(s, count - 1);
      if before.None? then None
      else
        var name := TakeString(before.value.1);
        if name.None? || !IsUtf8(name.value.0) then None else Some((before.value.0 + [name.value.0], name.value.1))
  }

  /** Mode, options and field count of a clause. */
  function TakeHead(s: Bytes): Option<(Mode, Options, nat, Bytes)> {
    var m := TakeByte(s);
    if m.None? || GetMode(m.value.0).None? then None
    else
      var distance := TakeByte(m.value.1);
      if distance.None? then None
      else
        var transpositions := TakeBool(distance.value.1);
        if transpositions.None? then None
        else
          var mode, options := GetMode(m.value.0).value, Options(distance.value.0, transpositions.value.0);
          var count := Take16(transpositions.value.1);
          if !options.Valid(mode) || count.None? then None else Some((mode, options, count.value.0, count.value.1))
  }

  function ParseClause(s: Bytes, fields: nat, b: Budget): Option<Parsed> {
    var text := TakeString(s);
    if text.None? then None
    else
      var head := TakeHead(text.value.1);
      if head.None? then None
      else
        var (mode, options, count, rest) := head.value;
        var left := Budget(b.remaining, b.text + |text.value.0|);
        if left.text > MAX_QUERY_TEXT_BYTES || count > fields || !IsUtf8(text.value.0) then None
        else
          var names := TakeNames(rest, count);
          if names.None? then None
          else Some(Parsed(Clause(text.value.0, mode, options, names.value.0), names.value.1, left))
  }

  function Parse(s: Bytes, depth: nat, fields: nat, b: Budget): Option<Parsed>
    decreases MAX_EXPRESSION_DEPTH + 1 - depth, 1, 0
  {
    var kind := TakeByte(s);
    if depth > MAX_EXPRESSION_DEPTH || kind.None? then None
    else if kind.value.0 == 0 then ParseClause(kind.value.1, fields, b)
    else if kind.value.0 == 1 || kind.value.0 == 2 then ParseCombination(kind.value.1, kind.value.0 == 1, depth, fields, b)
    else if kind.value.0 == 3 then ParseNot(kind.value.1, depth, fields, b)
    else if kind.value.0 == 4 then ParseBoost(kind.value.1, depth, fields, b)
    else if kind.value.0 == 5 then ParseOptional(kind.value.1, depth, fields, b)
    else None
  }

  function ParseCombination(s: Bytes, and: bool, depth: nat, fields: nat, b: Budget): Option<Parsed>
    requires depth <= MAX_EXPRESSION_DEPTH
    decreases MAX_EXPRESSION_DEPTH + 1 - depth, 0, 0
  {
    var count := Take16(s);
    if count.None? || count.value.0 == 0 || count.value.0 > b.remaining then None
    else
      var all := ParseMany(count.value.1, count.value.0, depth + 1, fields, Budget(b.remaining - count.value.0, b.text));
      if all.None? then None
      else
        var (es, rest, left) := all.value;
        Some(Parsed(if and then And(es) else Or(es), rest, left))
  }

  function ParseNot(s: Bytes, depth: nat, fields: nat, b: Budget): Option<Parsed>
    requires depth <= MAX_EXPRESSION_DEPTH
    decreases MAX_EXPRESSION_DEPTH + 1 - depth, 0, 0
  {
    if b.remaining < 2 then None
    else
      var child := Parse(s, depth + 1, fields, Budget(b.remaining - 2, b.text));
      if child.None? then None else Some(child.value.(e := Not(child.value.e)))
  }

  function ParseBoost(s: Bytes, depth: nat, fields: nat, b: Budget): Option<Parsed>
    requires depth <= MAX_EXPRESSION_DEPTH
    decreases MAX_EXPRESSION_DEPTH + 1 - depth, 0, 0
  {
    var boost := Take32(s);
    if boost.None? || !ValidBoost(boost.value.0) || b.remaining < 1 then None
    else
      var child := Parse(boost.value.1, depth + 1, fields, Budget(b.remaining - 1, b.text));
      if child.None? then None else Some(child.value.(e := Boost(boost.value.0, child.value.e)))
  }

  function ParseOptional(s: Bytes, depth: nat, fields: nat, b: Budget): Option<Parsed>
    requires depth <= MAX_EXPRESSION_DEPTH
    decreases MAX_EXPRESSION_DEPTH + 1 - depth, 0, 0
  {
    var count := Take16(s);
    if count.None? || count.value.0 == 0 || count.value.0 + 1 > b.remaining then None
    else
      var required := Parse(count.value.1, depth + 1, fields, Budget(b.remaining - count.value.0 - 1, b.text));
      if required.None? then None
      else
        var all := ParseMany(required.value.rest, count.value.0, depth + 1, fields, required.value.left);
        if all.None? then None
        else
          var (es, rest, left) := all.value;
          Some(Parsed(Optional(required.value.e, es), rest, left))
  }

  function ParseMany(s: Bytes, count: nat, depth: nat, fields: nat, b: Budget): (r: Option<(seq<Expression>, Bytes, Budget)>)
    ensures r.Some? ==> |r.value.0| == count
    decreases MAX_EXPRESSION_DEPTH + 1 - depth, 2, count
  {
    if count == 0 then Some(([], s, b))
    else
      var before := ParseMany(s, count - 1, depth, fields, b);
      if before.None? then None
      else
        var last := Parse(before.value.1, depth, fields, before.value.2);
        if last.None? then None else Some((before.value.0 + [last.value.e], last.value.rest, last.value.left))
  }

  // ---- what is parsed is the encoding of what is returned ----

  function After(e: Expression, b: Budget): Budget
    requires Charge(e) <= b.remaining
  {
    Budget(b.remaining - Charge(e), b.text + Text(e))
  }

  /** s is the encoding of e followed by the rest, and the budget covers e. */
  ghost predicate Reads(s: Bytes, depth: nat, fields: nat, b: Budget, p: Parsed) {
    && Encodable(p.e) && Shape(p.e, depth, fields)
    && Charge(p.e) <= b.remaining && p.left == After(p.e, b) && p.left.text <= MAX_QUERY_TEXT_BYTES
    && s == Encode(p.e) + p.rest
  }

  ghost predicate ReadsMany(s: Bytes, count: nat, depth: nat, fields: nat, b: Budget, es: seq<Expression>, rest: Bytes, left: Budget) {
    && |es| == count
    && (forall i :: 0 <= i < |es| ==> Encodable(es[i]) && Shape(es[i], depth, fields))
    && ChargeAll(es) <= b.remaining && left == Budget(b.remaining - ChargeAll(es), b.text + TextAll(es))
    && (b.text <= MAX_QUERY_TEXT_BYTES ==> left.text <= MAX_QUERY_TEXT_BYTES)
    && s == EncodeAll(es) + rest
  }

  lemma Assoc(a: Bytes, b: Bytes, c: Bytes)
    ensures (a + b) + c == a + (b + c)
  {
  }

  lemma Uncons(s: Bytes)
    requires s != []
    ensures s == [s[0]] + s[1..]
  {
  }

  lemma Cons(kind: byte, s: Bytes)
    ensures ([kind] + s)[0] == kind && ([kind] + s)[1..] == s && TakeByte([kind] + s) == Some((kind, s))
  {
  }

  // ---- clauses ----

  predicate AllNames(names: seq<Bytes>) { forall i :: 0 <= i < |names| ==> IsName(names[i]) }

  lemma NamesSplit(names: seq<Bytes>)
    requires names != []
    ensures AllNames(names) <==> AllNames(names[..|names| - 1]) && IsName(names[|names| - 1])
  {
    if AllNames(names[..|names| - 1]) && IsName(names[|names| - 1]) {
      forall i | 0 <= i < |names| ensures IsName(names[i]) {
        if i < |names| - 1 { assert names[..|names| - 1][i] == names[i]; }
      }
    }
  }

  lemma {:induction false} NamesSound(s: Bytes, count: nat)
    requires TakeNames(s, count).Some?
    ensures var (names, rest) := TakeNames(s, count).value; AllNames(names) && s == EncodeNames(names) + rest
  {
    hide TakeString, IsUtf8, PutString;
    if count > 0 {
      NamesSound(s, count - 1);
      var (front, middle) := TakeNames(s, count - 1).value;
      var (last, rest) := TakeString(middle).value;
      TakeStringIff(middle, last, rest);
      var names := front + [last];
      assert names[..count - 1] == front && IsName(last);
      NamesSplit(names);
      Assoc(EncodeNames(front), PutString(last), rest);
    }
  }

  lemma {:induction false} NamesComplete(names: seq<Bytes>, rest: Bytes)
    requires AllNames(names)
    ensures TakeNames(EncodeNames(names) + rest, |names|) == Some((names, rest))
  {
    hide TakeString, IsUtf8, PutString;
    if names == [] {
      assert [] + rest == rest;
    } else {
      NamesSplit(names);
      var front, last := names[..|names| - 1], names[|names| - 1];
      NamesComplete(front, PutString(last) + rest);
      Assoc(EncodeNames(front), PutString(last), rest);
      TakeStringIff(PutString(last) + rest, last, rest);
      assert names == front + [last];
    }
  }

  function PutHead(mode: Mode, options: Options, count: nat): Bytes
    requires count < 0x1_0000
  {
    [PutMode(mode), options.distance] + (PutBool(options.transpositions) + Put16(count))
  }

  lemma HeadSound(s: Bytes)
    requires TakeHead(s).Some?
    ensures var (mode, options, count, rest) := TakeHead(s).value;
      options.Valid(mode) && count < 0x1_0000 && s == PutHead(mode, options, count) + rest
  {
    hide Take16, Put16;
    var (mode, options, count, rest) := TakeHead(s).value;
    var tail := s[1..][1..][1..];
    Take16Iff(tail, count, rest);
    assert s[1..][1..] == s[2..] && tail == s[3..];
    assert s[..3] == [PutMode(mode), options.distance] + PutBool(options.transpositions);
    assert s == s[..3] + tail;
  }

  lemma HeadComplete(mode: Mode, options: Options, count: nat, rest: Bytes)
    requires options.Valid(mode) && count < 0x1_0000
    ensures TakeHead(PutHead(mode, options, count) + rest) == Some((mode, options, count, rest))
  {
    hide Take16, Put16;
    var s := PutHead(mode, options, count) + rest;
    var tail := Put16(count) + rest;
    assert s[1..][1..][1..] == tail;
    Take16Iff(tail, count, rest);
  }

  /** A clause after its kind byte. */
  function ClauseBody(e: Expression, rest: Bytes): Bytes
    requires e.Clause? && Encodable(e)
  {
    PutString(e.text) + (PutHead(e.mode, e.options, |e.fields|) + (EncodeNames(e.fields) + rest))
  }

  lemma EncodeClause(e: Expression, rest: Bytes)
    requires e.Clause? && Encodable(e)
    ensures AllNames(e.fields) && IsName(e.text)
    ensures Encode(e) + rest == [0] + ClauseBody(e, rest)
  {
    hide PutString, IsUtf8, Put16, EncodeNames;
    var names := EncodeNames(e.fields);
    var head := PutHead(e.mode, e.options, |e.fields|);
    assert Encode(e) == [0] + (PutString(e.text) + (head + names));
    Assoc(head, names, rest);
    Assoc(PutString(e.text), head + names, rest);
    Assoc([0], PutString(e.text) + (head + names), rest);
  }

  lemma ClauseSound(s: Bytes, fields: nat, b: Budget, depth: nat)
    requires ParseClause(s, fields, b).Some? && depth <= MAX_EXPRESSION_DEPTH
    ensures Reads([0] + s, depth, fields, b, ParseClause(s, fields, b).value)
  {
    hide TakeString, TakeHead, TakeNames, IsUtf8, PutString, PutHead, EncodeNames;
    var p := ParseClause(s, fields, b).value;
    var (text, s1) := TakeString(s).value;
    TakeStringIff(s, text, s1);
    var (mode, options, count, s2) := TakeHead(s1).value;
    HeadSound(s1);
    NamesSound(s2, count);
    EncodeClause(p.e, p.rest);
  }

  lemma ClauseBodyComplete(e: Expression, rest: Bytes, fields: nat, b: Budget)
    requires e.Clause? && Encodable(e) && |e.fields| <= fields && b.text + |e.text| <= MAX_QUERY_TEXT_BYTES
    requires AllNames(e.fields) && IsName(e.text)
    ensures ParseClause(ClauseBody(e, rest), fields, b) == Some(Parsed(e, rest, Budget(b.remaining, b.text + |e.text|)))
  {
    hide TakeString, TakeHead, TakeNames, IsUtf8, PutString, PutHead, EncodeNames, AllNames;
    var s3 := EncodeNames(e.fields) + rest;
    var s2 := PutHead(e.mode, e.options, |e.fields|) + s3;
    TakeStringIff(PutString(e.text) + s2, e.text, s2);
    HeadComplete(e.mode, e.options, |e.fields|, s3);
    NamesComplete(e.fields, rest);
  }

  lemma ClauseComplete(e: Expression, rest: Bytes, depth: nat, fields: nat, b: Budget)
    requires e.Clause? && Encodable(e) && Shape(e, depth, fields) && b.text + |e.text| <= MAX_QUERY_TEXT_BYTES
    ensures Parse(Encode(e) + rest, depth, fields, b) == Some(Parsed(e, rest, After(e, b)))
  {
    hide Parse, ParseClause, ClauseBody, Encode;
    EncodeClause(e, rest);
    ClauseBodyComplete(e, rest, fields, b);
    ClauseStep(ClauseBody(e, rest), depth, fields, b);
  }

  // ---- nodes over children already read ----

  lemma ReadsCombination(s: Bytes, t: Bytes, and: bool, es: seq<Expression>, rest: Bytes, left: Budget, depth: nat, fields: nat, b: Budget)
    requires 0 < |es| < 0x1_0000 && |es| <= b.remaining && depth <= MAX_EXPRESSION_DEPTH
    requires ReadsMany(t, |es|, depth + 1, fields, Budget(b.remaining - |es|, b.text), es, rest, left) && left.text <= MAX_QUERY_TEXT_BYTES
    requires s == [if and then 1 else 2] + (Put16(|es|) + t)
    ensures Reads(s, depth, fields, b, Parsed(if and then And(es) else Or(es), rest, left))
  {
    hide Put16, EncodeAll, ChargeAll, TextAll;
    var e := if and then And(es) else Or(es);
    var kind := if and then 1 else 2;
    assert Encode(e) == [kind] + (Put16(|es|) + EncodeAll(es));
    Assoc(Put16(|es|), EncodeAll(es), rest);
    Assoc([kind], Put16(|es|) + EncodeAll(es), rest);
  }

  lemma ReadsOptional(s: Bytes, t: Bytes, required: Parsed, es: seq<Expression>, rest: Bytes, left: Budget, depth: nat, fields: nat, b: Budget)
    requires 0 < |es| < 0x1_0000 && |es| + 1 <= b.remaining && depth <= MAX_EXPRESSION_DEPTH
    requires Reads(t, depth + 1, fields, Budget(b.remaining - |es| - 1, b.text), required)
    requires ReadsMany(required.rest, |es|, depth + 1, fields, required.left, es, rest, left)
    requires s == [5] + (Put16(|es|) + t)
    ensures Reads(s, depth, fields, b, Parsed(Optional(required.e, es), rest, left))
  {
    var e := Optional(required.e, es);
    var x, y, z := Put16(|es|), Encode(required.e), EncodeAll(es);
    assert Encode(e) == [5] + (x + (y + z));
    hide Put16, EncodeAll, ChargeAll, TextAll, Encode;
    Assoc(y, z, rest);
    Assoc(x, y + z, rest);
    Assoc([5], x + (y + z), rest);
  }

  lemma ReadsUnary(s: Bytes, t: Bytes, boost: Option<word>, child: Parsed, depth: nat, fields: nat, b: Budget)
    requires depth <= MAX_EXPRESSION_DEPTH && (if boost.Some? then b.remaining >= 1 && ValidBoost(boost.value) else b.remaining >= 2)
    requires Reads(t, depth + 1, fields, Budget(b.remaining - (if boost.Some? then 1 else 2), b.text), child)
    requires s == if boost.Some? then [4] + (Put32(boost.value) + t) else [3] + t
    ensures Reads(s, depth, fields, b, child.(e := if boost.Some? then Boost(boost.value, child.e) else Not(child.e)))
  {
    var y := Encode(child.e);
    hide Put32;
    if boost.Some? {
      assert Encode(Boost(boost.value, child.e)) == [4] + (Put32(boost.value) + y);
      hide Encode;
      Assoc(Put32(boost.value), y, child.rest);
      Assoc([4], Put32(boost.value) + y, child.rest);
    } else {
      Assoc([3], y, child.rest);
    }
  }

  lemma ReadsOneMore(s: Bytes, front: seq<Expression>, middle: Bytes, between: Budget, last: Parsed, depth: nat, fields: nat, b: Budget)
    requires ReadsMany(s, |front|, depth, fields, b, front, middle, between) && Reads(middle, depth, fields, between, last)
    ensures ReadsMany(s, |front| + 1, depth, fields, b, front + [last.e], last.rest, last.left)
  {
    hide Encode, Encodable, Shape, Charge, Text;
    var es := front + [last.e];
    assert es[..|front|] == front && es[|front|] == last.e;
    Assoc(EncodeAll(front), Encode(last.e), last.rest);
  }

  lemma ReadsNone(s: Bytes, depth: nat, fields: nat, b: Budget)
    ensures ReadsMany(s, 0, depth, fields, b, [], s, b)
  {
    assert [] + s == s;
  }

  // ---- soundness of the grammar ----

  lemma {:induction false} ParseSound(s: Bytes, depth: nat, fields: nat, b: Budget)
    requires Parse(s, depth, fields, b).Some?
    ensures Reads(s, depth, fields, b, Parse(s, depth, fields, b).value)
    decreases MAX_EXPRESSION_DEPTH + 1 - depth, 0, 1
  {
    hide Reads, Take16, Take32, Put16, Put32, ParseClause;
    Uncons(s);
    var kind, t := s[0], s[1..];
    if kind == 0 {
      ClauseSound(t, fields, b, depth);
    } else if kind == 3 {
      ParseSound(t, depth + 1, fields, Budget(b.remaining - 2, b.text));
      ReadsUnary(s, t, None, Parse(t, depth + 1, fields, Budget(b.remaining - 2, b.text)).value, depth, fields, b);
    } else if kind == 4 {
      var (boost, u) := Take32(t).value;
      Take32Iff(t, boost, u);
      ParseSound(u, depth + 1, fields, Budget(b.remaining - 1, b.text));
      ReadsUnary(s, u, Some(boost), Parse(u, depth + 1, fields, Budget(b.remaining - 1, b.text)).value, depth, fields, b);
    } else if kind == 5 {
      OptionalSound(s, depth, fields, b);
    } else {
      CombinationSound(s, depth, fields, b);
    }
  }

  lemma {:induction false} CombinationSound(s: Bytes, depth: nat, fields: nat, b: Budget)
    requires Parse(s, depth, fields, b).Some? && (s[0] == 1 || s[0] == 2)
    ensures Reads(s, depth, fields, b, Parse(s, depth, fields, b).value)
    decreases MAX_EXPRESSION_DEPTH + 1 - depth, 0, 0
  {
    hide Reads, ReadsMany, Take16, Put16, ParseMany;
    Uncons(s);
    var (count, u) := Take16(s[1..]).value;
    Take16Iff(s[1..], count, u);
    var spent := Budget(b.remaining - count, b.text);
    ManySound(u, count, depth + 1, fields, spent);
    var (es, rest, left) := ParseMany(u, count, depth + 1, fields, spent).value;
    ReadsCombination(s, u, s[0] == 1, es, rest, left, depth, fields, b);
  }

  lemma {:induction false} OptionalSound(s: Bytes, depth: nat, fields: nat, b: Budget)
    requires Parse(s, depth, fields, b).Some? && s[0] == 5
    ensures Reads(s, depth, fields, b, Parse(s, depth, fields, b).value)
    decreases MAX_EXPRESSION_DEPTH + 1 - depth, 0, 0
  {
    hide Reads, ReadsMany, Take16, Put16, ParseMany;
    Uncons(s);
    var (count, u) := Take16(s[1..]).value;
    Take16Iff(s[1..], count, u);
    var spent := Budget(b.remaining - count - 1, b.text);
    ParseSound(u, depth + 1, fields, spent);
    var required := Parse(u, depth + 1, fields, spent).value;
    ManySound(required.rest, count, depth + 1, fields, required.left);
    var (es, rest, left) := ParseMany(required.rest, count, depth + 1, fields, required.left).value;
    ReadsOptional(s, u, required, es, rest, left, depth, fields, b);
  }

  lemma {:induction false} ManySound(s: Bytes, count: nat, depth: nat, fields: nat, b: Budget)
    requires ParseMany(s, count, depth, fields, b).Some?
    ensures var (es, rest, left) := ParseMany(s, count, depth, fields, b).value;
      ReadsMany(s, count, depth, fields, b, es, rest, left) && (count > 0 ==> left.text <= MAX_QUERY_TEXT_BYTES)
    decreases MAX_EXPRESSION_DEPTH + 1 - depth, 1, count
  {
    hide Parse, ReadsMany;
    if count == 0 {
      ReadsNone(s, depth, fields, b);
    } else {
      var (front, middle, between) := ParseMany(s, count - 1, depth, fields, b).value;
      ManySound(s, count - 1, depth, fields, b);
      ParseSound(middle, depth, fields, between);
      ReadsOneMore(s, front, middle, between, Parse(middle, depth, fields, between).value, depth, fields, b);
    }
  }

  // ---- single steps of the parser ----

  lemma ClauseStep(s: Bytes, depth: nat, fields: nat, b: Budget)
    requires depth <= MAX_EXPRESSION_DEPTH
    ensures Parse([0] + s, depth, fields, b) == ParseClause(s, fields, b)
  {
    KindStep(0, s, depth, fields, b);
  }

  lemma KindStep(kind: byte, s: Bytes, depth: nat, fields: nat, b: Budget)
    requires depth <= MAX_EXPRESSION_DEPTH && kind <= 5
    ensures Parse([kind] + s, depth, fields, b) ==
      if kind == 0 then ParseClause(s, fields, b)
      else if kind <= 2 then ParseCombination(s, kind == 1, depth, fields, b)
      else if kind == 3 then ParseNot(s, depth, fields, b)
      else if kind == 4 then ParseBoost(s, depth, fields, b)
      else ParseOptional(s, depth, fields, b)
  {
    hide ParseClause, ParseCombination, ParseNot, ParseBoost, ParseOptional;
    Cons(kind, s);
  }

  lemma CombinationStep(and: bool, n: nat, s: Bytes, depth: nat, fields: nat, b: Budget, es: seq<Expression>, rest: Bytes, left: Budget)
    requires depth <= MAX_EXPRESSION_DEPTH && 0 < n < 0x1_0000 && n <= b.remaining
    requires ParseMany(s, n, depth + 1, fields, Budget(b.remaining - n, b.text)) == Some((es, rest, left))
    ensures Parse([if and then 1 else 2] + (Put16(n) + s), depth, fields, b) == Some(Parsed(if and then And(es) else Or(es), rest, left))
  {
    hide Parse, ParseMany, Take16, Put16;
    Take16Iff(Put16(n) + s, n, s);
    KindStep(if and then 1 else 2, Put16(n) + s, depth, fields, b);
  }

  lemma OptionalStep(n: nat, s: Bytes, depth: nat, fields: nat, b: Budget, required: Parsed, es: seq<Expression>, rest: Bytes, left: Budget)
    requires depth <= MAX_EXPRESSION_DEPTH && 0 < n < 0x1_0000 && n + 1 <= b.remaining
    requires Parse(s, depth + 1, fields, Budget(b.remaining - n - 1, b.text)) == Some(required)
    requires ParseMany(required.rest, n, depth + 1, fields, required.left) == Some((es, rest, left))
    ensures Parse([5] + (Put16(n) + s), depth, fields, b) == Some(Parsed(Optional(required.e, es), rest, left))
  {
    hide Parse, ParseMany, Take16, Put16;
    Take16Iff(Put16(n) + s, n, s);
    KindStep(5, Put16(n) + s, depth, fields, b);
  }

  lemma NotStep(s: Bytes, depth: nat, fields: nat, b: Budget)
    requires depth <= MAX_EXPRESSION_DEPTH && b.remaining >= 2
    requires Parse(s, depth + 1, fields, Budget(b.remaining - 2, b.text)).Some?
    ensures var child := Parse(s, depth + 1, fields, Budget(b.remaining - 2, b.text)).value;
      Parse([3] + s, depth, fields, b) == Some(child.(e := Not(child.e)))
  {
    hide Parse;
    KindStep(3, s, depth, fields, b);
  }

  lemma BoostStep(boost: word, s: Bytes, depth: nat, fields: nat, b: Budget)
    requires depth <= MAX_EXPRESSION_DEPTH && b.remaining >= 1 && ValidBoost(boost)
    requires Parse(s, depth + 1, fields, Budget(b.remaining - 1, b.text)).Some?
    ensures var child := Parse(s, depth + 1, fields, Budget(b.remaining - 1, b.text)).value;
      Parse([4] + (Put32(boost) + s), depth, fields, b) == Some(child.(e := Boost(boost, child.e)))
  {
    hide Parse, Take32, Put32;
    Take32Iff(Put32(boost) + s, boost, s);
    KindStep(4, Put32(boost) + s, depth, fields, b);
  }

  lemma EncodeCombination(e: Expression, rest: Bytes)
    requires Encodable(e) && (e.And? || e.Or?)
    ensures Encode(e) + rest == [if e.And? then 1 else 2] + (Put16(|e.children|) + (EncodeAll(e.children) + rest))
  {
    hide Put16, EncodeAll;
    var x, y := Put16(|e.children|), EncodeAll(e.children);
    Assoc(x, y, rest);
    Assoc([if e.And? then 1 else 2], x + y, rest);
  }

  lemma EncodeOptional(e: Expression, rest: Bytes)
    requires Encodable(e) && e.Optional?
    ensures Encode(e) + rest == [5] + (Put16(|e.optional|) + (Encode(e.required) + (EncodeAll(e.optional) + rest)))
  {
    var x, y, z := Put16(|e.optional|), Encode(e.required), EncodeAll(e.optional);
    assert Encode(e) == [5] + (x + (y + z));
    hide Put16, EncodeAll, Encode;
    Assoc(y, z, rest);
    Assoc(x, y + z, rest);
    Assoc([5], x + (y + z), rest);
  }

  lemma EncodeUnary(e: Expression, rest: Bytes)
    requires Encodable(e) && (e.Not? || e.Boost?)
    ensures Encode(e) + rest == if e.Not? then [3] + (Encode(e.child) + rest) else [4] + (Put32(e.boost) + (Encode(e.child) + rest))
  {
    var y := Encode(e.child);
    if e.Not? {
      Assoc([3], y, rest);
    } else {
      assert Encode(e) == [4] + (Put32(e.boost) + y);
      hide Encode, Put32;
      Assoc(Put32(e.boost), y, rest);
      Assoc([4], Put32(e.boost) + y, rest);
    }
  }

  // ---- completeness of the grammar ----

  /** Every encodable tree that meets the local rules and the budget is read back, whatever follows it. */
  lemma {:induction false} ParseComplete(e: Expression, rest: Bytes, depth: nat, fields: nat, b: Budget)
    requires Encodable(e) && Shape(e, depth, fields) && Charge(e) <= b.remaining && b.text + Text(e) <= MAX_QUERY_TEXT_BYTES
    ensures Parse(Encode(e) + rest, depth, fields, b) == Some(Parsed(e, rest, After(e, b)))
    decreases e, 1
  {
    hide Parse, Encode, ParseMany, ParseClause;
    match e
    case Clause(_, _, _, _) => ClauseComplete(e, rest, depth, fields, b);
    case And(_) => CombinationComplete(e, rest, depth, fields, b);
    case Or(_) => CombinationComplete(e, rest, depth, fields, b);
    case Not(child) =>
      ParseComplete(child, rest, depth + 1, fields, Budget(b.remaining - 2, b.text));
      EncodeUnary(e, rest);
      NotStep(Encode(child) + rest, depth, fields, b);
    case Boost(boost, child) =>
      ParseComplete(child, rest, depth + 1, fields, Budget(b.remaining - 1, b.text));
      EncodeUnary(e, rest);
      BoostStep(boost, Encode(child) + rest, depth, fields, b);
    case Optional(_, _) => OptionalComplete(e, rest, depth, fields, b);
  }

  lemma {:induction false} CombinationComplete(e: Expression, rest: Bytes, depth: nat, fields: nat, b: Budget)
    requires e.And? || e.Or?
    requires Encodable(e) && Shape(e, depth, fields) && Charge(e) <= b.remaining && b.text + Text(e) <= MAX_QUERY_TEXT_BYTES
    ensures Parse(Encode(e) + rest, depth, fields, b) == Some(Parsed(e, rest, After(e, b)))
    decreases e, 0
  {
    hide Parse, Encode, EncodeAll, ParseMany;
    var es := e.children;
    ManyComplete(es, rest, depth + 1, fields, Budget(b.remaining - |es|, b.text));
    EncodeCombination(e, rest);
    CombinationStep(e.And?, |es|, EncodeAll(es) + rest, depth, fields, b, es, rest, After(e, b));
  }

  lemma {:induction false} OptionalComplete(e: Expression, rest: Bytes, depth: nat, fields: nat, b: Budget)
    requires e.Optional?
    requires Encodable(e) && Shape(e, depth, fields) && Charge(e) <= b.remaining && b.text + Text(e) <= MAX_QUERY_TEXT_BYTES
    ensures Parse(Encode(e) + rest, depth, fields, b) == Some(Parsed(e, rest, After(e, b)))
    decreases e, 0
  {
    hide Parse, Encode, EncodeAll, ParseMany;
    var es := e.optional;
    var z := EncodeAll(es) + rest;
    var spent := Budget(b.remaining - |es| - 1, b.text);
    ParseComplete(e.required, z, depth + 1, fields, spent);
    ManyComplete(es, rest, depth + 1, fields, After(e.required, spent));
    EncodeOptional(e, rest);
    OptionalStep(|es|, Encode(e.required) + z, depth, fields, b, Parsed(e.required, z, After(e.required, spent)), es, rest, After(e, b));
  }

  lemma ManyStep(s: Bytes, n: nat, depth: nat, fields: nat, b: Budget, front: seq<Expression>, middle: Bytes, between: Budget, last: Parsed)
    requires ParseMany(s, n, depth, fields, b) == Some((front, middle, between)) && Parse(middle, depth, fields, between) == Some(last)
    ensures ParseMany(s, n + 1, depth, fields, b) == Some((front + [last.e], last.rest, last.left))
  {
    hide Parse;
  }

  lemma {:induction false} ManyComplete(es: seq<Expression>, rest: Bytes, depth: nat, fields: nat, b: Budget)
    requires forall i :: 0 <= i < |es| ==> Encodable(es[i]) && Shape(es[i], depth, fields)
    requires ChargeAll(es) <= b.remaining && b.text + TextAll(es) <= MAX_QUERY_TEXT_BYTES
    ensures ParseMany(EncodeAll(es) + rest, |es|, depth, fields, b)
      == Some((es, rest, Budget(b.remaining - ChargeAll(es), b.text + TextAll(es))))
    decreases es, 2
  {
    hide Parse, Encode, Encodable, Shape, Charge, Text;
    if es == [] {
      assert [] + rest == rest;
    } else {
      var front, last := es[..|es| - 1], es[|es| - 1];
      var middle, between := Encode(last) + rest, Budget(b.remaining - ChargeAll(front), b.text + TextAll(front));
      assert EncodeAll(es) + rest == EncodeAll(front) + middle by { Assoc(EncodeAll(front), Encode(last), rest); }
      ManyComplete(front, middle, depth, fields, b);
      ParseComplete(last, rest, depth, fields, between);
      assert es == front + [last];
      hide ParseMany, EncodeAll;
      ManyStep(EncodeAll(es) + rest, |front|, depth, fields, b, front, middle, between, Parsed(last, rest, After(last, between)));
    }
  }

  // ---- what the packed form promises ----

  predicate Admitted(e: Expression, clauses: nat, fields: nat) { Encodable(e) && Accepted(e, clauses, fields) }

  /** The accepted requests are exactly the encodings of the trees the validator accepts, followed by anything. */
  lemma AcceptsExactlyEncodings(s: Bytes, clauses: nat, fields: nat, e: Expression, rest: Bytes)
    ensures (Parse(s, 0, fields, Budget(clauses, 0)).Some?
             && Parse(s, 0, fields, Budget(clauses, 0)).value.e == e && Parse(s, 0, fields, Budget(clauses, 0)).value.rest == rest)
      <==> Admitted(e, clauses, fields) && s == Encode(e) + rest
  {
    if Parse(s, 0, fields, Budget(clauses, 0)).Some? { ParseSound(s, 0, fields, Budget(clauses, 0)); }
    if Admitted(e, clauses, fields) && s == Encode(e) + rest { ParseComplete(e, rest, 0, fields, Budget(clauses, 0)); }
  }

  /** A tree has one encoding, and no encoding is a proper prefix of another. */
  lemma EncodingIsPrefixFree(e1: Expression, e2: Expression, clauses: nat, fields: nat)
    requires Admitted(e1, clauses, fields) && Admitted(e2, clauses, fields) && Encode(e1) <= Encode(e2)
    ensures e1 == e2
  {
    var rest := Encode(e2)[|Encode(e1)|..];
    assert Encode(e2) == Encode(e1) + rest && Encode(e2) == Encode(e2) + [];
    AcceptsExactlyEncodings(Encode(e2), clauses, fields, e1, rest);
    AcceptsExactlyEncodings(Encode(e2), clauses, fields, e2, []);
  }
}
