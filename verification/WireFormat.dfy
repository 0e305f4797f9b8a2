/** The byte forms themselves: little-endian words, the version an identity is written in, and one identity and one
    expression spelled out. */
module WireFormat {
  import opened Wrappers
  import opened SearchAst
  import opened Codec
  import opened IndexIdentity

  /** Words are written least significant byte first, and read back by the weight of each byte. */
  lemma LittleEndianWord(n: nat)
    ensures n < 0x1_0000 ==> Put16(n) == [n % 256, n / 256]
    ensures n < 0x1_0000_0000 ==> Put32(n) == [n % 256, n / 256 % 256, n / 65536 % 256, n / 16777216]
  {
    if n < 0x1_0000_0000 { Digits(n); }
  }

  lemma Digits(n: nat)
    requires n < 0x1_0000_0000
    ensures n % 0x1_0000 % 256 == n % 256 && n % 0x1_0000 / 256 == n / 256 % 256
    ensures n / 0x1_0000 / 256 == n / 16777216
  {
  }

  lemma WordValue(b: Bytes)
    ensures |b| == 2 ==> Get16(b) == b[0] as int + 256 * (b[1] as int)
    ensures |b| == 4 ==> Get32(b) == b[0] as int + 256 * (b[1] as int) + 65536 * (b[2] as int) + 16777216 * (b[3] as int)
  {
  }

  /** Every identity is written as "HTFI", its version in two bytes, and its lists: version 6 iff it has no filters, 8 iff
      one of them is of strings, 7 iff it has filters but none of strings. */
  lemma VersionWritten(c: Config)
    ensures var s := IdentityBytes(c);
      && |s| > 6 && s[..4] == [0x48, 0x54, 0x46, 0x49] && s[5] == 0
      && (s[4] == 6 <==> c.identity.filters == [])
      && (s[4] == 8 <==> exists i :: 0 <= i < |c.identity.filters| && c.identity.filters[i].kind == StringFilter)
      && (s[4] == 7 <==> c.identity.filters != [] && forall i :: 0 <= i < |c.identity.filters| ==> c.identity.filters[i].kind != StringFilter)
  {
    hide Body;
    HeaderOf(c, []);
    assert IdentityBytes(c) + [] == IdentityBytes(c);
    HasBody(c.identity, LayoutOf(VersionOf(c.identity)));
  }

  lemma HasBody(c: Identity, layout: Layout)
    ensures |Body(c, layout)| >= 3
  {
    assert |PutFlags(FrontOf(c).flags)| == 3;
  }

  // ---- spelled out ----

  lemma OneByte(x: byte)
    ensures PutText([x]) == PutString([x]) == [1, 0, 0, 0, x]
  {
    LittleEndianWord(1);
  }

  lemma OneOf<X>(put: X -> Bytes, x: X)
    ensures PutMany(put, [x]) == put(x)
  {
    assert [x][..0] == [] && PutMany(put, []) == [];
  }

  lemma TwoOf<X>(put: X -> Bytes, x: X, y: X)
    ensures PutMany(put, [x, y]) == put(x) + put(y)
  {
    assert [x, y][..1] == [x];
    OneOf(put, x);
  }

  lemma FrontForm()
    ensures PutFront(Front([97], [98], [99], Flags(true, false, true))) == [1, 0, 0, 0, 97, 1, 0, 0, 0, 98, 1, 0, 0, 0, 99, 1, 0, 1]
  {
    OneByte(97);
    OneByte(98);
    OneByte(99);
  }

  lemma TextsForm(x: byte, y: byte)
    ensures PutCounted(PutText, [[x], [y]]) == [2, 0, 1, 0, 0, 0, x, 1, 0, 0, 0, y]
  {
    OneByte(x);
    OneByte(y);
    var a, b: Text := [x], [y];
    TwoOf(PutText, a, b);
    LittleEndianWord(2);
    hide PutText, PutMany;
  }

  lemma RuleForm(rule: Rule)
    requires rule == Rule([100], [[101], [102]])
    ensures PutRule(rule) == [1, 0, 0, 0, 100, 2, 0, 1, 0, 0, 0, 101, 1, 0, 0, 0, 102]
  {
    OneByte(100);
    TextsForm(101, 102);
    hide PutText, PutCounted;
  }

  lemma CountedOne<X>(put: X -> Bytes, x: X)
    ensures PutCounted(put, [x]) == [1, 0] + put(x)
  {
    OneOf(put, x);
    LittleEndianWord(1);
    hide PutMany;
  }

  lemma RulesForm()
    ensures PutCounted(PutRule, [Rule([100], [[101], [102]])]) == [1, 0, 1, 0, 0, 0, 100, 2, 0, 1, 0, 0, 0, 101, 1, 0, 0, 0, 102]
  {
    hide PutRule, PutCounted;
    var rule := Rule([100], [[101], [102]]);
    RuleForm(rule);
    CountedOne(PutRule, rule);
  }

  lemma FiltersForm()
    ensures PutCounted(PutFilter, [Filter([105], StringFilter), Filter([106], BooleanFilter)])
      == [2, 0, 1, 0, 0, 0, 105, 0, 1, 0, 0, 0, 106, 2]
  {
    OneByte(105);
    OneByte(106);
    TwoOf(PutFilter, Filter([105], StringFilter), Filter([106], BooleanFilter));
    LittleEndianWord(2);
    hide PutText, PutMany;
  }

  /** An identity with every part in it. */
  lemma AnIdentity()
    ensures Body(Identity([97], [98], [99], true, false, true, [Rule([100], [[101], [102]])], [[103], [104]],
                          [Filter([105], StringFilter), Filter([106], BooleanFilter)]), LayoutOf(8))
      == [1, 0, 0, 0, 97, 1, 0, 0, 0, 98, 1, 0, 0, 0, 99, 1, 0, 1]
       + [1, 0, 1, 0, 0, 0, 100, 2, 0, 1, 0, 0, 0, 101, 1, 0, 0, 0, 102]
       + [2, 0, 1, 0, 0, 0, 103, 1, 0, 0, 0, 104]
       + [2, 0, 1, 0, 0, 0, 105, 0, 1, 0, 0, 0, 106, 2]
  {
    FrontForm();
    RulesForm();
    TextsForm(103, 104);
    FiltersForm();
    hide PutFront, PutCounted;
  }

  /** Version 1 and 2 hold neither synonyms nor filters, 3, 4 and 6 synonyms, 5, 7 and 8 both: an identity without either is
      persisted in all of them, and differs between versions only in the empty lists. */
  lemma OldVersions(indexId: Text, version: byte)
    requires IsText(indexId) && 1 <= version <= 8
    ensures var front := PutFront(Front(indexId, [], [], Flags(false, false, false)));
      PersistedIndexId([0x48, 0x54, 0x46, 0x49, version, 0] + (front + EmptyListsOf(version))) == Some(indexId)
  {
    var c := Identity(indexId, [], [], false, false, false, [], [], []);
    var layout := LayoutOf(version);
    EmptyLists(c, version);
    assert IsText([]);
    hide IsText, Decode, Body, PutFront, PersistedIndexId, EmptyListsOf;
    var body := Body(c, layout);
    DecodeComplete(c, layout, []);
    assert body + [] == body;
    ReadBack(c, version, body);
  }

  lemma ReadBack(c: Identity, version: byte, body: Bytes)
    requires 1 <= version <= 8 && Decode(body, LayoutOf(version)) == Some((c, []))
    ensures PersistedIndexId([0x48, 0x54, 0x46, 0x49, version, 0] + body) == Some(c.indexId)
  {
    hide Decode;
    var s := [0x48, 0x54, 0x46, 0x49, version, 0] + body;
    assert s[..4] == MAGIC && s[6..] == body;
  }

  function EmptyListsOf(version: byte): Bytes {
    [0, 0] + (if version >= 3 then [0, 0] else []) + (if version in {5, 7, 8} then [0, 0] else [])
  }

  lemma EmptyLists(c: Identity, version: byte)
    requires 1 <= version <= 8 && c.synonyms == [] && c.fields == [] && c.filters == []
    ensures Body(c, LayoutOf(version)) == PutFront(FrontOf(c)) + EmptyListsOf(version)
  {
    LittleEndianWord(0);
    assert PutCounted(PutText, []) == [0, 0] && PutCounted(PutRule, []) == [0, 0] && PutCounted(PutFilter, []) == [0, 0];
    hide PutFront, PutCounted;
  }

  /** Filters are of strings 0, numbers 1 or truth values 2; modes are numbered in the order any, all, phrase, prefix,
      fuzzy, fuzzy prefix. */
  lemma KindsAndModes()
    ensures KindByte(StringFilter) == 0 && KindByte(NumberFilter) == 1 && KindByte(BooleanFilter) == 2
    ensures PutMode(Any) == 0 && PutMode(All) == 1 && PutMode(Phrase) == 2
    ensures PutMode(Prefix) == 3 && PutMode(Fuzzy) == 4 && PutMode(FuzzyPrefix) == 5
  {
  }

  lemma LeafForm(x: byte)
    requires x < 0x80
    ensures var leaf := Clause([x], Any, Options(1, true), []); Encodable(leaf) && Encode(leaf) == [0, 1, 0, 0, 0, x, 0, 1, 1, 0, 0]
  {
    OneByte(x);
    LittleEndianWord(0);
  }

  lemma OneName(name: Bytes)
    requires IsName(name)
    ensures EncodeNames([name]) == PutString(name)
  {
    assert [name][..0] == [] && EncodeNames([]) == [];
  }

  lemma ClauseForm(text: Bytes, mode: Mode, options: Options, names: seq<Bytes>)
    requires IsName(text) && options.Valid(mode) && |names| < 0x1_0000 && forall i :: 0 <= i < |names| ==> IsName(names[i])
    ensures var x := Clause(text, mode, options, names);
      Encodable(x) && Encode(x) == [0] + (PutString(text) + ([PutMode(mode), options.distance]
        + (PutBool(options.transpositions) + (Put16(|names|) + EncodeNames(names)))))
  {
    hide IsName, EncodeNames, PutString, Put16, PutMode;
  }

  lemma FuzzyForm()
    ensures var fuzzy := Clause([97], Fuzzy, Options(2, false), [[98]]);
      Encodable(fuzzy) && Encode(fuzzy) == [0, 1, 0, 0, 0, 97, 4, 2, 0, 1, 0, 1, 0, 0, 0, 98]
  {
    var text, name: Bytes := [97], [98];
    assert IsName(name) && IsName(text);
    hide PutString, EncodeNames, IsName, Encode, Encodable, Put16;
    OneByte(97);
    OneByte(98);
    LittleEndianWord(1);
    OneName(name);
    ClauseForm(text, Fuzzy, Options(2, false), [name]);
  }

  lemma ListForms(children: seq<Expression>)
    requires |children| < 0x1_0000 && forall i :: 0 <= i < |children| ==> Encodable(children[i])
    ensures Encodable(And(children)) && Encode(And(children)) == [1] + (Put16(|children|) + EncodeAll(children))
    ensures Encodable(Or(children)) && Encode(Or(children)) == [2] + (Put16(|children|) + EncodeAll(children))
  {
    hide EncodeAll, Put16;
  }

  lemma UnaryForms(e: Expression)
    requires Encodable(e)
    ensures Encodable(Not(e)) && Encode(Not(e)) == [3] + Encode(e)
    ensures Encodable(Boost(0x3F80_0000, e)) && Encode(Boost(0x3F80_0000, e)) == [4] + (Put32(0x3F80_0000) + Encode(e))
  {
    hide Put32;
  }

  lemma OptionalForm(e: Expression, es: seq<Expression>)
    requires Encodable(e) && |es| < 0x1_0000 && forall i :: 0 <= i < |es| ==> Encodable(es[i])
    ensures Encodable(Optional(e, es)) && Encode(Optional(e, es)) == [5] + (Put16(|es|) + (Encode(e) + EncodeAll(es)))
  {
    hide EncodeAll, Put16;
  }

  lemma Single(e: Expression)
    requires Encodable(e)
    ensures EncodeAll([e]) == Encode(e)
  {
    assert [e][..0] == [] && EncodeAll([]) == [];
  }

  lemma Prepend2(a: byte, b: Bytes, c: Bytes)
    ensures [a] + (b + c) == ([a] + b) + c
  {
  }

  lemma InnerForm(leaf: Expression)
    requires Encodable(leaf)
    ensures var not := Not(Or([And([leaf])])); Encodable(not) && Encode(not) == [3, 2, 1, 0, 1, 1, 0] + Encode(leaf)
  {
    hide Encode, Encodable, EncodeAll, Put16;
    LittleEndianWord(1);
    Single(leaf);
    ListForms([leaf]);
    Prepend2(1, [1, 0], Encode(leaf));
    var and := And([leaf]);
    Single(and);
    ListForms([and]);
    Prepend2(2, [1, 0], Encode(and));
    UnaryForms(Or([and]));
    assert Encode(Not(Or([and]))) == [3] + ([2, 1, 0] + ([1, 1, 0] + Encode(leaf)));
  }

  lemma OuterForm(e: Expression, f: Expression)
    requires Encodable(e) && Encodable(f)
    ensures var x := Optional(Boost(0x3F80_0000, e), [f]);
      Encodable(x) && Encode(x) == [5, 1, 0, 4, 0, 0, 0x80, 0x3F] + Encode(e) + Encode(f)
  {
    hide Encode, Encodable, EncodeAll, Put16, Put32;
    LittleEndianWord(1);
    LittleEndianWord(0x3F80_0000);
    UnaryForms(e);
    Single(f);
    OptionalForm(Boost(0x3F80_0000, e), [f]);
    assert Encode(Optional(Boost(0x3F80_0000, e), [f])) == [5] + ([1, 0] + (([4] + ([0, 0, 0x80, 0x3F] + Encode(e))) + Encode(f)));
  }

  /** An expression with every kind of node. */
  lemma AnExpression()
    ensures var leaf := Clause([99], Any, Options(1, true), []);
      var fuzzy := Clause([97], Fuzzy, Options(2, false), [[98]]);
      var e := Optional(Boost(0x3F80_0000, fuzzy), [Not(Or([And([leaf])]))]);
      && Encodable(e)
      && Encode(e) == [5, 1, 0, 4, 0, 0, 0x80, 0x3F] + [0, 1, 0, 0, 0, 97, 4, 2, 0, 1, 0, 1, 0, 0, 0, 98]
           + ([3, 2, 1, 0, 1, 1, 0] + [0, 1, 0, 0, 0, 99, 0, 1, 1, 0, 0])
  {
    hide Encode, Encodable;
    var leaf := Clause([99], Any, Options(1, true), []);
    var fuzzy := Clause([97], Fuzzy, Options(2, false), [[98]]);
    LeafForm(99);
    FuzzyForm();
    InnerForm(leaf);
    OuterForm(fuzzy, Not(Or([And([leaf])])));
  }
}
