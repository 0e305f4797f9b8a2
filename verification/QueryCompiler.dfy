/** Compiling a search expression to a Boolean query, with the clause accounting every node is charged for. */
module QueryCompiler {
  import opened Wrappers
  import opened SearchAst

  type Text = seq<byte>

  datatype Field = Field(name: Text, weight: word)

  datatype Occur = Must | Should | MustNot

  datatype Query =
    | TermQuery(field: Text, term: Text)
    | EmptyQuery
    | AllQuery
    | IdSetQuery(ids: set<Text>)
    | BooleanQuery(clauses: seq<Query>, occurs: seq<Occur>)
    | ConstScoreQuery(query: Query)
    | BoostQuery(query: Query, weight: word)

  datatype Built = Built(query: Query, clauses: nat)

  /** The configuration the compiler reads. The analyzer yields a text's tokens; float products and the modes that
      need positions, automata or the dictionary are parameters. */
  datatype Engine = Engine(
    fields: seq<Field>,
    analyzer: Text -> seq<Text>,
    maxTerms: nat,
    maxClauses: nat,
    surfaceTerms: bool,
    times: (word, word) -> word,
    special: Expression -> Option<Built>)

  // ---- fields and terms of a clause ----

  predicate Repeats(names: seq<Text>) { exists i, j :: 0 <= i < j < |names| && names[i] == names[j] }

  function IndexOf(fields: seq<Field>, name: Text): (r: Option<nat>)
    ensures r.Some? ==> r.value < |fields| && fields[r.value].name == name
    ensures r.None? ==> forall i :: 0 <= i < |fields| ==> fields[i].name != name
  {
    if fields == [] then None
    else if fields[|fields| - 1].name == name then Some(|fields| - 1)
    else IndexOf(fields[..|fields| - 1], name)
  }

  /** The named fields in request order, or all of them when none is named; a repeated or unknown name is an error. */
  function SelectedFields(e: Engine, names: seq<Text>): (r: Option<seq<Field>>)
    ensures r.Some? && names != [] ==> |r.value| == |names| && forall i :: 0 <= i < |names| ==> r.value[i].name == names[i]
    ensures names != [] ==> (r.None? <==> Repeats(names) || exists i :: 0 <= i < |names| && IndexOf(e.fields, names[i]).None?)
  {
    if names == [] then Some(e.fields)
    else if Repeats(names) || exists i :: 0 <= i < |names| && IndexOf(e.fields, names[i]).None? then None
    else Some(seq(|names|, i requires 0 <= i < |names| => e.fields[IndexOf(e.fields, names[i]).value]))
  }

  /** Tokens without repetitions, in order of first appearance. */
  function Deduplicated(tokens: seq<Text>): (r: seq<Text>)
    ensures forall i, j :: 0 <= i < j < |r| ==> r[i] != r[j]
    ensures forall x :: x in r <==> x in tokens
    ensures |r| <= |tokens|
  {
    if tokens == [] then []
    else
      var before, last := Deduplicated(tokens[..|tokens| - 1]), tokens[|tokens| - 1];
      assert forall x :: x in tokens <==> x in tokens[..|tokens| - 1] || x == last;
      if last in before then before else before + [last]
  }

  function QueryTerms(e: Engine, text: Text): Option<seq<Text>> {
    var terms := Deduplicated(e.analyzer(text));
    if |terms| > e.maxTerms then None else Some(terms)
  }

  lemma {:induction false} DeduplicatedGrows(tokens: seq<Text>, n: nat)
    requires n <= |tokens|
    ensures |Deduplicated(tokens[..n])| <= |Deduplicated(tokens)|
  {
    if n == |tokens| {
      assert tokens[..n] == tokens;
    } else {
      DeduplicatedGrows(tokens[..|tokens| - 1], n);
      assert tokens[..|tokens| - 1][..n] == tokens[..n];
    }
  }

  /** The analysis loop stops at the first distinct term beyond the limit. */
  method Analyze(e: Engine, text: Text) returns (r: Option<seq<Text>>)
    ensures r == QueryTerms(e, text)
  {
    var tokens := e.analyzer(text);
    var terms: seq<Text> := [];
    var k := 0;
    while k < |tokens|
      invariant k <= |tokens|
      invariant terms == Deduplicated(tokens[..k]) && |terms| <= e.maxTerms
    {
      assert tokens[..k + 1][..k] == tokens[..k];
      if tokens[k] !in terms {
        if |terms| == e.maxTerms {
          DeduplicatedGrows(tokens, k + 1);
          return None;
        }
        terms := terms + [tokens[k]];
      }
      k := k + 1;
    }
    assert tokens[..k] == tokens;
    r := Some(terms);
  }

  // ---- the compiler ----

  function Boosted(query: Query, weight: word): Query { if weight == BOOST_ONE then query else BoostQuery(query, weight) }

  function Always(occur: Occur, n: nat): (r: seq<Occur>)
    ensures |r| == n && forall i :: 0 <= i < n ==> r[i] == occur
  {
    seq(n, _ => occur)
  }

  function FieldQueries(term: Text, fields: seq<Field>): (r: seq<Query>)
    ensures |r| == |fields|
  {
    seq(|fields|, i requires 0 <= i < |fields| => Boosted(TermQuery(fields[i].name, term), fields[i].weight))
  }

  function TermGroup(term: Text, fields: seq<Field>): Query {
    BooleanQuery(FieldQueries(term, fields), Always(Should, |fields|))
  }

  /** Every field of the first term, then every field of the next. */
  function Alternatives(terms: seq<Text>, fields: seq<Field>): seq<Query> {
    if terms == [] then [] else Alternatives(terms[..|terms| - 1], fields) + FieldQueries(terms[|terms| - 1], fields)
  }

  function TermQueryOf(e: Engine, text: Text, fields: seq<Field>, all: bool): Option<Built> {
    var terms := QueryTerms(e, text);
    if terms.None? then None
    else if terms.value == [] then Some(Built(EmptyQuery, 0))
    else
      var clauses := |terms.value| * |fields|;
      if clauses > e.maxClauses then None
      else if all then
        Some(Built(BooleanQuery(seq(|terms.value|, i requires 0 <= i < |terms.value| => TermGroup(terms.value[i], fields)),
                                Always(Must, |terms.value|)), clauses))
      else
        var alternatives := Alternatives(terms.value, fields);
        Some(Built(BooleanQuery(alternatives, Always(Should, |alternatives|)), clauses))
  }

  predicate Bag(x: Expression) { x.Clause? && !x.mode.Expensive() }

  /** Every leaf is a bag of terms. */
  predicate Bags(x: Expression) {
    match x
    case Clause(_, _, _, _) => Bag(x)
    case And(children) => forall i :: 0 <= i < |children| ==> Bags(children[i])
    case Or(children) => forall i :: 0 <= i < |children| ==> Bags(children[i])
    case Not(child) => Bags(child)
    case Boost(_, child) => Bags(child)
    case Optional(required, optional) => Bags(required) && forall i :: 0 <= i < |optional| ==> Bags(optional[i])
  }

  function ClauseQuery(e: Engine, x: Expression): Option<Built>
    requires x.Clause?
  {
    if Bag(x) then
      var fields := SelectedFields(e, x.fields);
      if fields.None? then None else TermQueryOf(e, x.text, fields.value, x.mode.All?)
    else e.special(x)
  }

  function Compile(e: Engine, x: Expression): Option<Built>
    decreases x, 0
  {
    match x
    case Clause(_, _, _, _) => ClauseQuery(e, x)
    case And(children) => CompileBoolean(e, children, Must)
    case Or(children) => CompileBoolean(e, children, Should)
    case Boost(boost, child) =>
      var built := Compile(e, child);
      if built.None? || built.value.clauses + 1 > e.maxClauses then None
      else Some(Built(Boosted(built.value.query, boost), built.value.clauses + 1))
    case Optional(required, optional) =>
      var first := Compile(e, required);
      if first.None? || |optional| + 1 + first.value.clauses > e.maxClauses then None
      else
        var rest := CompileList(e, optional, |optional| + 1 + first.value.clauses);
        if rest.None? then None
        else Some(Built(BooleanQuery([first.value.query] + rest.value.0, [Must] + Always(Should, |rest.value.0|)), rest.value.1))
    case Not(child) =>
      var built := Compile(e, child);
      if built.None? || built.value.clauses + 2 > e.maxClauses then None
      else Some(Built(ConstScoreQuery(BooleanQuery([AllQuery, built.value.query], [Must, MustNot])), built.value.clauses + 2))
  }

  function CompileBoolean(e: Engine, children: seq<Expression>, occur: Occur): Option<Built>
    decreases children, 2
  {
    var list := CompileList(e, children, |children|);
    if list.None? then None else Some(Built(BooleanQuery(list.value.0, Always(occur, |list.value.0|)), list.value.1))
  }

  /** The children in order; each adds its clauses to the running count, which the limit bounds. */
  function CompileList(e: Engine, xs: seq<Expression>, start: nat): (r: Option<(seq<Query>, nat)>)
    ensures r.Some? ==> |r.value.0| == |xs|
    decreases xs, 1
  {
    if xs == [] then Some(([], start))
    else
      var before := CompileList(e, xs[..|xs| - 1], start);
      if before.None? then None
      else
        var last := Compile(e, xs[|xs| - 1]);
        if last.None? || before.value.1 + last.value.clauses > e.maxClauses then None
        else Some((before.value.0 + [last.value.query], before.value.1 + last.value.clauses))
  }

  function Reweighted(e: Engine, fields: seq<Field>, boost: word): (r: seq<Field>)
    ensures |r| == |fields| && forall i :: 0 <= i < |fields| ==> r[i].name == fields[i].name
  {
    seq(|fields|, i requires 0 <= i < |fields| => fields[i].(weight := e.times(fields[i].weight, boost)))
  }

  /** The whole request: its structure is validated first, and a boost on a bare bag of terms is folded into the weights. */
  function CompileRequest(e: Engine, x: Expression): Option<Built> {
    if !Accepted(x, e.maxClauses, |e.fields|) then None
    else if x.Boost? && Bag(x.child) then
      var fields := SelectedFields(e, x.child.fields);
      if fields.None? then None
      else
        var built := TermQueryOf(e, x.child.text, Reweighted(e, fields.value, x.boost), x.child.mode.All?);
        if built.None? || built.value.clauses + 1 > e.maxClauses then None
        else Some(Built(built.value.query, built.value.clauses + 1))
    else Compile(e, x)
  }

  function WithCandidates(query: Query, candidates: Option<set<Text>>): Query {
    if candidates.None? then query
    else if candidates.value == {} then EmptyQuery
    else BooleanQuery([query, ConstScoreQuery(IdSetQuery(candidates.value))], [Must, Must])
  }

  // ---- what a query matches ----

  /** A document: its ID and the terms each field holds. */
  datatype Doc = Doc(id: Text, terms: set<(Text, Text)>)

  /** Boolean query semantics: every required clause, no excluded one, and some optional one when nothing is required. */
  predicate Matches(q: Query, doc: Doc) {
    match q
    case TermQuery(field, term) => (field, term) in doc.terms
    case EmptyQuery => false
    case AllQuery => true
    case IdSetQuery(ids) => doc.id in ids
    case ConstScoreQuery(query) => Matches(query, doc)
    case BoostQuery(query, _) => Matches(query, doc)
    case BooleanQuery(clauses, occurs) =>
      && |clauses| == |occurs|
      && (forall i :: 0 <= i < |clauses| && occurs[i].Must? ==> Matches(clauses[i], doc))
      && (forall i :: 0 <= i < |clauses| && occurs[i].MustNot? ==> !Matches(clauses[i], doc))
      && ((exists i :: 0 <= i < |clauses| && occurs[i].Must?)
          || exists i :: 0 <= i < |clauses| && occurs[i].Should? && Matches(clauses[i], doc))
  }

  predicate HoldsSome(doc: Doc, term: Text, fields: seq<Field>) {
    exists i :: 0 <= i < |fields| && (fields[i].name, term) in doc.terms
  }

  lemma FieldQueryMatches(term: Text, fields: seq<Field>, doc: Doc, i: nat)
    requires i < |fields|
    ensures Matches(FieldQueries(term, fields)[i], doc) <==> (fields[i].name, term) in doc.terms
  {
  }

  lemma TermGroupMatches(term: Text, fields: seq<Field>, doc: Doc)
    ensures Matches(TermGroup(term, fields), doc) <==> HoldsSome(doc, term, fields)
  {
    forall i | 0 <= i < |fields|
      ensures Matches(FieldQueries(term, fields)[i], doc) <==> (fields[i].name, term) in doc.terms
    {
      FieldQueryMatches(term, fields, doc, i);
    }
  }

  predicate SomeMatches(qs: seq<Query>, doc: Doc) { exists i :: 0 <= i < |qs| && Matches(qs[i], doc) }

  lemma SomeMatchesEither(a: seq<Query>, b: seq<Query>, doc: Doc)
    ensures SomeMatches(a + b, doc) <==> SomeMatches(a, doc) || SomeMatches(b, doc)
  {
    hide Matches;
    if i :| 0 <= i < |a + b| && Matches((a + b)[i], doc) {
      if i < |a| { assert Matches(a[i], doc); } else { assert Matches(b[i - |a|], doc); }
    }
    if i :| 0 <= i < |a| && Matches(a[i], doc) { assert Matches((a + b)[i], doc); }
    if i :| 0 <= i < |b| && Matches(b[i], doc) { assert Matches((a + b)[|a| + i], doc); }
  }

  lemma FieldQueriesMatch(term: Text, fields: seq<Field>, doc: Doc)
    ensures SomeMatches(FieldQueries(term, fields), doc) <==> HoldsSome(doc, term, fields)
  {
    forall i | 0 <= i < |fields|
      ensures Matches(FieldQueries(term, fields)[i], doc) <==> (fields[i].name, term) in doc.terms
    {
      FieldQueryMatches(term, fields, doc, i);
    }
    hide Matches;
    if i :| 0 <= i < |fields| && (fields[i].name, term) in doc.terms {
      assert Matches(FieldQueries(term, fields)[i], doc);
    }
  }

  lemma {:induction false} AlternativesMatch(terms: seq<Text>, fields: seq<Field>, doc: Doc)
    ensures SomeMatches(Alternatives(terms, fields), doc) <==> exists t :: t in terms && HoldsSome(doc, t, fields)
  {
    hide SomeMatches, HoldsSome;
    if terms == [] {
      assert !SomeMatches([], doc) by { NoneMatches(doc); }
    } else {
      var front, last := terms[..|terms| - 1], terms[|terms| - 1];
      AlternativesMatch(front, fields, doc);
      FieldQueriesMatch(last, fields, doc);
      SomeMatchesEither(Alternatives(front, fields), FieldQueries(last, fields), doc);
      assert forall t :: t in terms <==> t in front || t == last;
    }
  }

  lemma NoneMatches(doc: Doc)
    ensures !SomeMatches([], doc)
  {
  }

  /** A bag of terms matches exactly the documents in which some, or every one of at least one, term occurs in some field. */
  lemma TermQueryMatches(e: Engine, text: Text, fields: seq<Field>, all: bool, doc: Doc)
    requires TermQueryOf(e, text, fields, all).Some?
    ensures var terms := QueryTerms(e, text).value;
      Matches(TermQueryOf(e, text, fields, all).value.query, doc) <==>
        if all then terms != [] && forall t :: t in terms ==> HoldsSome(doc, t, fields)
        else exists t :: t in terms && HoldsSome(doc, t, fields)
  {
    var terms := QueryTerms(e, text).value;
    if terms != [] {
      if all {
        var groups := seq(|terms|, i requires 0 <= i < |terms| => TermGroup(terms[i], fields));
        forall i | 0 <= i < |terms| ensures Matches(groups[i], doc) <==> HoldsSome(doc, terms[i], fields) {
          TermGroupMatches(terms[i], fields, doc);
        }
        AllRequired(groups, doc);
      } else {
        AlternativesMatch(terms, fields, doc);
        SomeRequired(Alternatives(terms, fields), doc);
      }
    }
  }

  lemma AllRequired(qs: seq<Query>, doc: Doc)
    requires qs != []
    ensures Matches(BooleanQuery(qs, Always(Must, |qs|)), doc) <==> forall i :: 0 <= i < |qs| ==> Matches(qs[i], doc)
  {
    assert Always(Must, |qs|)[0].Must?;
  }

  lemma SomeRequired(qs: seq<Query>, doc: Doc)
    ensures Matches(BooleanQuery(qs, Always(Should, |qs|)), doc) <==> SomeMatches(qs, doc)
  {
    if i :| 0 <= i < |qs| && Matches(qs[i], doc) {
      assert Always(Should, |qs|)[i].Should?;
    }
  }
}
