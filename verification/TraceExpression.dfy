/** The three-valued evaluation of a traced expression over leaves whose membership may be unknown. */
module TraceExpression {
  import opened Wrappers

  datatype Traced =
    | Leaf(index: nat)
    | And(children: seq<Traced>)
    | Or(children: seq<Traced>)
    | Not(child: Traced)
    | Optional(required: Traced, optional: seq<Traced>)

  type Truth = Option<bool>

  datatype Decision = Decision(matched: Truth, leaves: seq<nat>)

  /** Every leaf index of x is below n. */
  predicate Within(x: Traced, n: nat) {
    match x
    case Leaf(index) => index < n
    case And(children) => forall i :: 0 <= i < |children| ==> Within(children[i], n)
    case Or(children) => forall i :: 0 <= i < |children| ==> Within(children[i], n)
    case Not(child) => Within(child, n)
    case Optional(required, optional) =>
      Within(required, n) && forall i :: 0 <= i < |optional| ==> Within(optional[i], n)
  }

  predicate AnyDecision(decisions: seq<Decision>, truth: Truth) {
    exists i :: 0 <= i < |decisions| && decisions[i].matched == truth
  }

  /** The leaves of the matching decisions, in order. */
  function MatchingLeaves(decisions: seq<Decision>): (r: seq<nat>)
    ensures forall l :: l in r <==> exists i :: 0 <= i < |decisions| && decisions[i].matched == Some(true) && l in decisions[i].leaves
  {
    if decisions == [] then []
    else
      var rest := MatchingLeaves(decisions[1..]);
      assert forall i :: 0 < i < |decisions| ==> decisions[i] == decisions[1..][i - 1];
      if decisions[0].matched == Some(true) then decisions[0].leaves + rest else rest
  }

  function Combine(and: bool, decisions: seq<Decision>): Decision {
    var matched :=
      if AnyDecision(decisions, Some(!and)) then Some(!and)
      else if AnyDecision(decisions, None) then None
      else Some(and);
    Decision(matched, if matched == Some(true) then MatchingLeaves(decisions) else [])
  }

  function Evaluate(x: Traced, membership: seq<Truth>): Decision
    requires Within(x, |membership|)
  {
    match x
    case Leaf(index) => Decision(membership[index], if membership[index] == Some(true) then [index] else [])
    case Not(child) =>
      var m := Evaluate(child, membership).matched;
      Decision(if m.Some? then Some(!m.value) else None, [])
    case And(children) => Combine(true, Decisions(children, membership))
    case Or(children) => Combine(false, Decisions(children, membership))
    case Optional(required, optional) =>
      var decision := Evaluate(required, membership);
      if decision.matched == Some(true)
      then Decision(Some(true), decision.leaves + MatchingLeaves(Decisions(optional, membership)))
      else decision
  }

  function Decisions(xs: seq<Traced>, membership: seq<Truth>): (r: seq<Decision>)
    requires forall i :: 0 <= i < |xs| ==> Within(xs[i], |membership|)
    ensures |r| == |xs|
    ensures forall i :: 0 <= i < |xs| ==> r[i] == Evaluate(xs[i], membership)
  {
    if xs == [] then [] else [Evaluate(xs[0], membership)] + Decisions(xs[1..], membership)
  }

  /** The Boolean meaning of x when every leaf is known. */
  predicate Holds(x: Traced, truth: seq<bool>)
    requires Within(x, |truth|)
  {
    match x
    case Leaf(index) => truth[index]
    case Not(child) => !Holds(child, truth)
    case And(children) => forall i :: 0 <= i < |children| ==> Holds(children[i], truth)
    case Or(children) => exists i :: 0 <= i < |children| && Holds(children[i], truth)
    case Optional(required, _) => Holds(required, truth)
  }

  predicate Completes(truth: seq<bool>, membership: seq<Truth>) {
    |truth| == |membership| && forall i :: 0 <= i < |truth| && membership[i].Some? ==> membership[i].value == truth[i]
  }

  predicate Refines(finer: seq<Truth>, coarser: seq<Truth>) {
    |finer| == |coarser| && forall i :: 0 <= i < |finer| && coarser[i].Some? ==> finer[i] == coarser[i]
  }

  // ---- soundness and monotonicity ----

  /** A decided verdict is the Boolean value under every completion of the unknown leaves. */
  lemma {:induction false} DecidedIsSound(x: Traced, membership: seq<Truth>, truth: seq<bool>)
    requires Within(x, |membership|) && Completes(truth, membership)
    ensures var m := Evaluate(x, membership).matched; m.Some? ==> m.value == Holds(x, truth)
  {
    match x
    case Leaf(_) =>
    case Not(child) => DecidedIsSound(child, membership, truth);
    case And(children) =>
      forall i | 0 <= i < |children|
        ensures var m := Evaluate(children[i], membership).matched; m.Some? ==> m.value == Holds(children[i], truth)
      {
        DecidedIsSound(children[i], membership, truth);
      }
      CombineSound(true, children, membership, truth);
    case Or(children) =>
      forall i | 0 <= i < |children|
        ensures var m := Evaluate(children[i], membership).matched; m.Some? ==> m.value == Holds(children[i], truth)
      {
        DecidedIsSound(children[i], membership, truth);
      }
      CombineSound(false, children, membership, truth);
    case Optional(required, _) => DecidedIsSound(required, membership, truth);
  }

  lemma CombineSound(and: bool, xs: seq<Traced>, membership: seq<Truth>, truth: seq<bool>)
    requires |truth| == |membership|
    requires forall i :: 0 <= i < |xs| ==> Within(xs[i], |membership|)
    requires forall i :: 0 <= i < |xs| ==>
      var m := Evaluate(xs[i], membership).matched; m.Some? ==> m.value == Holds(xs[i], truth)
    ensures var m := Combine(and, Decisions(xs, membership)).matched;
      && (m == Some(!and) ==> exists i :: 0 <= i < |xs| && Holds(xs[i], truth) == !and)
      && (m == Some(and) ==> forall i :: 0 <= i < |xs| ==> Holds(xs[i], truth) == and)
  {
    var ds := Decisions(xs, membership);
    if AnyDecision(ds, Some(!and)) {
      var i :| 0 <= i < |ds| && ds[i].matched == Some(!and);
      assert Holds(xs[i], truth) == !and;
    } else if !AnyDecision(ds, None) {
      forall i | 0 <= i < |xs| ensures Holds(xs[i], truth) == and {
        assert ds[i].matched != None && ds[i].matched != Some(!and);
      }
    }
  }

  /** Learning more about the leaves never changes a decided verdict. */
  lemma {:induction false} RefiningKeepsVerdict(x: Traced, coarser: seq<Truth>, finer: seq<Truth>)
    requires Within(x, |coarser|) && Refines(finer, coarser)
    ensures Evaluate(x, coarser).matched.Some? ==> Evaluate(x, finer).matched == Evaluate(x, coarser).matched
  {
    match x
    case Leaf(_) =>
    case Not(child) => RefiningKeepsVerdict(child, coarser, finer);
    case And(children) =>
      forall i | 0 <= i < |children|
        ensures Evaluate(children[i], coarser).matched.Some? ==> Evaluate(children[i], finer).matched == Evaluate(children[i], coarser).matched
      {
        RefiningKeepsVerdict(children[i], coarser, finer);
      }
      CombineMonotone(true, Decisions(children, coarser), Decisions(children, finer));
    case Or(children) =>
      forall i | 0 <= i < |children|
        ensures Evaluate(children[i], coarser).matched.Some? ==> Evaluate(children[i], finer).matched == Evaluate(children[i], coarser).matched
      {
        RefiningKeepsVerdict(children[i], coarser, finer);
      }
      CombineMonotone(false, Decisions(children, coarser), Decisions(children, finer));
    case Optional(required, _) => RefiningKeepsVerdict(required, coarser, finer);
  }

  lemma CombineMonotone(and: bool, coarser: seq<Decision>, finer: seq<Decision>)
    requires |coarser| == |finer|
    requires forall i :: 0 <= i < |coarser| && coarser[i].matched.Some? ==> finer[i].matched == coarser[i].matched
    ensures Combine(and, coarser).matched.Some? ==> Combine(and, finer).matched == Combine(and, coarser).matched
  {
    if AnyDecision(coarser, Some(!and)) {
      var i :| 0 <= i < |coarser| && coarser[i].matched == Some(!and);
      assert finer[i].matched == Some(!and);
    } else if !AnyDecision(coarser, None) {
      forall i | 0 <= i < |finer| ensures finer[i].matched == Some(and) {
        assert coarser[i].matched != None && coarser[i].matched != Some(!and);
        var value := coarser[i].matched.value;
        assert Some(value) == coarser[i].matched && value != !and;
      }
    }
  }

  // ---- exactness ----

  /** x reads the leaves lo..hi, each exactly once and in order, as preparation numbers them. */
  predicate Numbered(x: Traced, lo: nat, hi: nat) {
    match x
    case Leaf(index) => index == lo && hi == lo + 1
    case And(children) => NumberedAll(children, lo, hi)
    case Or(children) => NumberedAll(children, lo, hi)
    case Not(child) => Numbered(child, lo, hi)
    case Optional(required, optional) =>
      exists mid :: lo <= mid <= hi && Numbered(required, lo, mid) && NumberedAll(optional, mid, hi)
  }

  predicate NumberedAll(xs: seq<Traced>, lo: nat, hi: nat) {
    if xs == [] then lo == hi
    else exists mid :: lo <= mid <= hi && Numbered(xs[0], lo, mid) && NumberedAll(xs[1..], mid, hi)
  }

  lemma {:induction false} NumberedWithin(x: Traced, lo: nat, hi: nat, n: nat)
    requires Numbered(x, lo, hi) && hi <= n
    ensures lo <= hi && Within(x, n)
    decreases x, 0
  {
    match x
    case Leaf(_) =>
    case Not(child) => NumberedWithin(child, lo, hi, n);
    case And(children) => NumberedAllWithin(children, lo, hi, n);
    case Or(children) => NumberedAllWithin(children, lo, hi, n);
    case Optional(required, optional) =>
      var mid :| lo <= mid <= hi && Numbered(required, lo, mid) && NumberedAll(optional, mid, hi);
      NumberedWithin(required, lo, mid, n);
      NumberedAllWithin(optional, mid, hi, n);
  }

  lemma {:induction false} NumberedAllWithin(xs: seq<Traced>, lo: nat, hi: nat, n: nat)
    requires NumberedAll(xs, lo, hi) && hi <= n
    ensures lo <= hi && forall i :: 0 <= i < |xs| ==> Within(xs[i], n)
    decreases xs, 1
  {
    if xs != [] {
      var mid :| lo <= mid <= hi && Numbered(xs[0], lo, mid) && NumberedAll(xs[1..], mid, hi);
      NumberedWithin(xs[0], lo, mid, n);
      NumberedAllWithin(xs[1..], mid, hi, n);
      forall i | 0 <= i < |xs| ensures Within(xs[i], n) {
        if i > 0 { assert xs[i] == xs[1..][i - 1]; }
      }
    }
  }

  predicate AgreeOn(a: seq<bool>, b: seq<bool>, lo: nat, hi: nat) {
    |a| == |b| && hi <= |a| && forall i :: lo <= i < hi ==> a[i] == b[i]
  }

  lemma {:induction false} HoldsReadsItsRange(x: Traced, lo: nat, hi: nat, a: seq<bool>, b: seq<bool>)
    requires Numbered(x, lo, hi) && AgreeOn(a, b, lo, hi)
    ensures Within(x, |a|) && Holds(x, a) == Holds(x, b)
    decreases x, 0
  {
    NumberedWithin(x, lo, hi, |a|);
    match x
    case Leaf(_) =>
    case Not(child) => HoldsReadsItsRange(child, lo, hi, a, b);
    case And(children) => HoldsAllReadTheirRange(children, lo, hi, a, b);
    case Or(children) => HoldsAllReadTheirRange(children, lo, hi, a, b);
    case Optional(required, optional) =>
      var mid :| lo <= mid <= hi && Numbered(required, lo, mid) && NumberedAll(optional, mid, hi);
      HoldsReadsItsRange(required, lo, mid, a, b);
  }

  lemma {:induction false} HoldsAllReadTheirRange(xs: seq<Traced>, lo: nat, hi: nat, a: seq<bool>, b: seq<bool>)
    requires NumberedAll(xs, lo, hi) && AgreeOn(a, b, lo, hi)
    ensures forall i :: 0 <= i < |xs| ==> Within(xs[i], |a|)
    ensures forall i :: 0 <= i < |xs| ==> Holds(xs[i], a) == Holds(xs[i], b)
    decreases xs, 1
  {
    NumberedAllWithin(xs, lo, hi, |a|);
    if xs != [] {
      var mid :| lo <= mid <= hi && Numbered(xs[0], lo, mid) && NumberedAll(xs[1..], mid, hi);
      NumberedAllWithin(xs[1..], mid, hi, |a|);
      HoldsReadsItsRange(xs[0], lo, mid, a, b);
      HoldsAllReadTheirRange(xs[1..], mid, hi, a, b);
      forall i | 0 <= i < |xs| ensures Holds(xs[i], a) == Holds(xs[i], b) {
        if i > 0 { assert xs[i] == xs[1..][i - 1]; }
      }
    }
  }

  /** A completion of the unknown leaves. */
  function AnyCompletion(membership: seq<Truth>): (truth: seq<bool>)
    ensures Completes(truth, membership)
  {
    seq(|membership|, i requires 0 <= i < |membership| => if membership[i].Some? then membership[i].value else false)
  }

  predicate Possible(matched: Truth, want: bool) { matched != Some(!want) }

  /** Any verdict that evaluation leaves open is reached by some completion. */
  lemma {:induction false} OpenVerdictIsReachable(x: Traced, lo: nat, hi: nat, membership: seq<Truth>, want: bool)
    returns (truth: seq<bool>)
    requires Numbered(x, lo, hi) && hi <= |membership|
    requires Within(x, |membership|) && Possible(Evaluate(x, membership).matched, want)
    ensures Completes(truth, membership) && Holds(x, truth) == want
    decreases x, 0
  {
    match x
    case Leaf(index) =>
      truth := AnyCompletion(membership)[index := want];
    case Not(child) =>
      truth := OpenVerdictIsReachable(child, lo, hi, membership, !want);
    case And(children) =>
      truth := OpenCombination(true, children, lo, hi, membership, want);
    case Or(children) =>
      truth := OpenCombination(false, children, lo, hi, membership, want);
    case Optional(required, optional) =>
      var mid :| lo <= mid <= hi && Numbered(required, lo, mid) && NumberedAll(optional, mid, hi);
      truth := OpenVerdictIsReachable(required, lo, mid, membership, want);
  }

  lemma {:induction false} OpenCombination(and: bool, xs: seq<Traced>, lo: nat, hi: nat, membership: seq<Truth>, want: bool)
    returns (truth: seq<bool>)
    requires NumberedAll(xs, lo, hi) && hi <= |membership|
    requires forall i :: 0 <= i < |xs| ==> Within(xs[i], |membership|)
    requires Possible(Combine(and, Decisions(xs, membership)).matched, want)
    ensures Completes(truth, membership)
    ensures want == and ==> forall i :: 0 <= i < |xs| ==> Holds(xs[i], truth) == and
    ensures want != and ==> exists i :: 0 <= i < |xs| && Holds(xs[i], truth) == !and
    decreases xs, 2
  {
    var ds := Decisions(xs, membership);
    var pivot := |xs|;
    if want != and {
      pivot :| 0 <= pivot < |xs| && (ds[pivot].matched == Some(!and) || ds[pivot].matched == None);
    }
    var wants := seq(|xs|, i requires 0 <= i < |xs| =>
      if want == and then and else if i == pivot || ds[i].matched == Some(!and) then !and else and);
    truth := OpenVerdictsAreIndependent(xs, lo, hi, membership, wants);
    if want != and {
      assert Holds(xs[pivot], truth) == wants[pivot];
    }
  }

  lemma {:induction false} OpenVerdictsAreIndependent(xs: seq<Traced>, lo: nat, hi: nat, membership: seq<Truth>, wants: seq<bool>)
    returns (truth: seq<bool>)
    requires NumberedAll(xs, lo, hi) && hi <= |membership| && |wants| == |xs|
    requires forall i :: 0 <= i < |xs| ==> Within(xs[i], |membership|)
    requires forall i :: 0 <= i < |xs| ==> Possible(Evaluate(xs[i], membership).matched, wants[i])
    ensures Completes(truth, membership)
    ensures forall i :: 0 <= i < |xs| ==> Holds(xs[i], truth) == wants[i]
    decreases xs, 1
  {
    if xs == [] {
      truth := AnyCompletion(membership);
    } else {
      var mid :| lo <= mid <= hi && Numbered(xs[0], lo, mid) && NumberedAll(xs[1..], mid, hi);
      var first := OpenVerdictIsReachable(xs[0], lo, mid, membership, wants[0]);
      var rest := OpenVerdictsAreIndependent(xs[1..], mid, hi, membership, wants[1..]);
      truth := first[..mid] + rest[mid..];
      HoldsReadsItsRange(xs[0], lo, mid, first, truth);
      HoldsAllReadTheirRange(xs[1..], mid, hi, rest, truth);
      forall i | 0 <= i < |xs| ensures Holds(xs[i], truth) == wants[i] {
        if i > 0 { assert xs[i] == xs[1..][i - 1]; }
      }
    }
  }

  /** Over separately numbered leaves evaluation decides exactly when all completions agree. */
  lemma EvaluationIsExact(x: Traced, n: nat, membership: seq<Truth>, value: bool)
    requires Numbered(x, 0, n) && |membership| == n
    ensures Within(x, n)
    ensures Evaluate(x, membership).matched == Some(value)
      <==> forall truth: seq<bool> :: Completes(truth, membership) ==> Holds(x, truth) == value
  {
    NumberedWithin(x, 0, n, n);
    var matched := Evaluate(x, membership).matched;
    if matched == Some(value) {
      forall truth: seq<bool> | Completes(truth, membership) ensures Holds(x, truth) == value {
        DecidedIsSound(x, membership, truth);
      }
    } else {
      var truth := OpenVerdictIsReachable(x, 0, n, membership, !value);
      assert Completes(truth, membership);
    }
  }

  // ---- which leaves a verdict is credited to ----

  /** The child a path enters, and whether the node may be walked through at all: a negation may not. */
  function Child(x: Traced, step: nat): Option<Traced> {
    match x
    case Leaf(_) => None
    case Not(_) => None
    case And(children) => if step < |children| then Some(children[step]) else None
    case Or(children) => if step < |children| then Some(children[step]) else None
    case Optional(required, optional) =>
      if step == 0 then Some(required) else if step <= |optional| then Some(optional[step - 1]) else None
  }

  /** The path leads from x through matching nodes only, beneath no negation, to the leaf. */
  predicate Credits(x: Traced, membership: seq<Truth>, path: seq<nat>, leaf: nat)
    requires Within(x, |membership|)
    decreases |path|
  {
    && Evaluate(x, membership).matched == Some(true)
    && if path == [] then x == Leaf(leaf)
       else
         var child := Child(x, path[0]);
         child.Some? && Credits(child.value, membership, path[1..], leaf)
  }

  predicate Supplies(x: Traced, membership: seq<Truth>, leaf: nat)
    requires Within(x, |membership|)
  {
    Evaluate(x, membership).matched == Some(true) && leaf in Evaluate(x, membership).leaves
  }

  predicate StepSupplies(x: Traced, membership: seq<Truth>, leaf: nat, step: nat)
    requires Within(x, |membership|)
  {
    Child(x, step).Some? && Supplies(Child(x, step).value, membership, leaf)
  }

  lemma ListSupplies(xs: seq<Traced>, membership: seq<Truth>, leaf: nat)
    requires forall i :: 0 <= i < |xs| ==> Within(xs[i], |membership|)
    ensures leaf in MatchingLeaves(Decisions(xs, membership))
      <==> exists i :: 0 <= i < |xs| && Supplies(xs[i], membership, leaf)
  {
    hide Evaluate;
    var ds := Decisions(xs, membership);
    if leaf in MatchingLeaves(ds) {
      var i :| 0 <= i < |ds| && ds[i].matched == Some(true) && leaf in ds[i].leaves;
      assert Supplies(xs[i], membership, leaf);
    }
    if i :| 0 <= i < |xs| && Supplies(xs[i], membership, leaf) {
      assert ds[i].matched == Some(true) && leaf in ds[i].leaves;
    }
  }

  lemma CombinationLeaves(x: Traced, membership: seq<Truth>, leaf: nat)
    requires Within(x, |membership|) && (x.And? || x.Or?)
    ensures Supplies(x, membership, leaf) <==>
      Evaluate(x, membership).matched == Some(true) && leaf in MatchingLeaves(Decisions(x.children, membership))
  {
    assert Evaluate(x, membership) == Combine(x.And?, Decisions(x.children, membership));
  }

  lemma CombinationSupplies(x: Traced, membership: seq<Truth>, leaf: nat)
    requires Within(x, |membership|) && (x.And? || x.Or?)
    ensures Supplies(x, membership, leaf)
      <==> Evaluate(x, membership).matched == Some(true) && exists step: nat :: StepSupplies(x, membership, leaf, step)
  {
    hide Evaluate, Decisions;
    CombinationLeaves(x, membership, leaf);
    ListSupplies(x.children, membership, leaf);
    hide Supplies;
    if Supplies(x, membership, leaf) {
      var i :| 0 <= i < |x.children| && Supplies(x.children[i], membership, leaf);
      assert StepSupplies(x, membership, leaf, i);
    }
    if step: nat :| StepSupplies(x, membership, leaf, step) {
      assert Supplies(x.children[step], membership, leaf);
    }
  }

  lemma OptionalSupplies(x: Traced, membership: seq<Truth>, leaf: nat)
    requires Within(x, |membership|) && x.Optional?
    ensures Supplies(x, membership, leaf)
      <==> Evaluate(x, membership).matched == Some(true) && exists step: nat :: StepSupplies(x, membership, leaf, step)
  {
    ListSupplies(x.optional, membership, leaf);
    var required := Evaluate(x.required, membership);
    assert Evaluate(x, membership).matched == required.matched;
    assert required.matched == Some(true) ==>
      Evaluate(x, membership).leaves == required.leaves + MatchingLeaves(Decisions(x.optional, membership));
    hide Evaluate;
    if Supplies(x, membership, leaf) {
      if leaf in required.leaves {
        assert StepSupplies(x, membership, leaf, 0);
      } else {
        var i :| 0 <= i < |x.optional| && Supplies(x.optional[i], membership, leaf);
        assert StepSupplies(x, membership, leaf, i + 1);
      }
    }
    if step: nat :| StepSupplies(x, membership, leaf, step) && required.matched == Some(true) {
      if step > 0 { assert Supplies(x.optional[step - 1], membership, leaf); }
    }
  }

  lemma StepsSupply(x: Traced, membership: seq<Truth>, leaf: nat)
    requires Within(x, |membership|) && !x.Leaf?
    ensures Supplies(x, membership, leaf)
      <==> Evaluate(x, membership).matched == Some(true) && exists step: nat :: StepSupplies(x, membership, leaf, step)
  {
    if x.Optional? {
      OptionalSupplies(x, membership, leaf);
    } else if !x.Not? {
      CombinationSupplies(x, membership, leaf);
    }
  }

  lemma {:induction false} SuppliedThroughPath(x: Traced, membership: seq<Truth>, leaf: nat) returns (path: seq<nat>)
    requires Within(x, |membership|) && Supplies(x, membership, leaf)
    ensures Credits(x, membership, path, leaf)
    decreases x
  {
    if x.Leaf? {
      path := [];
    } else {
      StepsSupply(x, membership, leaf);
      var step: nat :| StepSupplies(x, membership, leaf, step);
      hide Evaluate;
      var rest := SuppliedThroughPath(Child(x, step).value, membership, leaf);
      path := [step] + rest;
      assert path[1..] == rest;
    }
  }

  lemma {:induction false} PathSupplies(x: Traced, membership: seq<Truth>, path: seq<nat>, leaf: nat)
    requires Within(x, |membership|) && Credits(x, membership, path, leaf)
    ensures Supplies(x, membership, leaf)
    decreases |path|
  {
    if path != [] {
      PathSupplies(Child(x, path[0]).value, membership, path[1..], leaf);
      hide Evaluate;
      StepsSupply(x, membership, leaf);
      assert StepSupplies(x, membership, leaf, path[0]);
    }
  }

  /** A leaf is credited exactly when a path of matching nodes that crosses no negation leads to it. */
  lemma CreditedLeaves(x: Traced, membership: seq<Truth>, leaf: nat)
    requires Within(x, |membership|)
    ensures leaf in Evaluate(x, membership).leaves <==> exists path :: Credits(x, membership, path, leaf)
  {
    UnmatchedCreditsNothing(x, membership);
    if leaf in Evaluate(x, membership).leaves {
      var path := SuppliedThroughPath(x, membership, leaf);
    }
    if path :| Credits(x, membership, path, leaf) {
      PathSupplies(x, membership, path, leaf);
    }
  }

  lemma {:induction false} UnmatchedCreditsNothing(x: Traced, membership: seq<Truth>)
    requires Within(x, |membership|)
    ensures Evaluate(x, membership).matched != Some(true) ==> Evaluate(x, membership).leaves == []
  {
    if x.Optional? { UnmatchedCreditsNothing(x.required, membership); }
  }

  /** A credited leaf is itself known to be a member. */
  lemma {:induction false} CreditedLeavesAreMembers(x: Traced, membership: seq<Truth>, leaf: nat)
    requires Within(x, |membership|) && leaf in Evaluate(x, membership).leaves
    ensures leaf < |membership| && membership[leaf] == Some(true)
    decreases x
  {
    match x
    case Leaf(_) =>
    case And(children) =>
      var i :| 0 <= i < |children| && leaf in Evaluate(children[i], membership).leaves;
      CreditedLeavesAreMembers(children[i], membership, leaf);
    case Or(children) =>
      var i :| 0 <= i < |children| && leaf in Evaluate(children[i], membership).leaves;
      CreditedLeavesAreMembers(children[i], membership, leaf);
    case Optional(required, optional) =>
      if leaf in Evaluate(required, membership).leaves {
        CreditedLeavesAreMembers(required, membership, leaf);
      } else {
        var i :| 0 <= i < |optional| && leaf in Evaluate(optional[i], membership).leaves;
        CreditedLeavesAreMembers(optional[i], membership, leaf);
      }
  }
}
