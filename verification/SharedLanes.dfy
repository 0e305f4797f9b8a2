/** Command queues that share one budget: each queue has its own lock, the budget another, and an operation holds its
    queue's lock across a section of the budget. One step is one such section, so other queues run in between. */
module SharedLanes {
  import opened Wrappers
  import opened QueueCapacity

  datatype Limits = Limits(commands: nat, bytes: nat)

  /** What the holder of a queue's lock is about to do with the budget or the queue. */
  datatype Doing<T> = Nothing | Reserving(item: Queued<T>) | Appending(item: Queued<T>) | Releasing(commands: nat, bytes: nat)

  /** A queue, with the commands it ever accepted and those it ever gave out, in order. */
  datatype Lane<T> = Lane(items: seq<Queued<T>>, closed: bool, doing: Doing<T>, accepted: seq<Queued<T>>, given: seq<Queued<T>>)

  /** The budget's two counters and the queues that share it. */
  datatype Lanes<T> = Lanes(commands: nat, bytes: nat, lanes: seq<Lane<T>>)

  datatype Step<!T> =
    | BeginPush(l: nat, item: Queued<T>)
    | Reserve(l: nat)
    | Append(l: nat)
    | Pop(l: nat)
    | Drain(l: nat, close: bool)
    | Shut(l: nat)
    | Expire(l: nat, remaining: Queued<T> -> nat)
    | Release(l: nat)

  function Init<T>(n: nat): Lanes<T> { Lanes(0, 0, seq(n, _ => Lane([], false, Nothing, [], []))) }

  predicate Refuses<T>(lane: Lane<T>, own: Limits, bytes: nat) {
    lane.closed || |lane.items| >= own.commands || BytesIn(lane.items) + bytes > own.bytes
  }

  predicate Room<T>(s: Lanes<T>, limits: Limits, bytes: nat) { s.commands < limits.commands && s.bytes + bytes <= limits.bytes }

  function Set<T>(s: Lanes<T>, l: nat, lane: Lane<T>): Lanes<T>
    requires l < |s.lanes|
  {
    s.(lanes := s.lanes[l := lane])
  }

  /** Takes commands out of a queue; their share of the budget is given back in a section of its own. */
  function TakeOut<T>(lane: Lane<T>, rest: seq<Queued<T>>, out: seq<Queued<T>>): Lane<T> {
    lane.(items := rest, doing := Releasing(|out|, BytesIn(out)), given := lane.given + out)
  }

  /** A section of one queue alone. */
  function Section<T>(lane: Lane<T>, own: Limits, step: Step<T>): Option<Lane<T>> {
    if step.Append? then
      if lane.doing.Appending?
      then Some(lane.(items := lane.items + [lane.doing.item], doing := Nothing, accepted := lane.accepted + [lane.doing.item]))
      else None
    else if !lane.doing.Nothing? then None
    else match step
      case BeginPush(_, item) => Some(if Refuses(lane, own, item.bytes) then lane else lane.(doing := Reserving(item)))
      case Pop(_) => Some(if lane.items == [] then lane else TakeOut(lane, lane.items[1..], [lane.items[0]]))
      case Drain(_, close) => Some(TakeOut(lane.(closed := lane.closed || close), [], lane.items))
      case Shut(_) => Some(lane.(closed := true))
      case Expire(_, remaining) => Some(TakeOut(lane, Alive(remaining, lane.items), Expired(remaining, lane.items)))
      case _ => None
  }

  function Do<T>(s: Lanes<T>, limits: Limits, own: Limits, step: Step<T>): Option<Lanes<T>> {
    if step.l >= |s.lanes| then None
    else
      var l, lane := step.l, s.lanes[step.l];
      if step.Reserve? then
        if !lane.doing.Reserving? then None
        else if Room(s, limits, lane.doing.item.bytes) then
          Some(Set(s, l, lane.(doing := Appending(lane.doing.item))).(commands := s.commands + 1, bytes := s.bytes + lane.doing.item.bytes))
        else Some(Set(s, l, lane.(doing := Nothing)))
      else if step.Release? then
        if !lane.doing.Releasing? || lane.doing.commands > s.commands || lane.doing.bytes > s.bytes then None
        else Some(Set(s, l, lane.(doing := Nothing)).(commands := s.commands - lane.doing.commands, bytes := s.bytes - lane.doing.bytes))
      else
        var next := Section(lane, own, step);
        if next.None? then None else Some(Set(s, l, next.value))
  }

  /** Any interleaving over n queues. */
  function Run<T>(n: nat, limits: Limits, own: Limits, steps: seq<Step<T>>): Option<Lanes<T>> {
    if steps == [] then Some(Init(n))
    else
      var before := Run(n, limits, own, steps[..|steps| - 1]);
      if before.None? then None else Do(before.value, limits, own, steps[|steps| - 1])
  }

  // ---- what the budget stands for ----

  /** Commands and bytes a queue has in the budget: what it holds, what is reserved but not appended yet, and what has
      been taken out but not released yet. */
  function HeldCommands<T>(lane: Lane<T>): nat {
    |lane.items| + match lane.doing case Appending(_) => 1 case Releasing(commands, _) => commands case _ => 0
  }

  function HeldBytes<T>(lane: Lane<T>): nat {
    BytesIn(lane.items) + match lane.doing case Appending(item) => item.bytes case Releasing(_, bytes) => bytes case _ => 0
  }

  function AllCommands<T>(lanes: seq<Lane<T>>): nat {
    if lanes == [] then 0 else AllCommands(lanes[..|lanes| - 1]) + HeldCommands(lanes[|lanes| - 1])
  }

  function AllBytes<T>(lanes: seq<Lane<T>>): nat {
    if lanes == [] then 0 else AllBytes(lanes[..|lanes| - 1]) + HeldBytes(lanes[|lanes| - 1])
  }

  lemma {:induction false} SumsUpdate<T>(lanes: seq<Lane<T>>, l: nat, lane: Lane<T>)
    requires l < |lanes|
    ensures AllCommands(lanes[l := lane]) == AllCommands(lanes) - HeldCommands(lanes[l]) + HeldCommands(lane)
    ensures AllBytes(lanes[l := lane]) == AllBytes(lanes) - HeldBytes(lanes[l]) + HeldBytes(lane)
    ensures HeldCommands(lanes[l]) <= AllCommands(lanes) && HeldBytes(lanes[l]) <= AllBytes(lanes)
  {
    hide HeldCommands, HeldBytes;
    var n := |lanes| - 1;
    var updated := lanes[l := lane];
    if l == n {
      assert updated[..n] == lanes[..n];
    } else {
      SumsUpdate(lanes[..n], l, lane);
      assert updated[..n] == lanes[..n][l := lane];
    }
  }

  /** a is b with some members left out. */
  ghost predicate Within<T>(a: seq<T>, b: seq<T>) {
    a == [] || (b != [] && ((a[|a| - 1] == b[|b| - 1] && Within(a[..|a| - 1], b[..|b| - 1])) || Within(a, b[..|b| - 1])))
  }

  lemma {:induction false} WithinItself<T>(a: seq<T>)
    ensures Within(a, a)
  {
    if a != [] { WithinItself(a[..|a| - 1]); }
  }

  lemma {:induction false} WithinFront<T>(a: seq<T>, b: seq<T>)
    requires a != [] && Within(a, b)
    ensures Within(a[..|a| - 1], b)
    decreases |b|
  {
    var f, g := a[..|a| - 1], b[..|b| - 1];
    if Within(a, g) {
      WithinFront(a, g);
    } else if f != [] {
      assert Within(f, g);
    }
  }

  lemma {:induction false} WithinChain<T>(a: seq<T>, b: seq<T>, c: seq<T>)
    requires Within(a, b) && Within(b, c)
    ensures Within(a, c)
    decreases |c|
  {
    if a != [] {
      assert b != [] && c != [];
      var f, g, h := a[..|a| - 1], b[..|b| - 1], c[..|c| - 1];
      if Within(b, h) {
        WithinChain(a, b, h);
      } else if a[|a| - 1] == b[|b| - 1] && Within(f, g) {
        WithinChain(f, g, h);
      } else {
        WithinChain(a, g, h);
      }
    }
  }

  lemma WithinBoth<T>(a: seq<T>, b: seq<T>, x: T)
    requires Within(a, b)
    ensures Within(a + [x], b + [x])
  {
    assert (a + [x])[..|a|] == a && (b + [x])[..|b|] == b;
  }

  lemma {:induction false} WithinTail<T>(a: seq<T>)
    requires a != []
    ensures Within(a[1..], a)
  {
    if |a| > 1 {
      var f := a[..|a| - 1];
      WithinTail(f);
      assert a[1..][..|a| - 2] == f[1..];
    }
  }

  /** Expiry keeps the order of what it leaves. */
  lemma {:induction false} AliveWithin<T>(remaining: Queued<T> -> nat, items: seq<Queued<T>>)
    ensures Within(Alive(remaining, items), items)
  {
    if items != [] {
      var front := items[..|items| - 1];
      AliveWithin(remaining, front);
      if remaining(items[|items| - 1]) != 0 {
        WithinBoth(Alive(remaining, front), front, items[|items| - 1]);
        assert front + [items[|items| - 1]] == items;
      }
    }
  }

  /** A queue stays within its own limits, keeps the order of acceptance, and has given out exactly what it does not hold. */
  ghost predicate LaneValid<T>(lane: Lane<T>, own: Limits) {
    && |lane.items| <= own.commands && BytesIn(lane.items) <= own.bytes
    && (lane.doing.Reserving? || lane.doing.Appending? ==> !Refuses(lane, own, lane.doing.item.bytes))
    && Within(lane.items, lane.accepted)
    && multiset(lane.accepted) == multiset(lane.given) + multiset(lane.items)
  }

  /** The budget is what the queues hold and what is under way, and never exceeds its limits. */
  ghost predicate Inv<T>(s: Lanes<T>, limits: Limits, own: Limits) {
    && s.commands == AllCommands(s.lanes) <= limits.commands && s.bytes == AllBytes(s.lanes) <= limits.bytes
    && forall i :: 0 <= i < |s.lanes| ==> LaneValid(s.lanes[i], own)
  }

  lemma TakesOut<T>(lane: Lane<T>, own: Limits, rest: seq<Queued<T>>, out: seq<Queued<T>>)
    requires LaneValid(lane, own) && lane.doing.Nothing? && Within(rest, lane.items)
    requires multiset(rest) + multiset(out) == multiset(lane.items) && |rest| + |out| == |lane.items|
    requires BytesIn(rest) + BytesIn(out) == BytesIn(lane.items)
    ensures LaneValid(TakeOut(lane, rest, out), own)
    ensures HeldCommands(TakeOut(lane, rest, out)) == HeldCommands(lane) && HeldBytes(TakeOut(lane, rest, out)) == HeldBytes(lane)
  {
    WithinChain(rest, lane.items, lane.accepted);
  }

  lemma PopTakesOut<T>(lane: Lane<T>, own: Limits)
    requires LaneValid(lane, own) && lane.doing.Nothing? && lane.items != []
    ensures LaneValid(TakeOut(lane, lane.items[1..], [lane.items[0]]), own)
    ensures var t := TakeOut(lane, lane.items[1..], [lane.items[0]]);
      HeldCommands(t) == HeldCommands(lane) && HeldBytes(t) == HeldBytes(lane)
  {
    var first, rest := [lane.items[0]], lane.items[1..];
    assert lane.items == first + rest;
    BytesSplit(first, rest);
    WithinTail(lane.items);
    hide LaneValid, Within, BytesIn, TakeOut, HeldCommands, HeldBytes;
    TakesOut(lane, own, rest, first);
  }

  lemma DrainTakesOut<T>(lane: Lane<T>, own: Limits)
    requires LaneValid(lane, own) && lane.doing.Nothing?
    ensures var t := TakeOut(lane, [], lane.items);
      LaneValid(t, own) && HeldCommands(t) == HeldCommands(lane) && HeldBytes(t) == HeldBytes(lane)
  {
    TakesOut(lane, own, [], lane.items);
  }

  lemma ExpireTakesOut<T>(lane: Lane<T>, own: Limits, remaining: Queued<T> -> nat)
    requires LaneValid(lane, own) && lane.doing.Nothing?
    ensures var t := TakeOut(lane, Alive(remaining, lane.items), Expired(remaining, lane.items));
      LaneValid(t, own) && HeldCommands(t) == HeldCommands(lane) && HeldBytes(t) == HeldBytes(lane)
  {
    hide LaneValid, Within, Alive, Expired, TakeOut, HeldCommands, HeldBytes;
    AliveAndExpired(remaining, lane.items);
    AliveOrExpired(remaining, lane.items);
    AliveWithin(remaining, lane.items);
    TakesOut(lane, own, Alive(remaining, lane.items), Expired(remaining, lane.items));
  }

  lemma Appended<T>(lane: Lane<T>, own: Limits)
    requires LaneValid(lane, own) && lane.doing.Appending?
    ensures var t := lane.(items := lane.items + [lane.doing.item], doing := Nothing, accepted := lane.accepted + [lane.doing.item]);
      LaneValid(t, own) && HeldCommands(t) == HeldCommands(lane) && HeldBytes(t) == HeldBytes(lane)
  {
    OneMore(lane.items, lane.doing.item);
    OneMore(lane.accepted, lane.doing.item);
    WithinBoth(lane.items, lane.accepted, lane.doing.item);
  }

  /** One queue moved, and the budget's counters as its share did. */
  ghost predicate Balanced<T>(s: Lanes<T>, t: Lanes<T>, limits: Limits, own: Limits, l: nat) {
    && |t.lanes| == |s.lanes| && l < |s.lanes| && t.lanes == s.lanes[l := t.lanes[l]] && LaneValid(t.lanes[l], own)
    && t.commands + HeldCommands(s.lanes[l]) == s.commands + HeldCommands(t.lanes[l])
    && t.bytes + HeldBytes(s.lanes[l]) == s.bytes + HeldBytes(t.lanes[l])
    && t.commands <= limits.commands && t.bytes <= limits.bytes
  }

  lemma SectionKeeps<T>(lane: Lane<T>, own: Limits, step: Step<T>)
    requires LaneValid(lane, own) && Section(lane, own, step).Some?
    ensures var t := Section(lane, own, step).value;
      LaneValid(t, own) && HeldCommands(t) == HeldCommands(lane) && HeldBytes(t) == HeldBytes(lane)
  {
    match step
    case BeginPush(_, item) =>
      hide BytesIn, Within;
    case Append(_) =>
      Appended(lane, own);
    case Pop(_) =>
      hide LaneValid, TakeOut, HeldCommands, HeldBytes;
      if lane.items != [] { PopTakesOut(lane, own); }
    case Drain(_, close) =>
      DrainTakesOut(lane.(closed := lane.closed || close), own);
    case Shut(_) =>
      hide BytesIn, Within;
    case Expire(_, remaining) =>
      hide LaneValid, TakeOut, HeldCommands, HeldBytes;
      ExpireTakesOut(lane, own, remaining);
  }

  lemma LaneStepBalances<T>(s: Lanes<T>, limits: Limits, own: Limits, step: Step<T>)
    requires step.l < |s.lanes| && LaneValid(s.lanes[step.l], own) && s.commands <= limits.commands && s.bytes <= limits.bytes
    requires Do(s, limits, own, step).Some? && !step.Reserve? && !step.Release?
    ensures Balanced(s, Do(s, limits, own, step).value, limits, own, step.l)
  {
    hide Section, LaneValid, HeldCommands, HeldBytes;
    SectionKeeps(s.lanes[step.l], own, step);
  }

  lemma BudgetStepBalances<T>(s: Lanes<T>, limits: Limits, own: Limits, step: Step<T>)
    requires step.l < |s.lanes| && LaneValid(s.lanes[step.l], own) && s.commands <= limits.commands && s.bytes <= limits.bytes
    requires Do(s, limits, own, step).Some? && (step.Reserve? || step.Release?)
    ensures Balanced(s, Do(s, limits, own, step).value, limits, own, step.l)
  {
    hide BytesIn, Within;
  }

  lemma BalancedKeeps<T>(s: Lanes<T>, t: Lanes<T>, limits: Limits, own: Limits, l: nat)
    requires Inv(s, limits, own) && Balanced(s, t, limits, own, l)
    ensures Inv(t, limits, own)
  {
    hide LaneValid, AllCommands, AllBytes, HeldCommands, HeldBytes;
    SumsUpdate(s.lanes, l, t.lanes[l]);
  }

  lemma StepKeeps<T>(s: Lanes<T>, limits: Limits, own: Limits, step: Step<T>)
    requires Inv(s, limits, own) && Do(s, limits, own, step).Some?
    ensures Inv(Do(s, limits, own, step).value, limits, own)
  {
    assert step.l < |s.lanes|;
    hide Do, LaneValid, Balanced;
    if step.Reserve? || step.Release? {
      BudgetStepBalances(s, limits, own, step);
    } else {
      LaneStepBalances(s, limits, own, step);
    }
    BalancedKeeps(s, Do(s, limits, own, step).value, limits, own, step.l);
  }

  lemma {:induction false} InitHoldsNothing<T>(n: nat)
    ensures AllCommands(Init<T>(n).lanes) == 0 && AllBytes(Init<T>(n).lanes) == 0
  {
    if n > 0 {
      InitHoldsNothing<T>(n - 1);
      assert Init<T>(n).lanes[..n - 1] == Init<T>(n - 1).lanes;
    }
  }

  /** In every interleaving of every operation's sections on any number of queues, the budget equals what the queues hold
      plus what is reserved or not yet released, within its limits; each queue is within its own. */
  lemma {:induction false} EveryRunKeeps<T>(n: nat, limits: Limits, own: Limits, steps: seq<Step<T>>)
    requires Run(n, limits, own, steps).Some?
    ensures Inv(Run(n, limits, own, steps).value, limits, own)
  {
    if steps == [] {
      InitHoldsNothing<T>(n);
    } else {
      EveryRunKeeps(n, limits, own, steps[..|steps| - 1]);
      hide Do, Inv;
      StepKeeps(Run(n, limits, own, steps[..|steps| - 1]).value, limits, own, steps[|steps| - 1]);
    }
  }

  /** No release ever underflows: whoever is about to release can. */
  lemma ReleaseNeverUnderflows<T>(n: nat, limits: Limits, own: Limits, steps: seq<Step<T>>, l: nat)
    requires Run(n, limits, own, steps).Some?
    requires var s := Run(n, limits, own, steps).value; l < |s.lanes| && s.lanes[l].doing.Releasing?
    ensures Run(n, limits, own, steps + [Release(l)]).Some?
  {
    EveryRunKeeps(n, limits, own, steps);
    var s := Run(n, limits, own, steps).value;
    SumsUpdate(s.lanes, l, s.lanes[l]);
    assert (steps + [Release(l)])[..|steps|] == steps;
    hide AllCommands, AllBytes;
  }

  function Items<T>(lanes: seq<Lane<T>>): nat {
    if lanes == [] then 0 else Items(lanes[..|lanes| - 1]) + |lanes[|lanes| - 1].items|
  }

  function ItemBytes<T>(lanes: seq<Lane<T>>): nat {
    if lanes == [] then 0 else ItemBytes(lanes[..|lanes| - 1]) + BytesIn(lanes[|lanes| - 1].items)
  }

  lemma {:induction false} IdleHoldsItems<T>(lanes: seq<Lane<T>>)
    requires forall i :: 0 <= i < |lanes| ==> lanes[i].doing.Nothing? || lanes[i].doing.Reserving?
    ensures AllCommands(lanes) == Items(lanes) && AllBytes(lanes) == ItemBytes(lanes)
  {
    if lanes != [] { IdleHoldsItems(lanes[..|lanes| - 1]); }
  }

  /** With no operation between its sections the budget is exactly the sum over the queues. */
  lemma AtRestTheBudgetIsTheSum<T>(n: nat, limits: Limits, own: Limits, steps: seq<Step<T>>)
    requires Run(n, limits, own, steps).Some?
    requires var s := Run(n, limits, own, steps).value; forall i :: 0 <= i < |s.lanes| ==> s.lanes[i].doing.Nothing?
    ensures var s := Run(n, limits, own, steps).value; s.commands == Items(s.lanes) && s.bytes == ItemBytes(s.lanes)
  {
    EveryRunKeeps(n, limits, own, steps);
    IdleHoldsItems(Run(n, limits, own, steps).value.lanes);
  }

  /** A push by a queue left alone for its three sections: refused without a trace exactly if the queue or the budget has
      no room, appended otherwise. */
  lemma PushAlone<T>(s: Lanes<T>, limits: Limits, own: Limits, l: nat, item: Queued<T>)
    requires l < |s.lanes| && s.lanes[l].doing.Nothing?
    ensures var lane := s.lanes[l];
      var begun := Do(s, limits, own, BeginPush(l, item));
      && begun.Some?
      && (Refuses(lane, own, item.bytes) ==> begun.value == s)
      && (!Refuses(lane, own, item.bytes) ==>
            var reserved := Do(begun.value, limits, own, Reserve(l));
            && reserved.Some?
            && (!Room(s, limits, item.bytes) ==> reserved.value == s)
            && (Room(s, limits, item.bytes) ==>
                  Do(reserved.value, limits, own, Append(l))
                  == Some(Lanes(s.commands + 1, s.bytes + item.bytes,
                                s.lanes[l := lane.(items := lane.items + [item], accepted := lane.accepted + [item])]))))
  {
    hide Refuses, BytesIn;
    var lane := s.lanes[l];
    assert s.lanes[l := lane] == s.lanes;
    if !Refuses(lane, own, item.bytes) {
      var begun := Do(s, limits, own, BeginPush(l, item)).value;
      if Room(s, limits, item.bytes) {
        var reserved := Do(begun, limits, own, Reserve(l)).value;
        var appended := lane.(items := lane.items + [item], accepted := lane.accepted + [item]);
        assert reserved.lanes[l] == lane.(doing := Appending(item));
        assert reserved.lanes[l := appended] == s.lanes[l := appended];
      } else {
        assert begun.lanes[l := lane] == s.lanes;
      }
    }
  }

  /** A queue left alone takes commands out and gives their share back. */
  function TakeAndRelease<T>(s: Lanes<T>, limits: Limits, own: Limits, step: Step<T>): Option<Lanes<T>> {
    var taken := Do(s, limits, own, step);
    if taken.None? then None else Do(taken.value, limits, own, Release(step.l))
  }

  /** The queue gave these out, keeps the rest, and the budget has their share again. */
  ghost predicate GaveOut<T>(s: Lanes<T>, l: nat, t: Lanes<T>, closed: bool, rest: seq<Queued<T>>, out: seq<Queued<T>>)
    requires l < |s.lanes|
  {
    && s.commands == t.commands + |out| && s.bytes == t.bytes + BytesIn(out)
    && t.lanes == s.lanes[l := Lane(rest, closed, Nothing, s.lanes[l].accepted, s.lanes[l].given + out)]
  }

  lemma TakeOutAlone<T>(s: Lanes<T>, limits: Limits, own: Limits, step: Step<T>, closed: bool, rest: seq<Queued<T>>, out: seq<Queued<T>>)
    requires step.l < |s.lanes| && s.lanes[step.l].doing.Nothing? && !step.Reserve? && !step.Release?
    requires Section(s.lanes[step.l], own, step) == Some(TakeOut(s.lanes[step.l].(closed := closed), rest, out))
    requires |out| <= s.commands && BytesIn(out) <= s.bytes
    ensures var t := TakeAndRelease(s, limits, own, step); t.Some? && GaveOut(s, step.l, t.value, closed, rest, out)
  {
    hide Section, BytesIn;
    var l, lane := step.l, s.lanes[step.l];
    var taken := Do(s, limits, own, step).value;
    assert taken.lanes[l] == TakeOut(lane.(closed := closed), rest, out);
    var after := Lane(rest, closed, Nothing, lane.accepted, lane.given + out);
    assert taken.lanes[l := after] == s.lanes[l := after];
  }

  /** A queue left alone whose share the budget holds: popping gives out its first command, draining all of them, expiry
      those without time left. */
  lemma TakeAlone<T>(s: Lanes<T>, limits: Limits, own: Limits, step: Step<T>)
    requires step.l < |s.lanes| && s.lanes[step.l].doing.Nothing?
    requires |s.lanes[step.l].items| <= s.commands && BytesIn(s.lanes[step.l].items) <= s.bytes
    ensures var lane, t := s.lanes[step.l], TakeAndRelease(s, limits, own, step);
      && (step.Pop? && lane.items != [] ==>
            t.Some? && GaveOut(s, step.l, t.value, lane.closed, lane.items[1..], [lane.items[0]]))
      && (step.Pop? && lane.items == [] ==> Do(s, limits, own, step) == Some(s))
      && (step.Drain? ==> t.Some? && GaveOut(s, step.l, t.value, lane.closed || step.close, [], lane.items))
      && (step.Expire? ==>
            t.Some? && GaveOut(s, step.l, t.value, lane.closed, Alive(step.remaining, lane.items), Expired(step.remaining, lane.items)))
  {
    hide BytesIn, GaveOut, TakeAndRelease;
    var lane := s.lanes[step.l];
    assert s.lanes[step.l := lane] == s.lanes;
    match step
    case Pop(_) =>
      if lane.items != [] {
        assert lane.items == [lane.items[0]] + lane.items[1..];
        BytesSplit([lane.items[0]], lane.items[1..]);
        TakeOutAlone(s, limits, own, step, lane.closed, lane.items[1..], [lane.items[0]]);
      }
    case Drain(_, close) =>
      TakeOutAlone(s, limits, own, step, lane.closed || close, [], lane.items);
    case Expire(_, remaining) =>
      AliveAndExpired(remaining, lane.items);
      TakeOutAlone(s, limits, own, step, lane.closed, Alive(remaining, lane.items), Expired(remaining, lane.items));
    case _ =>
  }

  /** While one queue's operation is under way, no step of another changes that queue; and a refused reservation changes
      nothing but that it is over. */
  lemma OthersAndRefusalsLeaveAlone<T>(s: Lanes<T>, limits: Limits, own: Limits, step: Step<T>, l: nat)
    requires Do(s, limits, own, step).Some? && l < |s.lanes|
    ensures step.l != l ==> Do(s, limits, own, step).value.lanes[l] == s.lanes[l]
    ensures step == Reserve(l) && !Room(s, limits, s.lanes[l].doing.item.bytes) ==>
      Do(s, limits, own, step) == Some(s.(lanes := s.lanes[l := s.lanes[l].(doing := Nothing)]))
  {
  }

  /** Between the sections the sum over the queues alone is not the budget: a command may be reserved and not there yet. */
  lemma InBetweenTheSumIsLess(limits: Limits, own: Limits) returns (steps: seq<Step<nat>>)
    requires limits.commands > 0 && own.commands > 0
    ensures var s := Run(2, limits, own, steps); s.Some? && Items(s.value.lanes) < s.value.commands
  {
    var item: Queued<nat> := Queued(0, 0);
    var start: Lanes<nat> := Init(2);
    var begun := Set(start, 0, start.lanes[0].(doing := Reserving(item)));
    var reserved := Set(begun, 0, start.lanes[0].(doing := Appending(item))).(commands := 1);
    steps := [BeginPush(0, item)];
    assert steps[..0] == [] && Run(2, limits, own, steps) == Some(begun);
    var more := steps + [Reserve(0)];
    assert more[..1] == steps && Run(2, limits, own, more) == Some(reserved);
    assert reserved.lanes[..1] == [reserved.lanes[0]] && [reserved.lanes[0]][..0] == [];
    assert Items(reserved.lanes[..1]) == 0 && reserved.lanes[1].items == [];
    assert Items(reserved.lanes) == 0;
    steps := more;
  }
}
