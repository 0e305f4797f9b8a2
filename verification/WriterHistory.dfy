/**
 What a handle's commands come to over a whole run. The commands its actor executed are collected beside the run, each
 with what the storage did to it, and everything here is said of that history: which mutations are durable, which are
 staged, when the handle has failed, and when a close is refused.
 */
module WriterHistory {
  import opened Wrappers
  import opened WriterActor

  /** A command the actor has run, and what happened to it below. */
  datatype Executed = Executed(command: Command, fault: Fault)

  /** The commands executed in a run, in order: the head of the queue at every turn of the actor. */
  function History(store: Store, h: Handle, steps: seq<Step>): (log: seq<Executed>)
    requires RunAll(store, h, steps).Some?
  {
    if steps == [] then []
    else
      var before := RunAll(store, h, steps[..|steps| - 1]).value.1;
      var last := steps[|steps| - 1];
      History(store, h, steps[..|steps| - 1]) + if last.Execute? then [Executed(before.queue[0], last.fault)] else []
  }

  /** The mutations an executed command adds: those of a batch that could be decoded, as far as they were applied. */
  function Added(e: Executed): seq<Mutation> {
    if !e.command.Apply? || e.fault.DecodeFails? then []
    else if e.fault.AppliesOnly? && e.fault.count < |e.command.batch| then e.command.batch[..e.fault.count]
    else e.command.batch
  }

  function Batches(log: seq<Executed>): seq<Mutation> {
    if log == [] then [] else Batches(log[..|log| - 1]) + Added(log[|log| - 1])
  }

  /** The index has had a checkpoint from the start or by one of these commands. */
  predicate Checkpointed(start: Store, log: seq<Executed>) {
    start.payload.Some? || exists i :: 0 <= i < |log| && log[i].command.Publish?
  }

  /** Command `i` asks the storage for a commit: a publish of an admissible payload, or a commit without a checkpoint. */
  predicate Attempts(start: Store, log: seq<Executed>, i: nat)
    requires i < |log|
  {
    match log[i].command
    case Publish(payload) => |payload| <= MAX_COMMIT_PAYLOAD_BYTES
    case PlainCommit => !Checkpointed(start, log[..i])
    case _ => false
  }

  /** Command `i` makes durable what is staged, whether or not it hears of it. */
  predicate MadeDurable(start: Store, log: seq<Executed>, i: nat)
    requires i < |log|
  {
    Attempts(start, log, i) && !log[i].fault.PrepareFails? && (log[i].fault.CommitReportsFailure? ==> log[i].fault.durable)
  }

  /** Command `i` is one after which the handle may not go on. */
  predicate Fails(start: Store, log: seq<Executed>, i: nat)
    requires i < |log|
  {
    var fault := log[i].fault;
    match log[i].command
    case Apply(batch) => fault.AppliesOnly? && fault.count < |batch|
    case PlainCommit => Attempts(start, log, i) && (fault.PrepareFails? || fault.CommitReportsFailure?)
    case Publish(payload) =>
      !Attempts(start, log, i) || fault.PrepareFails? || fault.CommitReportsFailure? || fault.ReloadFails?
    case _ => false
  }

  predicate AnyFails(start: Store, log: seq<Executed>) { exists i :: 0 <= i < |log| && Fails(start, log, i) }

  predicate LosesWorkers(start: Store, log: seq<Executed>, i: nat)
    requires i < |log|
  {
    Attempts(start, log, i) && log[i].fault.PrepareFails?
  }

  predicate AnyLosesWorkers(start: Store, log: seq<Executed>) { exists i :: 0 <= i < |log| && LosesWorkers(start, log, i) }

  /** How many commands there were up to the last that made anything durable. */
  function LastDurable(start: Store, log: seq<Executed>): (c: nat)
    ensures c <= |log| && (c > 0 ==> MadeDurable(start, log, c - 1))
    ensures forall i :: c <= i < |log| ==> !MadeDurable(start, log, i)
  {
    if log == [] then 0
    else if MadeDurable(start, log, |log| - 1) then |log|
    else
      var before := log[..|log| - 1];
      var c := LastDurable(start, before);
      assert forall i {:trigger MadeDurable(start, log, i)} :: 0 <= i < |before| ==>
        before[i] == log[i] && before[..i] == log[..i] && (MadeDurable(start, before, i) <==> MadeDurable(start, log, i));
      c
  }

  /** The payload left by the last command that made anything durable. */
  function LastPayload(start: Store, log: seq<Executed>): Option<Text> {
    var c := LastDurable(start, log);
    if c == 0 then start.payload else if log[c - 1].command.Publish? then Some(log[c - 1].command.payload) else None
  }

  lemma Appended(start: Store, log: seq<Executed>, e: Executed, i: nat)
    requires i < |log|
    ensures (log + [e])[..i] == log[..i]
    ensures Attempts(start, log + [e], i) == Attempts(start, log, i)
    ensures MadeDurable(start, log + [e], i) == MadeDurable(start, log, i)
    ensures Fails(start, log + [e], i) == Fails(start, log, i)
    ensures LosesWorkers(start, log + [e], i) == LosesWorkers(start, log, i)
  {
    assert (log + [e])[..i] == log[..i];
  }

  lemma AnyAppended(start: Store, log: seq<Executed>, e: Executed)
    ensures var longer := log + [e];
      && (AnyFails(start, longer) <==> AnyFails(start, log) || Fails(start, longer, |log|))
      && (AnyLosesWorkers(start, longer) <==> AnyLosesWorkers(start, log) || LosesWorkers(start, longer, |log|))
      && (Checkpointed(start, longer) <==> Checkpointed(start, log) || e.command.Publish?)
  {
    hide Attempts, MadeDurable, Fails, LosesWorkers;
    var longer := log + [e];
    forall i | 0 <= i < |log| ensures Fails(start, longer, i) == Fails(start, log, i) && LosesWorkers(start, longer, i) == LosesWorkers(start, log, i) {
      Appended(start, log, e, i);
    }
    if i :| 0 <= i < |log| && log[i].command.Publish? { assert longer[i].command.Publish?; }
    assert longer[|log|] == e;
    if i :| 0 <= i < |log| && Fails(start, log, i) { assert Fails(start, longer, i); }
    if i :| 0 <= i < |log| && LosesWorkers(start, log, i) { assert LosesWorkers(start, longer, i); }
  }

  lemma LastDurableAppended(start: Store, log: seq<Executed>, e: Executed)
    ensures LastDurable(start, log + [e])
      == if MadeDurable(start, log + [e], |log|) then |log| + 1 else LastDurable(start, log)
    ensures LastPayload(start, log + [e])
      == if !MadeDurable(start, log + [e], |log|) then LastPayload(start, log) else if e.command.Publish? then Some(e.command.payload) else None
  {
    assert (log + [e])[..|log|] == log;
  }

  lemma {:induction false} BatchesConcat(a: seq<Executed>, b: seq<Executed>)
    ensures Batches(a + b) == Batches(a) + Batches(b)
  {
    if b == [] {
      assert a + b == a;
    } else {
      assert (a + b)[..|a + b| - 1] == a + b[..|b| - 1];
      BatchesConcat(a, b[..|b| - 1]);
    }
  }

  // ---- what every run keeps ----

  predicate Durable(start: Store, log: seq<Executed>, store: Store) {
    var c := LastDurable(start, log);
    store == Store(start.mutations + Batches(log[..c]), LastPayload(start, log))
  }

  predicate Pending(start: Store, log: seq<Executed>, store: Store, h: Handle) {
    && h.writer.staged == Batches(log[LastDurable(start, log)..])
    && h.uncommitted == |h.writer.staged|
    && h.writer.checkpointRequired == Checkpointed(start, log) == store.payload.Some?
  }

  predicate Kept(start: Store, log: seq<Executed>, store: Store, h: Handle) {
    && Durable(start, log, store)
    && (h.failed <==> AnyFails(start, log))
    && (h.writer.ownershipUnproven <==> AnyLosesWorkers(start, log))
    && (!h.failed ==> Pending(start, log, store, h))
  }

  lemma BatchesOne(e: Executed)
    ensures Batches([e]) == Added(e)
    ensures e.command.Apply? && e.fault.NoFault? ==> Batches([e]) == e.command.batch
  {
    assert [e][..0] == [] && Batches([e]) == Batches([]) + Added(e);
  }

  lemma Slices<T>(s: seq<T>, x: T, c: nat)
    requires c <= |s|
    ensures (s + [x])[..c] == s[..c] && (s + [x])[c..] == s[c..] + [x] && s[..c] + s[c..] == s
    ensures (s + [x])[..|s| + 1] == s + [x] && (s + [x])[|s| + 1..] == []
  {
  }

  lemma Associative<T>(a: seq<T>, b: seq<T>, c: seq<T>)
    ensures (a + b) + c == a + (b + c)
  {
  }

  lemma BatchesSince(log: seq<Executed>, e: Executed, c: nat)
    requires c <= |log|
    ensures Batches((log + [e])[c..]) == Batches(log[c..]) + Added(e)
  {
    hide Added, Batches;
    Slices(log, e, c);
    BatchesConcat(log[c..], [e]);
    BatchesOne(e);
  }

  /** A command that adds nothing, after `c`: everything added by then is what was added up to `c` and since. */
  lemma BatchesSplit(log: seq<Executed>, e: Executed, c: nat, before: seq<Mutation>)
    requires c <= |log| && Added(e) == []
    ensures before + Batches(log + [e]) == (before + Batches(log[..c])) + Batches(log[c..])
  {
    hide Added, Batches;
    Slices(log, e, c);
    BatchesConcat(log, [e]);
    BatchesOne(e);
    BatchesConcat(log[..c], log[c..]);
    Associative(before, Batches(log[..c]), Batches(log[c..]));
  }

  /** What a turn of a handle that has not failed does to the index. */
  lemma DurableTurn(start: Store, log: seq<Executed>, store: Store, h: Handle, fault: Fault)
    requires h.queue != [] && h.writer.checkpointRequired == Checkpointed(start, log)
    ensures var e := Executed(h.queue[0], fault);
      && (!MadeDurable(start, log + [e], |log|) ==> Run(store, h, fault).0 == store)
      && (MadeDurable(start, log + [e], |log|) ==> Added(e) == [])
      && var payload := if e.command.Publish? then Some(e.command.payload) else None;
         (MadeDurable(start, log + [e], |log|) ==> Run(store, h, fault).0 == Store(store.mutations + h.writer.staged, payload))
  {
    hide Checkpointed;
    assert (log + [Executed(h.queue[0], fault)])[..|log|] == log;
  }

  /** What a turn that does not fail leaves staged. */
  lemma PendingTurn(start: Store, log: seq<Executed>, store: Store, h: Handle, fault: Fault)
    requires h.queue != [] && h.writer.checkpointRequired == Checkpointed(start, log) == store.payload.Some?
    requires h.uncommitted == |h.writer.staged|
    requires !Fails(start, log + [Executed(h.queue[0], fault)], |log|)
    ensures var e := Executed(h.queue[0], fault);
      var k := Run(store, h, fault).1;
      && k.writer.staged == (if MadeDurable(start, log + [e], |log|) then [] else h.writer.staged + Added(e))
      && k.uncommitted == |k.writer.staged|
      && k.writer.checkpointRequired == (Checkpointed(start, log) || e.command.Publish?)
      && Run(store, h, fault).0.payload.Some? == k.writer.checkpointRequired
  {
    hide Checkpointed;
    assert (log + [Executed(h.queue[0], fault)])[..|log|] == log;
  }

  /** A turn of the actor, seen from its history. */
  lemma DurableStep(start: Store, log: seq<Executed>, store: Store, h: Handle, fault: Fault)
    requires h.queue != [] && Durable(start, log, store) && Pending(start, log, store, h)
    ensures Durable(start, log + [Executed(h.queue[0], fault)], Run(store, h, fault).0)
  {
    var e := Executed(h.queue[0], fault);
    var longer := log + [e];
    var c := LastDurable(start, log);
    DurableTurn(start, log, store, h, fault);
    LastDurableAppended(start, log, e);
    Slices(log, e, c);
    hide Run, MadeDurable, LastDurable, LastPayload, Batches, Added, Checkpointed;
    if MadeDurable(start, longer, |log|) { BatchesSplit(log, e, c, start.mutations); }
  }

  lemma PendingStep(start: Store, log: seq<Executed>, store: Store, h: Handle, fault: Fault)
    requires h.queue != [] && Pending(start, log, store, h) && !Fails(start, log + [Executed(h.queue[0], fault)], |log|)
    ensures Pending(start, log + [Executed(h.queue[0], fault)], Run(store, h, fault).0, Run(store, h, fault).1)
  {
    var e := Executed(h.queue[0], fault);
    LastDurableAppended(start, log, e);
    AnyAppended(start, log, e);
    BatchesSince(log, e, LastDurable(start, log));
    Slices(log, e, |log|);
    PendingTurn(start, log, store, h, fault);
    assert Batches([]) == [];
    hide Run, MadeDurable, LastDurable, LastPayload, Batches, Added, Checkpointed, Fails;
  }

  /** A turn fails, or loses its workers, exactly when the history says so. */
  lemma FailingStep(start: Store, log: seq<Executed>, store: Store, h: Handle, fault: Fault)
    requires h.queue != [] && !h.failed && h.writer.checkpointRequired == Checkpointed(start, log)
    ensures Run(store, h, fault).1.failed == Fails(start, log + [Executed(h.queue[0], fault)], |log|)
    ensures Run(store, h, fault).1.writer.ownershipUnproven
      == (h.writer.ownershipUnproven || LosesWorkers(start, log + [Executed(h.queue[0], fault)], |log|))
  {
    hide Checkpointed, Batches;
    assert (log + [Executed(h.queue[0], fault)])[..|log|] == log;
  }

  lemma ExecuteHistory(start: Store, log: seq<Executed>, store: Store, h: Handle, fault: Fault)
    requires Inv(store, h) && h.stage.Idle? && h.queue != [] && Kept(start, log, store, h)
    ensures Kept(start, log + [Executed(h.queue[0], fault)], Run(store, h, fault).0, Run(store, h, fault).1)
  {
    var e := Executed(h.queue[0], fault);
    AnyAppended(start, log, e);
    if h.failed {
      BehindForcedTail(h.queue);
      LastDurableAppended(start, log, e);
      var c := LastDurable(start, log);
      assert (log + [e])[..c] == log[..c];
    } else {
      FailingStep(start, log, store, h, fault);
      DurableStep(start, log, store, h, fault);
      if !Fails(start, log + [e], |log|) { PendingStep(start, log, store, h, fault); }
    }
  }

  lemma OtherStepHistory(start: Store, log: seq<Executed>, store: Store, h: Handle, step: Step)
    requires Do(store, h, step).Some? && !step.Execute? && Kept(start, log, store, h)
    ensures Kept(start, log, Do(store, h, step).value.0, Do(store, h, step).value.1)
  {
    hide Durable, AnyFails, AnyLosesWorkers, Checkpointed, Batches, LastDurable;
  }

  lemma {:induction false} RunIsKept(start: Store, steps: seq<Step>)
    requires RunAll(start, Fresh(start), steps).Some?
    ensures var (store, h) := RunAll(start, Fresh(start), steps).value;
      Inv(store, h) && Kept(start, History(start, Fresh(start), steps), store, h)
  {
    if steps == [] {
      FreshHandle(start);
    } else {
      var before, last := steps[..|steps| - 1], steps[|steps| - 1];
      RunIsKept(start, before);
      var (store, h) := RunAll(start, Fresh(start), before).value;
      StepKeeps(store, h, last);
      var log := History(start, Fresh(start), before);
      assert log + [] == log;
      if last.Execute? { ExecuteHistory(start, log, store, h, last.fault); }
      else { OtherStepHistory(start, log, store, h, last); }
      hide Kept, Inv, Fresh;
    }
  }

  /** In every run of a handle: what is durable is what was there, followed by every batch up to the last command that
      made anything durable, under that command's payload. The handle has failed iff some command failed, and its workers
      are unproven iff some commit lost them. Until it fails, it holds as staged and uncommitted exactly the batches since,
      in order, and requires a checkpoint iff there is one. */
  lemma BatchesBecomeDurable(start: Store, steps: seq<Step>)
    requires RunAll(start, Fresh(start), steps).Some?
    ensures var (store, h) := RunAll(start, Fresh(start), steps).value;
      var log := History(start, Fresh(start), steps);
      var c := LastDurable(start, log);
      && store == Store(start.mutations + Batches(log[..c]), LastPayload(start, log))
      && (h.failed <==> AnyFails(start, log))
      && (h.writer.ownershipUnproven <==> AnyLosesWorkers(start, log))
      && (!h.failed ==> h.writer.staged == Batches(log[c..]) && h.uncommitted == |Batches(log[c..])|)
      && (!h.failed ==> (h.writer.checkpointRequired <==> store.payload.Some?))
  {
    RunIsKept(start, steps);
  }

  /** Right after a commit or publish that succeeded everything ever applied is durable and nothing is staged. */
  lemma CommitMakesAllDurable(start: Store, steps: seq<Step>)
    requires RunAll(start, Fresh(start), steps).Some? && !RunAll(start, Fresh(start), steps).value.1.failed
    requires var log := History(start, Fresh(start), steps);
      log != [] && Attempts(start, log, |log| - 1)
    ensures var (store, h) := RunAll(start, Fresh(start), steps).value;
      var log := History(start, Fresh(start), steps);
      && store.mutations == start.mutations + Batches(log) && h.writer.staged == [] && h.uncommitted == 0
      && store.payload == (if log[|log| - 1].command.Publish? then Some(log[|log| - 1].command.payload) else None)
  {
    BatchesBecomeDurable(start, steps);
    var log := History(start, Fresh(start), steps);
    assert !Fails(start, log, |log| - 1);
    assert log[..|log|] == log && log[|log|..] == [];
  }

  // ---- closing ----

  predicate HasClose(queue: seq<Command>) { exists i :: 0 <= i < |queue| && queue[i].Close? }

  /** Nothing is queued behind a close. */
  predicate ClosesLast(queue: seq<Command>) { forall i :: 0 <= i < |queue| && queue[i].Close? ==> i == |queue| - 1 }

  /** A handle that has neither failed nor stopped has at most one close on its way, is closing exactly while it has one,
      and takes no command behind it. */
  predicate OneClose(h: Handle) {
    && h.stage.Idle? && (h.status.Open? || h.status.Closing?)
    && ClosesLast(h.queue)
    && (h.closers != [] ==> |h.closers| == 1 && !HasClose(h.queue))
    && (h.status.Closing? <==> h.closers != [] || HasClose(h.queue))
  }

  lemma HasCloseAppend(queue: seq<Command>, more: Command)
    ensures HasClose(queue + [more]) <==> HasClose(queue) || more.Close?
    ensures !HasClose(queue) ==> ClosesLast(queue + [more])
  {
    if i :| 0 <= i < |queue| && queue[i].Close? { assert (queue + [more])[i].Close?; }
    assert (queue + [more])[|queue|] == more;
  }

  lemma HasCloseTail(queue: seq<Command>)
    requires queue != [] && ClosesLast(queue)
    ensures ClosesLast(queue[1..]) && (queue[0].Close? ==> HasClose(queue) && queue[1..] == [] && !HasClose(queue[1..]))
    ensures !queue[0].Close? ==> (HasClose(queue) <==> HasClose(queue[1..]))
  {
    if i :| 0 < i < |queue| && queue[i].Close? { assert queue[1..][i - 1].Close?; }
  }

  lemma OneCloseTurn(store: Store, h: Handle, fault: Fault)
    requires OneClose(h) && h.queue != []
    ensures var k := Run(store, h, fault).1; k.failed || k.stage.Stopped? || OneClose(k)
  {
    HasCloseTail(h.queue);
    hide CommitWithPayload, HasClose, ClosesLast;
  }

  lemma OneCloseStep(store: Store, h: Handle, step: Step)
    requires OneClose(h) && Do(store, h, step).Some?
    ensures var k := Do(store, h, step).value.1; k.failed || k.stage.Stopped? || OneClose(k)
  {
    hide Run, HasClose, ClosesLast;
    match step
    case Submit(command) => HasCloseAppend(h.queue, command);
    case QueueClose(k) => HasCloseAppend(h.queue, Close(h.closers[k]));
    case ForceClose => HasCloseAppend(h.queue, Close(true));
    case Execute(fault) => OneCloseTurn(store, h, fault);
    case _ =>
  }

  lemma {:induction false} OneCloseAlways(start: Store, steps: seq<Step>)
    requires RunAll(start, Fresh(start), steps).Some?
    ensures var h := RunAll(start, Fresh(start), steps).value.1; h.failed || h.stage.Stopped? || OneClose(h)
  {
    if steps != [] {
      var before, last := steps[..|steps| - 1], steps[|steps| - 1];
      OneCloseAlways(start, before);
      RunIsKept(start, before);
      var (store, h) := RunAll(start, Fresh(start), before).value;
      if h.failed || h.stage.Stopped? { StepIsSafe(store, h, last); } else { OneCloseStep(store, h, last); }
    }
  }

  /** When the actor of a handle that has not failed takes a close: a plain one is refused iff there are batches that no
      commit has made durable, and then the handle is open again with all of them still staged; any other ends the handle,
      leaves the index as it is, and is quiesced iff the workers could be joined. */
  lemma CloseRefusedExactly(start: Store, steps: seq<Step>, fault: Fault)
    requires RunAll(start, Fresh(start), steps).Some?
    requires var h := RunAll(start, Fresh(start), steps).value.1;
      h.stage.Idle? && !h.failed && h.queue != [] && h.queue[0].Close?
    ensures var (store, h) := RunAll(start, Fresh(start), steps).value;
      var log := History(start, Fresh(start), steps);
      var unsaved := Batches(log[LastDurable(start, log)..]);
      var (after, k) := Run(store, h, fault);
      && after == store
      && (!h.queue[0].rollback && unsaved != [] ==>
            k.status.Open? && k.stage.Idle? && k.writer.staged == unsaved && k.queue == h.queue[1..] == [] && k.uncommitted == |unsaved|)
      && (h.queue[0].rollback || unsaved == [] ==>
            k.stage.Stopped? && k.queue == [] && k.quiesced == !fault.JoinFails? && k.status == if fault.JoinFails? then Poisoned else Closed)
  {
    OneCloseAlways(start, steps);
    BatchesBecomeDurable(start, steps);
    var log := History(start, Fresh(start), steps);
    assert AnyLosesWorkers(start, log) ==> AnyFails(start, log) by {
      if i :| 0 <= i < |log| && LosesWorkers(start, log, i) { assert Fails(start, log, i); }
    }
    HasCloseTail(RunAll(start, Fresh(start), steps).value.1.queue);
  }

  /** Whatever failed before, the close that ends a handle is quiesced iff no commit lost the workers and they could be joined. */
  lemma QuiescedExactly(start: Store, steps: seq<Step>, fault: Fault)
    requires RunAll(start, Fresh(start), steps + [Execute(fault)]).Some?
    requires RunAll(start, Fresh(start), steps + [Execute(fault)]).value.1.stage.Stopped?
    ensures RunAll(start, Fresh(start), steps + [Execute(fault)]).value.1.quiesced
      <==> !fault.JoinFails? && !AnyLosesWorkers(start, History(start, Fresh(start), steps + [Execute(fault)]))
  {
    var longer := steps + [Execute(fault)];
    assert longer[..|longer| - 1] == steps;
    var (store, h) := RunAll(start, Fresh(start), steps).value;
    RunIsKept(start, longer);
    StoppingTurn(store, h, fault);
    hide AnyLosesWorkers, AnyFails, Inv, Run, Durable, Pending, History;
  }

  lemma StoppingTurn(store: Store, h: Handle, fault: Fault)
    requires h.queue != [] && !h.stage.Stopped? && Run(store, h, fault).1.stage.Stopped?
    ensures var k := Run(store, h, fault).1;
      k.writer == h.writer && (k.quiesced <==> !fault.JoinFails? && !k.writer.ownershipUnproven)
  {
    hide CommitWithPayload;
  }

  /** A close that is decided, queued, or owed again after the queue was drained. */
  predicate CloseOnItsWay(h: Handle) { h.closers != [] || HasClose(h.queue) || h.stage == Redeliver(true) }

  /** No step loses a close on its way, poisoning and the draining of the queue included: only the actor's turn at it ends
      it, by stopping the handle, by reopening it, or by leaving another close on its way. */
  lemma CloseIsNotLost(store: Store, h: Handle, step: Step)
    requires Do(store, h, step).Some? && CloseOnItsWay(h)
    ensures var k := Do(store, h, step).value.1;
      || CloseOnItsWay(k)
      || (step.Execute? && h.queue[0].Close? && (k.stage.Stopped? || k.status.Open?))
  {
    match step
    case Submit(command) => HasCloseAppend(h.queue, command);
    case QueueClose(k) => HasCloseAppend(h.queue, Close(h.closers[k]));
    case ForceClose => HasCloseAppend(h.queue, Close(true));
    case Execute(fault) => if !h.queue[0].Close? { CloseOutlivesTurn(store, h, fault); }
    case Poison => if h.stage.Redeliver? { HasCloseAppend(h.queue, Close(true)); }
    case _ =>
  }

  lemma CloseOutlivesTurn(store: Store, h: Handle, fault: Fault)
    requires h.queue != [] && h.stage.Idle? && CloseOnItsWay(h) && !h.queue[0].Close?
    ensures CloseOnItsWay(Run(store, h, fault).1)
  {
    hide CommitWithPayload;
    if i :| 0 <= i < |h.queue| && h.queue[i].Close? { assert h.queue[1..][i - 1].Close?; }
  }

  // ---- the order of submission ----

  /** The commands that are not closes, in order. */
  function Work(commands: seq<Command>): seq<Command> {
    if commands == [] then [] else (if commands[0].Close? then [] else [commands[0]]) + Work(commands[1..])
  }

  function Commands(log: seq<Executed>): (commands: seq<Command>)
    ensures |commands| == |log| && forall i :: 0 <= i < |log| ==> commands[i] == log[i].command
  {
    seq(|log|, i requires 0 <= i < |log| => log[i].command)
  }

  /** The commands accepted in a run, in order. */
  function Accepted(steps: seq<Step>): seq<Command> {
    if steps == [] then []
    else
      var last := steps[|steps| - 1];
      Accepted(steps[..|steps| - 1]) + if last.Submit? then [last.command] else []
  }

  lemma {:induction false} WorkConcat(a: seq<Command>, b: seq<Command>)
    ensures Work(a + b) == Work(a) + Work(b)
  {
    if a == [] {
      assert a + b == b;
    } else {
      assert (a + b)[1..] == a[1..] + b;
      WorkConcat(a[1..], b);
    }
  }

  lemma WorkAppend(queue: seq<Command>, more: Command)
    ensures Work(queue + [more]) == Work(queue) + if more.Close? then [] else [more]
  {
    WorkConcat(queue, [more]);
    assert Work([more]) == if more.Close? then [] else [more];
  }

  /** Until a handle fails or stops, no accepted command is lost, repeated or overtaken: those executed and those still
      queued are, in order, those accepted. Whatever happens, those executed are the first of those accepted. */
  lemma {:induction false} ExecutedInOrder(start: Store, steps: seq<Step>)
    requires RunAll(start, Fresh(start), steps).Some?
    ensures var h := RunAll(start, Fresh(start), steps).value.1;
      var executed := Work(Commands(History(start, Fresh(start), steps)));
      && executed <= Accepted(steps)
      && (!h.failed && !h.stage.Stopped? ==> executed + Work(h.queue) == Accepted(steps))
  {
    if steps != [] {
      var before, last := steps[..|steps| - 1], steps[|steps| - 1];
      ExecutedInOrder(start, before);
      RunIsKept(start, before);
      OneCloseAlways(start, before);
      var (store, h) := RunAll(start, Fresh(start), before).value;
      var log := History(start, Fresh(start), before);
      if last.Execute? {
        OrderTurn(log, store, h, last.fault, Accepted(before));
        assert Accepted(steps) == Accepted(before);
      } else {
        assert log + [] == log;
        OtherStepsQueue(store, h, last);
        hide Work, Inv, Do, Kept, OneClose, RunAll;
      }
    }
  }

  lemma OrderTurn(log: seq<Executed>, store: Store, h: Handle, fault: Fault, accepted: seq<Command>)
    requires Inv(store, h) && h.stage.Idle? && h.queue != [] && Work(Commands(log)) <= accepted
    requires !h.failed ==> Work(Commands(log)) + Work(h.queue) == accepted
    ensures var k := Run(store, h, fault).1;
      var executed := Work(Commands(log + [Executed(h.queue[0], fault)]));
      executed <= accepted && (!k.failed && !k.stage.Stopped? ==> executed + Work(k.queue) == accepted)
  {
    var e := Executed(h.queue[0], fault);
    assert Commands(log + [e]) == Commands(log) + [e.command];
    WorkAppend(Commands(log), e.command);
    TurnKeepsRest(store, h, fault);
    if h.failed { BehindForcedTail(h.queue); FailedStays(store, h, fault); }
    hide Work, Inv, Run, Commands;
  }

  lemma FailedStays(store: Store, h: Handle, fault: Fault)
    requires h.queue != [] && h.failed
    ensures Run(store, h, fault).1.failed
  {
    hide CommitWithPayload;
  }

  /** A turn that neither fails nor stops leaves the rest of the queue. */
  lemma TurnKeepsRest(store: Store, h: Handle, fault: Fault)
    requires h.queue != []
    ensures var k := Run(store, h, fault).1;
      !k.failed && !k.stage.Stopped? ==> k.queue == h.queue[1..]
    ensures Work(h.queue) == (if h.queue[0].Close? then [] else [h.queue[0]]) + Work(h.queue[1..])
  {
    hide CommitWithPayload;
  }

  lemma OtherStepsQueue(store: Store, h: Handle, step: Step)
    requires Do(store, h, step).Some? && !step.Execute? && (h.failed || h.stage.Stopped? || OneClose(h))
    ensures var k := Do(store, h, step).value.1;
      && k.failed == h.failed && k.stage.Stopped? == h.stage.Stopped?
      && (!h.failed && !h.stage.Stopped? ==> Work(k.queue) == Work(h.queue) + if step.Submit? then [step.command] else [])
  {
    match step
    case Submit(command) => WorkAppend(h.queue, command);
    case QueueClose(k) => WorkAppend(h.queue, Close(h.closers[k]));
    case ForceClose => WorkAppend(h.queue, Close(true));
    case _ =>
  }
}
