/**
 The writer of one handle and the actor that runs its commands. The first part is the writer's commit protocol, the
 second every interleaving of submissions, closes, poisoning and the actor's own loop.
 */
module WriterActor {
  import opened Wrappers

  const MAX_COMMIT_PAYLOAD_BYTES := 65536

  type Text = seq<nat>

  datatype Mutation = Upsert(id: Text, document: Text) | Delete(id: Text)

  /** What a crash would leave: the committed mutations in order, and the checkpoint of the last commit. */
  datatype Store = Store(mutations: seq<Mutation>, payload: Option<Text>)

  datatype Writer = Writer(staged: seq<Mutation>, checkpointRequired: bool, ownershipUnproven: bool)

  datatype Error = CheckpointRequired | Invalid | CommitFailed | ReloadFailed | ApplyFailed | DirtyClose | QuiescenceFailed

  /** What the storage below does to one call: nothing wrong, a failed preparation, or a commit that reports failure
      and may or may not have become durable. */
  datatype Fault = NoFault | PrepareFails | CommitReportsFailure(durable: bool) | ReloadFails | DecodeFails | AppliesOnly(count: nat) | JoinFails

  datatype Outcome = Outcome(store: Store, writer: Writer, error: Option<Error>)

  /** The writer a handle starts with. */
  function Opened(store: Store): Writer { Writer([], store.payload.Some?, false) }

  function CommitWithPayload(store: Store, w: Writer, payload: Option<Text>, fault: Fault): Outcome {
    if w.checkpointRequired && payload.None? then Outcome(store, w, Some(CheckpointRequired))
    else if payload.Some? && |payload.value| > MAX_COMMIT_PAYLOAD_BYTES then Outcome(store, w, Some(Invalid))
    else if fault.PrepareFails? then Outcome(store, w.(ownershipUnproven := true), Some(CommitFailed))
    else
      var armed := w.(checkpointRequired := w.checkpointRequired || payload.Some?);
      var written := Store(store.mutations + w.staged, payload);
      if fault.CommitReportsFailure? then Outcome(if fault.durable then written else store, armed, Some(CommitFailed))
      else Outcome(written, armed.(staged := []), None)
  }

  /** The durable index, shared by nobody while a writer holds its lock. */
  class Index {
    var store: Store

    constructor (store: Store)
      ensures this.store == store
    {
      this.store := store;
    }
  }

  class IndexWriter {
    const index: Index
    var staged: seq<Mutation>
    var checkpointRequired: bool
    var ownershipUnproven: bool

    function State(): Writer
      reads this
    {
      Writer(staged, checkpointRequired, ownershipUnproven)
    }

    constructor (index: Index)
      ensures this.index == index && State() == Opened(index.store)
    {
      this.index := index;
      staged, checkpointRequired, ownershipUnproven := [], index.store.payload.Some?, false;
    }

    /** The commit protocol: refuse a plain commit over a checkpoint, distrust the workers until preparation has
        succeeded, and remember the checkpoint before the commit that may or may not report its success. */
    method Commit(payload: Option<Text>, fault: Fault) returns (error: Option<Error>)
      modifies this, index
      ensures Outcome(index.store, State(), error) == CommitWithPayload(old(index.store), old(State()), payload, fault)
    {
      if checkpointRequired && payload.None? { return Some(CheckpointRequired); }
      if payload.Some? && |payload.value| > MAX_COMMIT_PAYLOAD_BYTES { return Some(Invalid); }
      var previously := ownershipUnproven;
      ownershipUnproven := true;
      if fault.PrepareFails? { return Some(CommitFailed); }
      ownershipUnproven := previously;
      checkpointRequired := checkpointRequired || payload.Some?;
      var written := Store(index.store.mutations + staged, payload);
      if fault.CommitReportsFailure? {
        if fault.durable { index.store := written; }
        return Some(CommitFailed);
      }
      index.store := written;
      staged := [];
      error := None;
    }
  }

  // ---- what one commit promises ----

  /** A writer that knows of every durable checkpoint. */
  predicate Knows(store: Store, w: Writer) { store.payload.Some? ==> w.checkpointRequired }

  /** Whatever the storage does: a checkpoint is never erased and stays known; a refused plain commit changes nothing;
      nothing durable is lost; a failed preparation leaves the workers unproven for good. */
  lemma CommitIsSafe(store: Store, w: Writer, payload: Option<Text>, fault: Fault)
    requires Knows(store, w)
    ensures var o := CommitWithPayload(store, w, payload, fault);
      && Knows(o.store, o.writer) && (store.payload.Some? ==> o.store.payload.Some?)
      && store.mutations <= o.store.mutations
      && (o.error == Some(CheckpointRequired) <==> w.checkpointRequired && payload.None?)
      && (o.error == Some(CheckpointRequired) ==> o.store == store && o.writer == w)
      && (o.error.None? ==> o.store == Store(store.mutations + w.staged, payload) && o.writer.staged == [])
      && (w.ownershipUnproven ==> o.writer.ownershipUnproven)
      && (o.writer.ownershipUnproven <==>
            w.ownershipUnproven || (fault.PrepareFails? && o.error == Some(CommitFailed)))
  {
  }

  // ---- the actor ----

  datatype Command = Apply(batch: seq<Mutation>) | PlainCommit | Publish(payload: Text) | Reload | Close(rollback: bool)

  datatype Status = Open | Closing | Closed | Poisoned

  /** Where the actor's thread is: between commands, or inside the steps of poisoning, or done. */
  datatype Stage = Idle | MarkPoisoned | Drain | Redeliver(close: bool) | Stopped

  /** A handle. `closers` are threads that won the close decision but have not queued it yet; `failed` remembers that a
      command has poisoned the handle. */
  datatype Handle = Handle(
    status: Status, stage: Stage, queue: seq<Command>, closers: seq<bool>,
    writer: Writer, uncommitted: nat, failed: bool, quiesced: bool)

  function Fresh(store: Store): Handle { Handle(Open, Idle, [], [], Opened(store), 0, false, false) }

  datatype Step =
    | Submit(command: Command)      // check the handle is open and queue, under the queue's lock
    | DecideClose(rollback: bool)   // flip open to closing, or find the handle poisoned
    | QueueClose(closer: nat)
    | ForceClose
    | Execute(fault: Fault)
    | Poison                        // the next stage of poisoning

  function Poisoning(h: Handle): Handle { h.(stage := MarkPoisoned, failed := true) }

  /** The actor takes the first command and runs it to its outcome. */
  function Run(store: Store, h: Handle, fault: Fault): (Store, Handle)
    requires h.queue != []
  {
    var rest := h.(queue := h.queue[1..]);
    match h.queue[0]
    case Apply(batch) =>
      if fault.DecodeFails? then (store, rest)
      else if fault.AppliesOnly? && fault.count < |batch| then
        (store, Poisoning(rest.(writer := h.writer.(staged := h.writer.staged + batch[..fault.count]))))
      else (store, rest.(writer := h.writer.(staged := h.writer.staged + batch), uncommitted := h.uncommitted + |batch|))
    case PlainCommit =>
      var o := CommitWithPayload(store, h.writer, None, fault);
      var after := rest.(writer := o.writer);
      (o.store, if o.error.None? then after.(uncommitted := 0)
                else if o.error == Some(CheckpointRequired) then after
                else Poisoning(after))
    case Publish(payload) =>
      var o := CommitWithPayload(store, h.writer, Some(payload), fault);
      var after := rest.(writer := o.writer);
      (o.store, if o.error.None? && !fault.ReloadFails? then after.(uncommitted := 0) else Poisoning(after))
    case Reload => (store, rest)
    case Close(rollback) =>
      if !rollback && h.uncommitted > 0 && h.status.Closing? then (store, rest.(status := Open))
      else
        var quiesced := !h.writer.ownershipUnproven && !fault.JoinFails?;
        (store, h.(status := if quiesced then Closed else Poisoned, stage := Stopped, queue := [], quiesced := quiesced))
  }

  function FirstClose(queue: seq<Command>): bool { exists i :: 0 <= i < |queue| && queue[i].Close? }

  function Do(store: Store, h: Handle, step: Step): Option<(Store, Handle)> {
    match step
    case Submit(command) =>
      if h.stage.Stopped? || !h.status.Open? || command.Close? then None else Some((store, h.(queue := h.queue + [command])))
    case DecideClose(rollback) =>
      if h.status.Open? then Some((store, h.(status := Closing, closers := h.closers + [rollback])))
      else if h.status.Poisoned? then Some((store, h.(closers := h.closers + [true])))
      else None
    case QueueClose(k) =>
      if k >= |h.closers| || h.stage.Stopped? then None
      else Some((store, h.(queue := h.queue + [Close(h.closers[k])], closers := h.closers[..k] + h.closers[k + 1..])))
    case ForceClose =>
      if h.stage.Stopped? || h.status.Closed? || h.status.Closing? then None
      else Some((store, h.(status := Closing, queue := h.queue + [Close(true)])))
    case Execute(fault) => if !h.stage.Idle? || h.queue == [] then None else Some(Run(store, h, fault))
    case Poison =>
      match h.stage
      case MarkPoisoned => Some((store, h.(status := Poisoned, stage := Drain)))
      case Drain => Some((store, h.(queue := [], stage := Redeliver(FirstClose(h.queue)))))
      case Redeliver(close) => Some((store, h.(queue := if close then h.queue + [Close(true)] else h.queue, stage := Idle)))
      case _ => None
  }

  // ---- invariants of every interleaving ----

  /** A command that is not a close waits behind a close that will not be refused. */
  predicate Forced(queue: seq<Command>) { exists i :: 0 <= i < |queue| && queue[i] == Close(true) }

  predicate BehindForced(queue: seq<Command>) {
    forall i :: 0 <= i < |queue| && !queue[i].Close? ==> Forced(queue[..i])
  }

  predicate Inv(store: Store, h: Handle) {
    && (!h.stage.Stopped? ==> Knows(store, h.writer))
    && (h.failed && h.stage.Idle? ==> BehindForced(h.queue) && (h.status.Poisoned? || Forced(h.queue)))
    && (h.stage.Drain? ==> h.status.Poisoned? || Forced(h.queue))
    && (h.stage.Redeliver? ==> BehindForced(h.queue) && (h.status.Poisoned? || h.stage.close || Forced(h.queue))
                               && (forall i :: 0 <= i < |h.queue| ==> h.queue[i].Close?))
    && (h.stage.Stopped? ==> (h.quiesced <==> h.status.Closed?) && (h.quiesced ==> !h.writer.ownershipUnproven))
    && (h.stage.Drain? || h.stage.Redeliver? ==> !h.status.Open?)
    && (h.stage.MarkPoisoned? || h.stage.Drain? || h.stage.Redeliver? ==> h.failed)
  }

  lemma ForcedAppend(queue: seq<Command>, more: Command)
    ensures Forced(queue) ==> Forced(queue + [more])
    ensures more == Close(true) ==> Forced(queue + [more])
    ensures BehindForced(queue) && (more.Close? || Forced(queue)) ==> BehindForced(queue + [more])
  {
    var longer := queue + [more];
    if i :| 0 <= i < |queue| && queue[i] == Close(true) { assert longer[i] == Close(true); }
    if more == Close(true) { assert longer[|queue|] == Close(true); }
    if BehindForced(queue) && (more.Close? || Forced(queue)) {
      forall i | 0 <= i < |longer| && !longer[i].Close? ensures Forced(longer[..i]) {
        if i < |queue| { assert longer[..i] == queue[..i]; } else { assert longer[..i] == queue; }
      }
    }
  }

  lemma BehindForcedTail(queue: seq<Command>)
    requires queue != [] && BehindForced(queue)
    ensures queue[0].Close?
    ensures queue[0] != Close(true) ==> BehindForced(queue[1..]) && (Forced(queue) ==> Forced(queue[1..]))
  {
    assert !Forced(queue[..0]);
    if queue[0] != Close(true) {
      var rest := queue[1..];
      if i :| 0 <= i < |queue| && queue[i] == Close(true) { assert rest[i - 1] == Close(true); }
      forall i | 0 <= i < |rest| && !rest[i].Close? ensures Forced(rest[..i]) {
        assert queue[i + 1] == rest[i];
        assert Forced(queue[..i + 1]);
        var j :| 0 <= j < i + 1 && queue[..i + 1][j] == Close(true);
        assert rest[..i][j - 1] == Close(true);
      }
    }
  }

  lemma ExecuteKeeps(store: Store, h: Handle, fault: Fault)
    requires Inv(store, h) && h.stage.Idle? && h.queue != []
    ensures var (after, k) := Run(store, h, fault); Inv(after, k)
  {
    if h.queue[0].PlainCommit? { CommitIsSafe(store, h.writer, None, fault); }
    if h.queue[0].Publish? { CommitIsSafe(store, h.writer, Some(h.queue[0].payload), fault); }
    if h.failed { BehindForcedTail(h.queue); }
  }

  lemma QueueingKeeps(store: Store, h: Handle, step: Step)
    requires Inv(store, h) && Do(store, h, step).Some? && !step.Execute? && !step.Poison?
    ensures Inv(Do(store, h, step).value.0, Do(store, h, step).value.1)
  {
    hide Forced, BehindForced;
    match step
    case Submit(command) => ForcedAppend(h.queue, command);
    case QueueClose(k) => ForcedAppend(h.queue, Close(h.closers[k]));
    case ForceClose => ForcedAppend(h.queue, Close(true));
    case _ =>
  }

  lemma PoisoningKeeps(store: Store, h: Handle)
    requires Inv(store, h) && Do(store, h, Poison).Some?
    ensures Inv(Do(store, h, Poison).value.0, Do(store, h, Poison).value.1)
  {
    if h.stage.Drain? && Forced(h.queue) {
      var i :| 0 <= i < |h.queue| && h.queue[i] == Close(true);
      assert h.queue[i].Close?;
    }
    if h.stage.Redeliver? { ForcedAppend(h.queue, Close(true)); }
  }

  lemma StepKeeps(store: Store, h: Handle, step: Step)
    requires Inv(store, h) && Do(store, h, step).Some?
    ensures Inv(Do(store, h, step).value.0, Do(store, h, step).value.1)
  {
    if step.Execute? { ExecuteKeeps(store, h, step.fault); }
    else if step.Poison? { PoisoningKeeps(store, h); }
    else { QueueingKeeps(store, h, step); }
  }

  /** What one step of any interleaving may do to the index and to a handle: a checkpoint stays, committed mutations
      stay, a poisoned handle leaves the index alone and never recovers, and workers left unproven stay unproven. */
  lemma StepIsSafe(store: Store, h: Handle, step: Step)
    requires Inv(store, h) && Do(store, h, step).Some?
    ensures var (after, k) := Do(store, h, step).value;
      && (store.payload.Some? ==> after.payload.Some?) && store.mutations <= after.mutations
      && (h.failed ==> after == store && k.failed)
      && (h.stage.Stopped? ==> after == store && k.stage.Stopped? && k.quiesced == h.quiesced)
      && (h.writer.ownershipUnproven ==> k.writer.ownershipUnproven)
      && (k.writer.ownershipUnproven && k.stage.Stopped? && !h.stage.Stopped? ==> !k.quiesced)
  {
    if step.Execute? {
      if h.failed { BehindForcedTail(h.queue); }
      if h.queue[0].PlainCommit? { CommitIsSafe(store, h.writer, None, step.fault); }
      if h.queue[0].Publish? { CommitIsSafe(store, h.writer, Some(h.queue[0].payload), step.fault); }
    }
  }

  /** A plain commit over a checkpoint is refused, and everything staged stays for a publish. */
  lemma PlainCommitOverCheckpoint(store: Store, h: Handle, fault: Fault)
    requires Inv(store, h) && h.stage.Idle? && h.queue != [] && h.queue[0].PlainCommit? && store.payload.Some?
    ensures Run(store, h, fault) == (store, h.(queue := h.queue[1..]))
  {
  }

  /** The handle's next command is a commit or publish that fails, other than a plain commit refused over a checkpoint. */
  predicate AboutToFail(store: Store, h: Handle, fault: Fault) {
    && h.stage.Idle? && h.queue != [] && (h.queue[0].PlainCommit? || h.queue[0].Publish?)
    && var error := CommitWithPayload(store, h.writer, if h.queue[0].Publish? then Some(h.queue[0].payload) else None, fault).error;
       (error.Some? && error != Some(CheckpointRequired)) || (h.queue[0].Publish? && fault.ReloadFails?)
  }

  lemma OtherFailuresPoison(store: Store, h: Handle, fault: Fault)
    requires Inv(store, h) && AboutToFail(store, h, fault)
    ensures Run(store, h, fault).1.failed && Run(store, h, fault).1.stage.MarkPoisoned?
  {
  }

  // ---- whole runs of one handle ----

  function RunAll(store: Store, h: Handle, steps: seq<Step>): Option<(Store, Handle)> {
    if steps == [] then Some((store, h))
    else
      var before := RunAll(store, h, steps[..|steps| - 1]);
      if before.None? then None else Do(before.value.0, before.value.1, steps[|steps| - 1])
  }

  /** Over every run of a handle: see StepIsSafe, now from any point of the run to any later one. */
  lemma {:induction false} EveryRunIsSafe(store: Store, h: Handle, steps: seq<Step>)
    requires Inv(store, h) && RunAll(store, h, steps).Some?
    ensures var (after, k) := RunAll(store, h, steps).value;
      && Inv(after, k)
      && (store.payload.Some? ==> after.payload.Some?) && store.mutations <= after.mutations
      && (h.failed ==> after == store && k.failed)
      && (h.writer.ownershipUnproven && !h.stage.Stopped? ==>
            k.writer.ownershipUnproven && (k.stage.Stopped? ==> !k.quiesced && k.status.Poisoned?))
  {
    if steps != [] {
      EveryRunIsSafe(store, h, steps[..|steps| - 1]);
      var (middle, j) := RunAll(store, h, steps[..|steps| - 1]).value;
      StepKeeps(middle, j, steps[|steps| - 1]);
      StepIsSafe(middle, j, steps[|steps| - 1]);
      StoppedStatus(middle, j, steps[|steps| - 1]);
    }
  }

  lemma StoppedStatus(store: Store, h: Handle, step: Step)
    requires Inv(store, h) && Do(store, h, step).Some?
    ensures var k := Do(store, h, step).value.1;
      && (h.stage.Stopped? && h.status.Poisoned? ==> k.status.Poisoned?)
      && (k.stage.Stopped? && !h.stage.Stopped? && !k.quiesced ==> k.status.Poisoned?)
  {
  }

  lemma FreshHandle(store: Store)
    ensures Inv(store, Fresh(store))
  {
  }

  /** A failed commit or publish ends the handle's part in the index: what the failure itself left behind is, from then on
      and in every continuation, all that this handle does to the index. */
  lemma FailedCommitEndsChanges(store: Store, h: Handle, fault: Fault, steps: seq<Step>)
    requires Inv(store, h) && AboutToFail(store, h, fault)
    requires var (left, k) := Run(store, h, fault); RunAll(left, k, steps).Some?
    ensures var (left, k) := Run(store, h, fault); RunAll(left, k, steps).value.0 == left && RunAll(left, k, steps).value.1.failed
  {
    OtherFailuresPoison(store, h, fault);
    ExecuteKeeps(store, h, fault);
    hide Run, Inv, CommitWithPayload;
    var (left, k) := Run(store, h, fault);
    EveryRunIsSafe(left, k, steps);
  }
}
