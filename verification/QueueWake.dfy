/**
 The wakeup protocol between the two search lanes of a handle, the process-wide expensive-search permits and the
 flexible workers that serve both lanes. One step is one mutex section, atomic operation or thread-local decision.
 */
module QueueWake {
  import opened Wrappers

  datatype Handle = Open | Closing | Ended

  /** Where a flexible worker stands in its pass. */
  datatype Phase =
    | Starting      // about to read the wake generation
    | Observed      // about to look at the expensive queue
    | Summarized    // about to register demand for a wakeup
    | Registered    // about to try for a permit
    | Permitted     // holds a permit, about to pop
    | Returning     // found nothing to pop, about to give the permit back
    | Passed        // about to take expired commands
    | Expiring      // executes expired commands, demand still registered
    | Inspected     // about to steal an ordinary command
    | Checked       // about to look at the handle's state
    | Closable      // saw the handle not open, about to pop without a permit
    | Deciding      // about to wait, or to leave a closed queue
    | Blocked       // waits for the generation to change
    | Leaving       // about to drop its demand and start over
    | Taking        // took a command without a permit, demand still to drop
    | Serving       // executes a command without a permit
    | Running       // took a command under a permit, demand still to drop
    | Executing     // executes a command under a permit
    | Finished      // only drains the ordinary lane from here on

  /** What a worker remembers within one pass; `signalled` is the condition variable having picked it, `timed` that its
      wait ends with a deadline. The last two fields are what the proofs look back at. */
  datatype Worker = Worker(
    phase: Phase, observed: nat, hasExpensive: bool, sawClosed: bool, demands: bool, signalled: bool, timed: bool,
    refusedByHandle: bool, reopeningsSeen: nat)

  /** A queue's lock is held from a push or close to its announcement, which signals one waiter or all of them. */
  datatype Lock = Free | Pushed | Shut

  /** One handle and its share of the process-wide state. Releases are counted between lowering the active count,
      collecting the registered wakes and notifying them. */
  datatype Shared = Shared(
    handle: Handle, reopenings: nat, generation: nat,
    expensive: nat, expensiveLock: Lock, expensiveClosed: bool, ordinary: nat, ordinaryLock: Lock,
    active: nat, others: nat, demand: nat, lowered: nat, due: nat)

  datatype System = System(shared: Shared, workers: seq<Worker>)

  datatype Step =
    | PushExpensive | PushOrdinary | TakeOrdinary | CloseExpensive(drained: bool) | CloseOrdinary(drained: bool)
    | NotifyExpensive(picked: Option<nat>) | NotifyOrdinary(picked: Option<nat>)
    | OthersAcquire | OthersRelease | Collect | Notify
    | BeginClose | Reopen | End
    | Snapshot(w: nat) | Summarize(w: nat) | Register(w: nat) | TryPermit(w: nat) | Pop(w: nat) | ReturnPermit(w: nat)
    | Inspect(w: nat, expired: nat) | Steal(w: nat) | CheckHandle(w: nat) | PopClosing(w: nat) | Decide(w: nat)
    | Wake(w: nat) | Timeout(w: nat) | Spurious(w: nat) | DropDemand(w: nat) | Served(w: nat) | Finish(w: nat)

  const IDLE := Worker(Starting, 0, false, false, false, false, false, false, 0)

  const QUIET := Shared(Open, 0, 0, 0, Free, false, 0, Free, 0, 0, 0, 0, 0)

  function Init(workers: nat): System { System(QUIET, seq(workers, _ => IDLE)) }

  /** A step of the queues, of other handles, of a permit release or of the handle's own life. */
  function DoShared(s: Shared, limit: nat, step: Step): Option<Shared> {
    match step
    case PushExpensive =>
      if !s.expensiveLock.Free? || s.expensiveClosed then None else Some(s.(expensive := s.expensive + 1, expensiveLock := Pushed))
    case PushOrdinary => if s.ordinaryLock.Free? then Some(s.(ordinary := s.ordinary + 1, ordinaryLock := Pushed)) else None
    case TakeOrdinary => if s.ordinaryLock.Free? && s.ordinary > 0 then Some(s.(ordinary := s.ordinary - 1)) else None
    case CloseExpensive(drained) =>
      if s.expensiveLock.Free?
      then Some(s.(expensive := if drained then 0 else s.expensive, expensiveClosed := true, expensiveLock := Shut)) else None
    case CloseOrdinary(drained) =>
      if s.ordinaryLock.Free? then Some(s.(ordinary := if drained then 0 else s.ordinary, ordinaryLock := Shut)) else None
    case NotifyExpensive(_) =>
      if s.expensiveLock.Free? then None else Some(s.(generation := s.generation + 1, expensiveLock := Free))
    case NotifyOrdinary(_) =>
      if s.ordinaryLock.Free? then None else Some(s.(generation := s.generation + 1, ordinaryLock := Free))
    case OthersAcquire => if s.active < limit then Some(s.(active := s.active + 1, others := s.others + 1)) else None
    case OthersRelease =>
      if s.others > 0 && s.active > 0 then Some(s.(active := s.active - 1, others := s.others - 1, lowered := s.lowered + 1)) else None
    case Collect =>
      if s.lowered > 0 then Some(s.(lowered := s.lowered - 1, due := s.due + if s.demand > 0 then 1 else 0)) else None
    case Notify => if s.due > 0 then Some(s.(due := s.due - 1, generation := s.generation + 1)) else None
    case BeginClose => if s.handle.Open? then Some(s.(handle := Closing)) else None
    case Reopen => if s.handle.Closing? then Some(s.(handle := Open, reopenings := s.reopenings + 1)) else None
    case End => Some(s.(handle := Ended))
    case _ => None
  }

  /** In the condition variable's wait set. */
  predicate Asleep(w: Worker) { w.phase.Blocked? && !w.signalled }

  function Roused(w: Worker): Worker { if w.phase.Blocked? then w.(signalled := true) else w }

  function RouseAll(workers: seq<Worker>): (r: seq<Worker>)
    ensures |r| == |workers|
    ensures forall i :: 0 <= i < |r| ==> r[i] == Roused(workers[i])
  {
    seq(|workers|, i requires 0 <= i < |workers| => Roused(workers[i]))
  }

  /** One waiter, whichever it is, if there is any. */
  function RouseOne(workers: seq<Worker>, picked: Option<nat>): Option<seq<Worker>> {
    if picked.Some? then
      if picked.value < |workers| && Asleep(workers[picked.value])
      then Some(workers[picked.value := Roused(workers[picked.value])]) else None
    else if exists i :: 0 <= i < |workers| && Asleep(workers[i]) then None
    else Some(workers)
  }

  /** Whom a step signals: a push one waiter, a close and a permit release all of them. */
  function Signal(s: System, step: Step): Option<seq<Worker>> {
    match step
    case NotifyExpensive(picked) =>
      if s.shared.expensiveLock.Shut? then Some(RouseAll(s.workers)) else RouseOne(s.workers, picked)
    case NotifyOrdinary(picked) =>
      if s.shared.ordinaryLock.Shut? then Some(RouseAll(s.workers)) else RouseOne(s.workers, picked)
    case Notify => Some(RouseAll(s.workers))
    case _ => Some(s.workers)
  }

  /** A worker starts over, reads the generation, looks at the expensive queue and the handle, registers demand. */
  function Look(s: Shared, step: Step, me: Worker): Option<(Shared, Worker)> {
    match step
    case Snapshot(_) =>
      if me.phase.Starting?
      then Some((s, Worker(Observed, s.generation, false, false, false, false, false, false, s.reopenings))) else None
    case Summarize(_) =>
      if me.phase.Observed? && s.expensiveLock.Free?
      then Some((s, me.(phase := Summarized, hasExpensive := s.expensive > 0, sawClosed := s.expensiveClosed))) else None
    case Register(_) =>
      if !me.phase.Summarized? then None
      else if me.hasExpensive then Some((s.(demand := s.demand + 1), me.(phase := Registered, demands := true)))
      else Some((s, me.(phase := Registered)))
    case CheckHandle(_) =>
      if me.phase.Checked? then Some((s, me.(phase := if s.handle.Open? then Deciding else Closable))) else None
    case DropDemand(_) =>
      if !me.phase.Leaving? && !me.phase.Taking? && !me.phase.Running? then None
      else
        var next := if me.phase.Leaving? then Starting else if me.phase.Taking? then Serving else Executing;
        Some((s.(demand := if me.demands && s.demand > 0 then s.demand - 1 else s.demand), me.(phase := next, demands := false)))
    case Served(_) =>
      if me.phase.Expiring? then Some((s, me.(phase := Leaving)))
      else if me.phase.Serving? then Some((s, me.(phase := Starting))) else None
    case _ => None
  }

  /** A worker takes, uses and gives back a permit. */
  function Permit(s: Shared, limit: nat, step: Step, me: Worker): Option<(Shared, Worker)> {
    match step
    case TryPermit(_) =>
      if !me.phase.Registered? then None
      else if me.hasExpensive && s.handle.Open? && s.active < limit then
        Some((s.(active := s.active + 1), me.(phase := Permitted)))
      else Some((s, me.(phase := Passed, refusedByHandle := me.hasExpensive && s.active < limit)))
    case Pop(_) =>
      if !me.phase.Permitted? || !s.expensiveLock.Free? then None
      else if s.expensive > 0 then Some((s.(expensive := s.expensive - 1), me.(phase := Running)))
      else Some((s, me.(phase := Returning)))
    case ReturnPermit(_) =>
      if me.phase.Returning? && s.active > 0
      then Some((s.(active := s.active - 1, lowered := s.lowered + 1), me.(phase := Passed))) else None
    case Finish(_) =>
      if me.phase.Executing? && s.active > 0
      then Some((s.(active := s.active - 1, lowered := s.lowered + 1), me.(phase := Starting))) else None
    case _ => None
  }

  /** A worker takes a command without a permit. */
  function Serve(s: Shared, step: Step, me: Worker): Option<(Shared, Worker)> {
    match step
    case Inspect(_, expired) =>
      if !me.phase.Passed? || !s.expensiveLock.Free? || expired > s.expensive || (!me.hasExpensive && expired > 0) then None
      else Some((s.(expensive := s.expensive - expired),
                 me.(phase := if expired > 0 then Expiring else Inspected, timed := me.hasExpensive && s.expensive > expired)))
    case Steal(_) =>
      if !me.phase.Inspected? || !s.ordinaryLock.Free? then None
      else if s.ordinary > 0 then Some((s.(ordinary := s.ordinary - 1), me.(phase := Taking)))
      else Some((s, me.(phase := Checked)))
    case PopClosing(_) =>
      if !me.phase.Closable? || !s.expensiveLock.Free? then None
      else if s.expensive > 0 then Some((s.(expensive := s.expensive - 1), me.(phase := Taking)))
      else Some((s, me.(phase := Deciding)))
    case _ => None
  }

  /** A worker waits or wakes. */
  function Wait(s: Shared, step: Step, me: Worker): Option<(Shared, Worker)> {
    match step
    case Decide(_) =>
      if !me.phase.Deciding? then None
      else if me.sawClosed then Some((s.(demand := if me.demands && s.demand > 0 then s.demand - 1 else s.demand), me.(phase := Finished, demands := false)))
      else Some((s, me.(phase := if s.generation == me.observed then Blocked else Leaving, signalled := false)))
    case Wake(_) =>
      if !me.phase.Blocked? || !me.signalled then None
      else Some((s, if s.generation == me.observed then me.(signalled := false) else me.(phase := Leaving)))
    case Timeout(_) => if me.phase.Blocked? && me.timed then Some((s, me.(phase := Leaving))) else None
    case Spurious(_) => if me.phase.Blocked? && s.generation != me.observed then Some((s, me.(phase := Leaving))) else None
    case _ => None
  }

  predicate Looking(step: Step) {
    step.Snapshot? || step.Summarize? || step.Register? || step.CheckHandle? || step.DropDemand? || step.Served?
  }

  predicate Permitting(step: Step) { step.TryPermit? || step.Pop? || step.ReturnPermit? || step.Finish? }

  predicate Serves(step: Step) { step.Inspect? || step.Steal? || step.PopClosing? }

  /** A step of one worker: what it does to the shared state and to itself. */
  function DoWorker(s: Shared, limit: nat, step: Step, me: Worker): Option<(Shared, Worker)> {
    if Looking(step) then Look(s, step, me)
    else if Permitting(step) then Permit(s, limit, step, me)
    else if Serves(step) then Serve(s, step, me)
    else Wait(s, step, me)
  }

  function Actor(step: Step): Option<nat> {
    match step
    case Snapshot(w) => Some(w) case Summarize(w) => Some(w) case Register(w) => Some(w) case TryPermit(w) => Some(w)
    case Pop(w) => Some(w) case ReturnPermit(w) => Some(w) case Inspect(w, _) => Some(w) case Steal(w) => Some(w)
    case CheckHandle(w) => Some(w) case PopClosing(w) => Some(w) case Decide(w) => Some(w) case Wake(w) => Some(w)
    case Timeout(w) => Some(w) case Spurious(w) => Some(w) case DropDemand(w) => Some(w) case Served(w) => Some(w)
    case Finish(w) => Some(w)
    case _ => None
  }

  function Do(s: System, limit: nat, step: Step): Option<System> {
    var w := Actor(step);
    if w.None? then
      var t, workers := DoShared(s.shared, limit, step), Signal(s, step);
      if t.None? || workers.None? then None else Some(System(t.value, workers.value))
    else if w.value >= |s.workers| then None
    else
      var t := DoWorker(s.shared, limit, step, s.workers[w.value]);
      if t.None? then None else Some(System(t.value.0, s.workers[w.value := t.value.1]))
  }

  /** Any interleaving from a fresh handle. */
  function Run(workers: nat, limit: nat, steps: seq<Step>): Option<System> {
    if steps == [] then Some(Init(workers))
    else
      var before := Run(workers, limit, steps[..|steps| - 1]);
      if before.None? then None else Do(before.value, limit, steps[|steps| - 1])
  }

  // ---- invariants ----

  predicate HoldsPermit(w: Worker) { w.phase.Permitted? || w.phase.Returning? || w.phase.Running? || w.phase.Executing? }

  predicate Demands(w: Worker) { w.demands }

  function Count(workers: seq<Worker>, property: Worker -> bool): nat {
    if workers == [] then 0
    else Count(workers[..|workers| - 1], property) + if property(workers[|workers| - 1]) then 1 else 0
  }

  lemma {:induction false} CountUpdate(workers: seq<Worker>, w: nat, worker: Worker, property: Worker -> bool)
    requires w < |workers|
    ensures Count(workers[w := worker], property)
      == Count(workers, property) - (if property(workers[w]) then 1 else 0) + (if property(worker) then 1 else 0)
    ensures property(workers[w]) ==> Count(workers, property) > 0
  {
    var n := |workers| - 1;
    var updated := workers[w := worker];
    if w == n {
      assert updated[..n] == workers[..n];
    } else {
      CountUpdate(workers[..n], w, worker, property);
      assert updated[..n] == workers[..n][w := worker];
    }
  }

  lemma {:induction false} CountOne(workers: seq<Worker>, w: nat, property: Worker -> bool)
    requires w < |workers| && property(workers[w])
    ensures Count(workers, property) > 0
  {
    if w < |workers| - 1 { CountOne(workers[..|workers| - 1], w, property); }
  }

  lemma {:induction false} CountSame(a: seq<Worker>, b: seq<Worker>, property: Worker -> bool)
    requires |a| == |b| && forall i :: 0 <= i < |a| ==> property(a[i]) == property(b[i])
    ensures Count(a, property) == Count(b, property)
  {
    if a != [] { CountSame(a[..|a| - 1], b[..|b| - 1], property); }
  }

  /** Permits and registered demand are exactly what their holders hold, and permits never exceed the limit. */
  ghost predicate Conserved(s: System, limit: nat) {
    && s.shared.active == Count(s.workers, HoldsPermit) + s.shared.others && s.shared.active <= limit
    && s.shared.demand == Count(s.workers, Demands)
    && (s.shared.expensiveLock.Pushed? ==> !s.shared.expensiveClosed)
  }

  predicate Attempted(p: Phase) {
    p.Passed? || p.Inspected? || p.Checked? || p.Closable? || p.Deciding? || p.Blocked?
  }

  predicate PastSummary(p: Phase) {
    p.Summarized? || p.Registered? || p.Permitted? || p.Returning? || Attempted(p)
  }

  predicate PastSteal(p: Phase) { p.Checked? || p.Closable? || p.Deciding? || p.Blocked? }

  predicate InPass(p: Phase) { p.Observed? || PastSummary(p) }

  predicate WithoutDemand(p: Phase) { p.Summarized? || p.Observed? || p.Starting? || p.Executing? || p.Serving? }

  /** A worker that still sees its own generation has missed nothing that is not about to be announced. */
  predicate Sees(s: Shared, limit: nat, w: Worker) {
    && (InPass(w.phase) ==> w.observed <= s.generation && w.reopeningsSeen <= s.reopenings)
    && (PastSummary(w.phase) && !w.phase.Summarized? ==> w.demands == w.hasExpensive)
    && (WithoutDemand(w.phase) ==> !w.demands)
    && (InPass(w.phase) && !Attempted(w.phase) ==> !w.refusedByHandle)
    && (PastSummary(w.phase) && w.observed == s.generation && !w.hasExpensive ==> s.expensive == 0 || !s.expensiveLock.Free?)
    && (PastSummary(w.phase) && w.sawClosed ==> s.expensiveClosed)
    && (PastSummary(w.phase) && w.observed == s.generation && s.expensiveClosed ==> w.sawClosed || s.expensiveLock.Shut?)
    && (PastSteal(w.phase) && w.observed == s.generation ==> s.ordinary == 0 || !s.ordinaryLock.Free?)
    && (Attempted(w.phase) && w.observed == s.generation && w.hasExpensive && !w.refusedByHandle ==>
          s.active >= limit || s.lowered > 0 || s.due > 0)
    && (Attempted(w.phase) && w.refusedByHandle ==> !s.handle.Open? || s.reopenings > w.reopeningsSeen)
    && (w.phase.Blocked? ==> !w.sawClosed)
    && (Asleep(w) && s.expensiveClosed ==> s.expensiveLock.Shut?)
    && (w.phase.Finished? ==> s.expensiveClosed)
  }

  /** Picked by no announcement although the generation has moved on. */
  predicate PassedOver(s: Shared, w: Worker) { Asleep(w) && w.observed < s.generation }

  /** However few waiters each announcement signals, it never passes over everybody. */
  ghost predicate SomebodyFollows(s: System) {
    s.workers == [] || exists i :: 0 <= i < |s.workers| && !PassedOver(s.shared, s.workers[i])
  }

  ghost predicate Inv(s: System, limit: nat) {
    && Conserved(s, limit) && SomebodyFollows(s)
    && forall i :: 0 <= i < |s.workers| ==> Sees(s.shared, limit, s.workers[i])
  }

  lemma {:induction false} InitCounts(n: nat, property: Worker -> bool)
    requires !property(IDLE)
    ensures Count(seq(n, _ => IDLE), property) == 0
  {
    if n > 0 {
      assert seq(n, _ => IDLE)[..n - 1] == seq(n - 1, _ => IDLE);
      InitCounts(n - 1, property);
    }
  }

  predicate AnnouncesAll(s: Shared, step: Step) {
    step.Notify? || (step.NotifyExpensive? && s.expensiveLock.Shut?) || (step.NotifyOrdinary? && s.ordinaryLock.Shut?)
  }

  predicate Announces(step: Step) { step.Notify? || step.NotifyExpensive? || step.NotifyOrdinary? }

  lemma SharedStepKeepsOne(s: Shared, limit: nat, step: Step, x: Worker, y: Worker)
    requires DoShared(s, limit, step).Some? && Sees(s, limit, x) && (x.demands ==> s.demand > 0)
    requires s.expensiveLock.Pushed? ==> !s.expensiveClosed
    requires y == x || y == Roused(x)
    requires AnnouncesAll(s, step) ==> y == Roused(x)
    ensures Sees(DoShared(s, limit, step).value, limit, y)
  {
  }

  lemma SharedStepBalances(s: Shared, limit: nat, step: Step)
    requires DoShared(s, limit, step).Some? && s.active <= limit && (s.expensiveLock.Pushed? ==> !s.expensiveClosed)
    ensures var t := DoShared(s, limit, step).value;
      && t.demand == s.demand && t.active + s.others == s.active + t.others && t.active <= limit
      && (t.expensiveLock.Pushed? ==> !t.expensiveClosed)
      && t.generation == s.generation + (if Announces(step) then 1 else 0)
  {
  }

  /** Whoever is signalled is signalled and otherwise as before; an announcement finds somebody, if anybody waits. */
  lemma SignalFacts(s: System, step: Step)
    requires Signal(s, step).Some?
    ensures var workers := Signal(s, step).value;
      && |workers| == |s.workers|
      && (forall i :: 0 <= i < |workers| ==> workers[i] == s.workers[i] || workers[i] == Roused(s.workers[i]))
      && (AnnouncesAll(s.shared, step) ==> forall i :: 0 <= i < |workers| ==> workers[i] == Roused(s.workers[i]))
      && (Announces(step) && workers != [] ==> exists i :: 0 <= i < |workers| && !Asleep(workers[i]))
      && (!Announces(step) ==> workers == s.workers)
  {
    var workers := Signal(s, step).value;
    if Announces(step) && workers != [] {
      if AnnouncesAll(s.shared, step) {
        assert !Asleep(workers[0]);
      } else {
        if step.picked.Some? { assert !Asleep(workers[step.picked.value]); } else { assert !Asleep(workers[0]); }
      }
    }
  }

  lemma SharedStepKeeps(s: System, limit: nat, step: Step)
    requires Inv(s, limit) && DoShared(s.shared, limit, step).Some? && Signal(s, step).Some?
    ensures Inv(System(DoShared(s.shared, limit, step).value, Signal(s, step).value), limit)
  {
    hide DoShared, Sees, Signal;
    var t, workers := DoShared(s.shared, limit, step).value, Signal(s, step).value;
    SignalFacts(s, step);
    SharedStepBalances(s.shared, limit, step);
    CountSame(s.workers, workers, HoldsPermit);
    CountSame(s.workers, workers, Demands);
    forall i | 0 <= i < |workers| ensures Sees(t, limit, workers[i]) {
      if s.workers[i].demands { CountOne(s.workers, i, Demands); }
      SharedStepKeepsOne(s.shared, limit, step, s.workers[i], workers[i]);
    }
    if workers != [] {
      var i :| 0 <= i < |workers| && if Announces(step) then !Asleep(workers[i]) else !PassedOver(s.shared, s.workers[i]);
      assert !PassedOver(t, workers[i]);
    }
  }

  /** What one worker's step may do to the state the other workers look at. */
  predicate Gentle(s: Shared, t: Shared) {
    && t.generation == s.generation && t.expensiveLock == s.expensiveLock && t.ordinaryLock == s.ordinaryLock
    && t.expensiveClosed == s.expensiveClosed && t.handle == s.handle && t.reopenings == s.reopenings
    && t.expensive <= s.expensive && t.ordinary <= s.ordinary && t.due == s.due && t.lowered >= s.lowered
    && (t.active >= s.active || t.lowered > 0)
  }

  /** A step moves the shared counts by what the worker itself takes or gives back. */
  predicate Balanced(s: Shared, t: Shared, before: Worker, after: Worker, limit: nat) {
    && t.others == s.others && t.active <= Max(s.active, limit)
    && t.active + (if HoldsPermit(before) then 1 else 0) == s.active + (if HoldsPermit(after) then 1 else 0)
    && t.demand + (if before.demands then 1 else 0) == s.demand + (if after.demands then 1 else 0)
  }

  /** What one worker's step does to counts and to others; a worker only ever waits at the generation it observed. */
  predicate Moves(s: Shared, t: Shared, before: Worker, after: Worker, limit: nat) {
    Gentle(s, t) && Balanced(s, t, before, after, limit) && !PassedOver(t, after)
  }

  lemma LookMoves(s: Shared, limit: nat, step: Step, me: Worker)
    requires Look(s, step, me).Some? && (WithoutDemand(me.phase) ==> !me.demands) && (me.demands ==> s.demand > 0)
    ensures var (t, after) := Look(s, step, me).value; Moves(s, t, me, after, limit)
  {
  }

  lemma LookSees(s: Shared, limit: nat, step: Step, me: Worker)
    requires s.expensiveLock.Pushed? ==> !s.expensiveClosed
    requires Look(s, step, me).Some? && Sees(s, limit, me)
    ensures var (t, after) := Look(s, step, me).value; Sees(t, limit, after)
  {
  }

  lemma PermitMoves(s: Shared, limit: nat, step: Step, me: Worker)
    requires Permit(s, limit, step, me).Some? && (WithoutDemand(me.phase) ==> !me.demands) && (me.demands ==> s.demand > 0)
    ensures var (t, after) := Permit(s, limit, step, me).value; Moves(s, t, me, after, limit)
  {
  }

  lemma PermitSees(s: Shared, limit: nat, step: Step, me: Worker)
    requires s.expensiveLock.Pushed? ==> !s.expensiveClosed
    requires Permit(s, limit, step, me).Some? && Sees(s, limit, me)
    ensures var (t, after) := Permit(s, limit, step, me).value; Sees(t, limit, after)
  {
  }

  lemma ServeMoves(s: Shared, limit: nat, step: Step, me: Worker)
    requires Serve(s, step, me).Some? && (WithoutDemand(me.phase) ==> !me.demands) && (me.demands ==> s.demand > 0)
    ensures var (t, after) := Serve(s, step, me).value; Moves(s, t, me, after, limit)
  {
  }

  lemma ServeSees(s: Shared, limit: nat, step: Step, me: Worker)
    requires s.expensiveLock.Pushed? ==> !s.expensiveClosed
    requires Serve(s, step, me).Some? && Sees(s, limit, me)
    ensures var (t, after) := Serve(s, step, me).value; Sees(t, limit, after)
  {
  }

  lemma WaitMoves(s: Shared, limit: nat, step: Step, me: Worker)
    requires Wait(s, step, me).Some? && (WithoutDemand(me.phase) ==> !me.demands) && (me.demands ==> s.demand > 0)
    ensures var (t, after) := Wait(s, step, me).value; Moves(s, t, me, after, limit)
  {
  }

  lemma WaitSees(s: Shared, limit: nat, step: Step, me: Worker)
    requires s.expensiveLock.Pushed? ==> !s.expensiveClosed
    requires Wait(s, step, me).Some? && Sees(s, limit, me)
    ensures var (t, after) := Wait(s, step, me).value; Sees(t, limit, after)
  {
  }

  lemma WorkerSteps(s: Shared, limit: nat, step: Step, me: Worker)
    requires s.expensiveLock.Pushed? ==> !s.expensiveClosed
    requires DoWorker(s, limit, step, me).Some? && Sees(s, limit, me) && (me.demands ==> s.demand > 0)
    ensures var (t, after) := DoWorker(s, limit, step, me).value; Moves(s, t, me, after, limit) && Sees(t, limit, after)
  {
    assert WithoutDemand(me.phase) ==> !me.demands;
    hide Look, Permit, Serve, Wait, Sees, Moves;
    if Looking(step) {
      LookMoves(s, limit, step, me);
      LookSees(s, limit, step, me);
    } else if Permitting(step) {
      PermitMoves(s, limit, step, me);
      PermitSees(s, limit, step, me);
    } else if Serves(step) {
      ServeMoves(s, limit, step, me);
      ServeSees(s, limit, step, me);
    } else {
      WaitMoves(s, limit, step, me);
      WaitSees(s, limit, step, me);
    }
  }

  lemma GentleStepKeepsOthers(s: Shared, t: Shared, limit: nat, x: Worker)
    requires Gentle(s, t) && Sees(s, limit, x)
    ensures Sees(t, limit, x)
  {
  }

  lemma WorkerStepKeeps(s: System, limit: nat, step: Step, w: nat)
    requires Inv(s, limit) && w < |s.workers| && DoWorker(s.shared, limit, step, s.workers[w]).Some?
    ensures var (t, after) := DoWorker(s.shared, limit, step, s.workers[w]).value; Inv(System(t, s.workers[w := after]), limit)
  {
    hide DoWorker, Sees, Count;
    var me := s.workers[w];
    var (t, after) := DoWorker(s.shared, limit, step, me).value;
    CountUpdate(s.workers, w, after, HoldsPermit);
    CountUpdate(s.workers, w, after, Demands);
    WorkerSteps(s.shared, limit, step, me);
    var workers := s.workers[w := after];
    assert workers[w] == after;
    forall i | 0 <= i < |workers| ensures Sees(t, limit, workers[i]) {
      if i != w { GentleStepKeepsOthers(s.shared, t, limit, s.workers[i]); }
    }
  }

  /** The invariants hold in every reachable state. */
  lemma {:induction false} EveryRunKeeps(workers: nat, limit: nat, steps: seq<Step>)
    requires Run(workers, limit, steps).Some?
    ensures Inv(Run(workers, limit, steps).value, limit)
  {
    if steps == [] {
      InitCounts(workers, HoldsPermit);
      InitCounts(workers, Demands);
      if workers > 0 { assert !PassedOver(QUIET, Init(workers).workers[0]); }
    } else {
      EveryRunKeeps(workers, limit, steps[..|steps| - 1]);
      var s, step := Run(workers, limit, steps[..|steps| - 1]).value, steps[|steps| - 1];
      hide DoWorker, DoShared, Signal, Inv;
      var w := Actor(step);
      if w.None? { SharedStepKeeps(s, limit, step); } else { WorkerStepKeeps(s, limit, step, w.value); }
    }
  }

  // ---- no lost wakeup ----

  /** Nothing is between changing the state and announcing it. */
  predicate Settled(s: Shared) { s.expensiveLock.Free? && s.ordinaryLock.Free? && s.lowered == 0 && s.due == 0 }

  /** An expensive command could run right now. */
  predicate Runnable(s: Shared, limit: nat) { s.handle.Open? && s.expensive > 0 && s.active < limit }

  /** Waits, unsignalled, for the very generation the handle still has. */
  predicate UpToDate(s: Shared, w: Worker) { Asleep(w) && w.observed == s.generation }

  predicate Busy(w: Worker) { w.phase.Expiring? || w.phase.Taking? || w.phase.Serving? || w.phase.Running? || w.phase.Executing? }

  /** In any interleaving, a settled handle with a worker asleep at its own generation has no ordinary command queued and
      no closed queue to leave; an expensive command is runnable past that worker only if its permit attempt was refused
      because the handle was not open, and the closing it ran into has been undone since. */
  lemma NoLostWakeup(workers: nat, limit: nat, steps: seq<Step>, w: nat)
    requires Run(workers, limit, steps).Some? && w < |Run(workers, limit, steps).value.workers|
    requires var s := Run(workers, limit, steps).value; Settled(s.shared) && UpToDate(s.shared, s.workers[w])
    ensures var s := Run(workers, limit, steps).value;
      && s.shared.ordinary == 0 && !s.shared.expensiveClosed
      && (Runnable(s.shared, limit) ==> s.workers[w].refusedByHandle && s.shared.reopenings > s.workers[w].reopeningsSeen)
  {
    EveryRunKeeps(workers, limit, steps);
    assert Sees(Run(workers, limit, steps).value.shared, limit, Run(workers, limit, steps).value.workers[w]);
  }

  /** What a sleeper with an old generation can rely on: while anybody waits on a settled handle, some worker sleeps at
      the current generation or is at work, on its way or signalled, and nobody has left for good. */
  lemma SomebodyIsCurrent(workers: nat, limit: nat, steps: seq<Step>, w: nat)
    requires Run(workers, limit, steps).Some? && w < |Run(workers, limit, steps).value.workers|
    requires var s := Run(workers, limit, steps).value; Settled(s.shared) && Asleep(s.workers[w])
    ensures var s := Run(workers, limit, steps).value;
      exists i :: 0 <= i < |s.workers| && !s.workers[i].phase.Finished? && (UpToDate(s.shared, s.workers[i]) || !Asleep(s.workers[i]))
  {
    EveryRunKeeps(workers, limit, steps);
    var s := Run(workers, limit, steps).value;
    var i :| 0 <= i < |s.workers| && !PassedOver(s.shared, s.workers[i]);
    assert Sees(s.shared, limit, s.workers[i]) && Sees(s.shared, limit, s.workers[w]);
  }

  lemma {:induction false} RunFacts(workers: nat, limit: nat, steps: seq<Step>)
    requires Run(workers, limit, steps).Some?
    ensures |Run(workers, limit, steps).value.workers| == workers
    ensures Reopen !in steps ==> Run(workers, limit, steps).value.shared.reopenings == 0
  {
    hide Do;
    if steps != [] {
      var before := Run(workers, limit, steps[..|steps| - 1]).value;
      RunFacts(workers, limit, steps[..|steps| - 1]);
      StepFacts(before, limit, steps[|steps| - 1]);
      assert Reopen !in steps ==> Reopen !in steps[..|steps| - 1] && steps[|steps| - 1] != Reopen;
    }
  }

  lemma StepFacts(s: System, limit: nat, step: Step)
    requires Do(s, limit, step).Some?
    ensures var t := Do(s, limit, step).value;
      && |t.workers| == |s.workers|
      && (!step.Reopen? ==> t.shared.reopenings == s.shared.reopenings)
      && t.shared.generation == s.shared.generation + if Announces(step) then 1 else 0
  {
    if Actor(step).Some? {
      WorkerStepGentle(s.shared, limit, step, s.workers[Actor(step).value]);
      hide DoWorker;
    }
  }

  lemma WorkerStepGentle(s: Shared, limit: nat, step: Step, me: Worker)
    requires DoWorker(s, limit, step, me).Some?
    ensures Gentle(s, DoWorker(s, limit, step, me).value.0)
  {
    if Looking(step) {
      hide Permit, Serve, Wait;
    } else if Permitting(step) {
      hide Look, Serve, Wait;
    } else if Serves(step) {
      hide Look, Permit, Wait;
    } else {
      hide Look, Permit, Serve;
    }
  }

  /** Every command that is announced, and every release that is, moves the generation on. */
  lemma {:induction false} AnnouncementsCount(workers: nat, limit: nat, before: seq<Step>, after: seq<Step>)
    requires Run(workers, limit, before + after).Some?
    ensures Run(workers, limit, before).Some?
    ensures Run(workers, limit, before).value.shared.generation <= Run(workers, limit, before + after).value.shared.generation
    ensures (exists step :: step in after && Announces(step)) ==>
      Run(workers, limit, before).value.shared.generation < Run(workers, limit, before + after).value.shared.generation
    decreases |after|
  {
    hide Do, Announces;
    if after == [] {
      assert before + after == before;
    } else {
      var n := |after| - 1;
      assert (before + after)[..|before + after| - 1] == before + after[..n];
      AnnouncementsCount(workers, limit, before, after[..n]);
      StepFacts(Run(workers, limit, before + after[..n]).value, limit, after[n]);
      assert forall step :: step in after ==> step in after[..n] || step == after[n];
    }
  }

  lemma WorkerKeepsObserved(s: Shared, limit: nat, step: Step, me: Worker)
    requires DoWorker(s, limit, step, me).Some? && !step.Snapshot?
    ensures DoWorker(s, limit, step, me).value.1.observed == me.observed
  {
    if Looking(step) {
      hide Permit, Serve, Wait;
    } else if Permitting(step) {
      hide Look, Serve, Wait;
    } else if Serves(step) {
      hide Look, Permit, Wait;
    } else {
      hide Look, Permit, Serve;
    }
  }

  lemma ObservedKept(s: System, limit: nat, step: Step, w: nat)
    requires Do(s, limit, step).Some? && w < |s.workers| && step != Snapshot(w)
    ensures var t := Do(s, limit, step).value; w < |t.workers| && t.workers[w].observed == s.workers[w].observed
  {
    hide DoShared, Signal, DoWorker;
    if Actor(step).None? {
      SignalFacts(s, step);
    } else if !step.Snapshot? {
      WorkerKeepsObserved(s.shared, limit, step, s.workers[Actor(step).value]);
    }
  }

  lemma {:induction false} ObservedAtSnapshot(workers: nat, limit: nat, before: seq<Step>, after: seq<Step>, w: nat)
    requires Run(workers, limit, before + [Snapshot(w)] + after).Some? && Snapshot(w) !in after && w < workers
    ensures var passed := before + [Snapshot(w)];
      && Run(workers, limit, passed).Some?
      && |Run(workers, limit, passed + after).value.workers| == workers
      && Run(workers, limit, passed + after).value.workers[w].observed == Run(workers, limit, passed).value.shared.generation
    decreases |after|
  {
    var passed := before + [Snapshot(w)];
    RunFacts(workers, limit, passed + after);
    if after == [] {
      assert passed + after == passed && passed[..|passed| - 1] == before;
      RunFacts(workers, limit, before);
    } else {
      hide Do;
      var n := |after| - 1;
      assert (passed + after)[..|passed + after| - 1] == passed + after[..n];
      ObservedAtSnapshot(workers, limit, before, after[..n], w);
      ObservedKept(Run(workers, limit, passed + after[..n]).value, limit, after[n], w);
    }
  }

  /** If a worker waits for the generation it observed, no push, close or release has been announced since it looked. */
  lemma NothingAnnouncedSince(workers: nat, limit: nat, before: seq<Step>, after: seq<Step>, w: nat)
    requires Run(workers, limit, before + [Snapshot(w)] + after).Some? && Snapshot(w) !in after
    requires var s := Run(workers, limit, before + [Snapshot(w)] + after).value; w < |s.workers| && UpToDate(s.shared, s.workers[w])
    ensures forall step :: step in after ==> !Announces(step)
  {
    hide Do;
    RunFacts(workers, limit, before + [Snapshot(w)] + after);
    ObservedAtSnapshot(workers, limit, before, after, w);
    AnnouncementsCount(workers, limit, before + [Snapshot(w)], after);
  }

  // ---- what it takes to lose a wakeup ----

  /** A runnable command waits although a worker sleeps at the current generation. */
  ghost predicate SleptThrough(workers: nat, limit: nat, steps: seq<Step>) {
    var r := Run(workers, limit, steps);
    r.Some? && Settled(r.value.shared) && Runnable(r.value.shared, limit)
    && exists w :: 0 <= w < |r.value.workers| && UpToDate(r.value.shared, r.value.workers[w])
  }

  /** A runnable command waits although a worker sleeps, and every other worker sleeps too or executes another command. */
  ghost predicate LeftWaiting(workers: nat, limit: nat, steps: seq<Step>) {
    var r := Run(workers, limit, steps);
    r.Some? && Settled(r.value.shared) && Runnable(r.value.shared, limit)
    && (exists w :: 0 <= w < |r.value.workers| && Asleep(r.value.workers[w]))
    && forall w :: 0 <= w < |r.value.workers| ==> Asleep(r.value.workers[w]) || Busy(r.value.workers[w])
  }

  /** A runnable command waits and all workers sleep. */
  ghost predicate Stalls(workers: nat, limit: nat, steps: seq<Step>) {
    && LeftWaiting(workers, limit, steps)
    && var s := Run(workers, limit, steps).value; forall w :: 0 <= w < |s.workers| ==> Asleep(s.workers[w])
  }

  /** Without a refused close nobody sleeps at the current generation past a runnable command, and while anybody sleeps
      past one, another worker is busy and will look again. */
  lemma LossesNeedARefusedCloseOrABusyWorker(workers: nat, limit: nat, steps: seq<Step>)
    requires Run(workers, limit, steps).Some? && Reopen !in steps
    ensures !SleptThrough(workers, limit, steps) && !Stalls(workers, limit, steps)
    ensures var s := Run(workers, limit, steps).value;
      LeftWaiting(workers, limit, steps) ==> exists w :: 0 <= w < |s.workers| && Busy(s.workers[w])
  {
    RunFacts(workers, limit, steps);
    var s := Run(workers, limit, steps).value;
    forall w | 0 <= w < |s.workers| && Settled(s.shared) && UpToDate(s.shared, s.workers[w]) ensures !Runnable(s.shared, limit) {
      NoLostWakeup(workers, limit, steps, w);
    }
    if LeftWaiting(workers, limit, steps) {
      var w :| 0 <= w < |s.workers| && Asleep(s.workers[w]);
      SomebodyIsCurrent(workers, limit, steps, w);
    }
  }

  // ---- the runs that lose one ----

  const SLEEPER := IDLE.(phase := Blocked)

  lemma SharedMove(n: nat, limit: nat, steps: seq<Step>, s: System, step: Step, next: Shared, workers: seq<Worker>)
    returns (more: seq<Step>, t: System)
    requires Run(n, limit, steps) == Some(s)
    requires Actor(step).None? && DoShared(s.shared, limit, step) == Some(next) && Signal(s, step) == Some(workers)
    ensures Run(n, limit, more) == Some(t) && t == System(next, workers)
    ensures Reopen !in steps && !step.Reopen? ==> Reopen !in more
  {
    more, t := steps + [step], System(next, workers);
    assert more[..|more| - 1] == steps;
  }

  lemma Move(n: nat, limit: nat, steps: seq<Step>, s: System, w: nat, step: Step, next: Shared, me: Worker)
    returns (more: seq<Step>, t: System)
    requires Run(n, limit, steps) == Some(s) && w < |s.workers|
    requires Actor(step) == Some(w) && DoWorker(s.shared, limit, step, s.workers[w]) == Some((next, me))
    ensures Run(n, limit, more) == Some(t) && t == System(next, s.workers[w := me])
    ensures Reopen !in steps ==> Reopen !in more
  {
    more, t := steps + [step], System(next, s.workers[w := me]);
    assert more[..|more| - 1] == steps;
  }

  lemma LookMove(n: nat, limit: nat, steps: seq<Step>, s: System, w: nat, step: Step, next: Shared, me: Worker)
    returns (more: seq<Step>, t: System)
    requires Run(n, limit, steps) == Some(s) && w < |s.workers| && Actor(step) == Some(w)
    requires Looking(step) && Look(s.shared, step, s.workers[w]) == Some((next, me))
    ensures Run(n, limit, more) == Some(t) && t == System(next, s.workers[w := me])
    ensures Reopen !in steps ==> Reopen !in more
  {
    hide Run;
    more, t := Move(n, limit, steps, s, w, step, next, me);
  }

  lemma PermitMove(n: nat, limit: nat, steps: seq<Step>, s: System, w: nat, step: Step, next: Shared, me: Worker)
    returns (more: seq<Step>, t: System)
    requires Run(n, limit, steps) == Some(s) && w < |s.workers| && Actor(step) == Some(w)
    requires Permitting(step) && Permit(s.shared, limit, step, s.workers[w]) == Some((next, me))
    ensures Run(n, limit, more) == Some(t) && t == System(next, s.workers[w := me])
    ensures Reopen !in steps ==> Reopen !in more
  {
    hide Run;
    more, t := Move(n, limit, steps, s, w, step, next, me);
  }

  lemma ServeMove(n: nat, limit: nat, steps: seq<Step>, s: System, w: nat, step: Step, next: Shared, me: Worker)
    returns (more: seq<Step>, t: System)
    requires Run(n, limit, steps) == Some(s) && w < |s.workers| && Actor(step) == Some(w)
    requires Serves(step) && Serve(s.shared, step, s.workers[w]) == Some((next, me))
    ensures Run(n, limit, more) == Some(t) && t == System(next, s.workers[w := me])
    ensures Reopen !in steps ==> Reopen !in more
  {
    hide Run;
    more, t := Move(n, limit, steps, s, w, step, next, me);
  }

  lemma WaitMove(n: nat, limit: nat, steps: seq<Step>, s: System, w: nat, step: Step, next: Shared, me: Worker)
    returns (more: seq<Step>, t: System)
    requires Run(n, limit, steps) == Some(s) && w < |s.workers| && Actor(step) == Some(w)
    requires !Looking(step) && !Permitting(step) && !Serves(step) && Wait(s.shared, step, s.workers[w]) == Some((next, me))
    ensures Run(n, limit, more) == Some(t) && t == System(next, s.workers[w := me])
    ensures Reopen !in steps ==> Reopen !in more
  {
    hide Run;
    more, t := Move(n, limit, steps, s, w, step, next, me);
  }

  /** Nothing to do: a worker's first pass ends in sleep. */
  lemma FallsAsleep(n: nat, limit: nat, steps0: seq<Step>, s0: System, w: nat) returns (steps: seq<Step>, s: System)
    requires Run(n, limit, steps0) == Some(s0) && w < |s0.workers| && s0.shared == QUIET && s0.workers[w] == IDLE
    ensures Run(n, limit, steps) == Some(s) && s == System(QUIET, s0.workers[w := SLEEPER])
    ensures Reopen !in steps0 ==> Reopen !in steps
  {
    hide Run, DoWorker;
    steps, s := LookMove(n, limit, steps0, s0, w, Snapshot(w), QUIET, IDLE.(phase := Observed));
    steps, s := LookMove(n, limit, steps, s, w, Summarize(w), QUIET, IDLE.(phase := Summarized));
    steps, s := LookMove(n, limit, steps, s, w, Register(w), QUIET, IDLE.(phase := Registered));
    steps, s := PermitMove(n, limit, steps, s, w, TryPermit(w), QUIET, IDLE.(phase := Passed));
    steps, s := ServeMove(n, limit, steps, s, w, Inspect(w, 0), QUIET, IDLE.(phase := Inspected));
    steps, s := ServeMove(n, limit, steps, s, w, Steal(w), QUIET, IDLE.(phase := Checked));
    steps, s := LookMove(n, limit, steps, s, w, CheckHandle(w), QUIET, IDLE.(phase := Deciding));
    steps, s := WaitMove(n, limit, steps, s, w, Decide(w), QUIET, SLEEPER);
  }

  function Sleeping(n: nat, k: nat): seq<Worker> { seq(n, i => if i < k then SLEEPER else IDLE) }

  lemma {:induction false} AllFallAsleep(n: nat, limit: nat, k: nat) returns (steps: seq<Step>)
    requires k <= n
    ensures Run(n, limit, steps) == Some(System(QUIET, Sleeping(n, k))) && Reopen !in steps
  {
    if k == 0 {
      steps := [];
      assert Init(n).workers == Sleeping(n, 0);
    } else {
      steps := AllFallAsleep(n, limit, k - 1);
      var s;
      steps, s := FallsAsleep(n, limit, steps, System(QUIET, Sleeping(n, k - 1)), k - 1);
      assert Sleeping(n, k - 1)[k - 1 := SLEEPER] == Sleeping(n, k);
    }
  }

  lemma {:induction false} OthersTakeAll(n: nat, limit: nat, steps0: seq<Step>, s0: System, k: nat) returns (steps: seq<Step>, s: System)
    requires Run(n, limit, steps0) == Some(s0) && s0.shared == QUIET && k <= limit
    ensures Run(n, limit, steps) == Some(s) && s == System(QUIET.(active := k, others := k), s0.workers)
    ensures Reopen !in steps0 ==> Reopen !in steps
  {
    hide Run, DoWorker;
    if k == 0 {
      steps, s := steps0, s0;
    } else {
      steps, s := OthersTakeAll(n, limit, steps0, s0, k - 1);
      steps, s := SharedMove(n, limit, steps, s, OthersAcquire, QUIET.(active := k, others := k), s0.workers);
    }
  }

  /** The picked worker wakes and starts over. */
  lemma Wakes(n: nat, limit: nat, steps0: seq<Step>, s0: System) returns (steps: seq<Step>, s: System)
    requires Run(n, limit, steps0) == Some(s0) && |s0.workers| > 0
    requires var x, h := s0.workers[0], s0.shared;
      x.phase.Blocked? && x.signalled && x.observed != h.generation && (x.demands ==> h.demand > 0)
    ensures Run(n, limit, steps) == Some(s)
    ensures var x, h := s0.workers[0], s0.shared;
      s == System(h.(demand := h.demand - if x.demands then 1 else 0), s0.workers[0 := x.(phase := Starting, demands := false)])
    ensures Reopen !in steps0 ==> Reopen !in steps
  {
    hide Run, DoWorker;
    var x, h := s0.workers[0], s0.shared;
    steps, s := WaitMove(n, limit, steps0, s0, 0, Wake(0), h, x.(phase := Leaving));
    steps, s := LookMove(n, limit, steps, s, 0, DropDemand(0), h.(demand := h.demand - if x.demands then 1 else 0),
                         x.(phase := Starting, demands := false));
  }

  /** It sees the queued command and registers its demand. */
  lemma Registers(n: nat, limit: nat, steps0: seq<Step>, s0: System) returns (steps: seq<Step>, s: System)
    requires Run(n, limit, steps0) == Some(s0) && |s0.workers| > 0
    requires var h := s0.shared;
      s0.workers[0].phase.Starting? && h.expensive > 0 && h.expensiveLock.Free? && !h.expensiveClosed
    ensures Run(n, limit, steps) == Some(s)
    ensures var h := s0.shared;
      s == System(h.(demand := h.demand + 1),
                  s0.workers[0 := Worker(Registered, h.generation, true, false, true, false, false, false, h.reopenings)])
    ensures Reopen !in steps0 ==> Reopen !in steps
  {
    hide Run, DoWorker;
    var h := s0.shared;
    var y := Worker(Observed, h.generation, false, false, false, false, false, false, h.reopenings);
    steps, s := LookMove(n, limit, steps0, s0, 0, Snapshot(0), h, y);
    steps, s := LookMove(n, limit, steps, s, 0, Summarize(0), h, y.(phase := Summarized, hasExpensive := true));
    steps, s := LookMove(n, limit, steps, s, 0, Register(0), h.(demand := h.demand + 1),
                         y.(phase := Registered, hasExpensive := true, demands := true));
  }

  lemma LooksAgain(n: nat, limit: nat, steps0: seq<Step>, s0: System) returns (steps: seq<Step>, s: System)
    requires Run(n, limit, steps0) == Some(s0) && |s0.workers| > 0
    requires var x, h := s0.workers[0], s0.shared;
      && x.phase.Blocked? && x.signalled && x.observed != h.generation && (x.demands ==> h.demand > 0)
      && h.expensive > 0 && h.expensiveLock.Free? && !h.expensiveClosed
    ensures Run(n, limit, steps) == Some(s)
    ensures var x, h := s0.workers[0], s0.shared;
      s == System(h.(demand := h.demand + 1 - if x.demands then 1 else 0),
                  s0.workers[0 := Worker(Registered, h.generation, true, false, true, false, false, false, h.reopenings)])
    ensures Reopen !in steps0 ==> Reopen !in steps
  {
    hide Run, DoWorker;
    steps, s := Wakes(n, limit, steps0, s0);
    steps, s := Registers(n, limit, steps, s);
  }

  /** Nothing has expired and there is nothing to steal. */
  lemma FindsNothing(n: nat, limit: nat, steps0: seq<Step>, s0: System) returns (steps: seq<Step>, s: System)
    requires Run(n, limit, steps0) == Some(s0) && |s0.workers| > 0
    requires var x, h := s0.workers[0], s0.shared;
      && x.phase.Passed? && x.hasExpensive
      && h.expensive > 0 && h.expensiveLock.Free? && h.ordinary == 0 && h.ordinaryLock.Free?
    ensures Run(n, limit, steps) == Some(s)
    ensures s == System(s0.shared, s0.workers[0 := s0.workers[0].(phase := Checked, timed := true)])
    ensures Reopen !in steps0 ==> Reopen !in steps
  {
    hide Run, DoWorker;
    var x, h := s0.workers[0], s0.shared;
    assert h.(expensive := h.expensive - 0) == h;
    steps, s := ServeMove(n, limit, steps0, s0, 0, Inspect(0, 0), h, x.(phase := Inspected, timed := true));
    steps, s := ServeMove(n, limit, steps, s, 0, Steal(0), h, x.(phase := Checked, timed := true));
  }

  /** Refused a permit, it finds nothing else to do and sleeps. */
  lemma SleepsAgain(n: nat, limit: nat, steps0: seq<Step>, s0: System) returns (steps: seq<Step>, s: System)
    requires Run(n, limit, steps0) == Some(s0) && |s0.workers| > 0
    requires var x, h := s0.workers[0], s0.shared;
      && x.phase.Passed? && x.hasExpensive && !x.sawClosed && !x.signalled && x.observed == h.generation
      && h.handle.Open? && h.expensive > 0 && h.expensiveLock.Free? && h.ordinary == 0 && h.ordinaryLock.Free?
    ensures Run(n, limit, steps) == Some(s)
    ensures s == System(s0.shared, s0.workers[0 := s0.workers[0].(phase := Blocked, timed := true)])
    ensures Reopen !in steps0 ==> Reopen !in steps
  {
    hide Run, DoWorker;
    var x, h := s0.workers[0], s0.shared;
    steps, s := FindsNothing(n, limit, steps0, s0);
    steps, s := LookMove(n, limit, steps, s, 0, CheckHandle(0), h, x.(phase := Deciding, timed := true));
    steps, s := WaitMove(n, limit, steps, s, 0, Decide(0), h, x.(phase := Blocked, timed := true));
  }

  /** The first worker has been picked for a queued command. */
  lemma PushedToFirst(n: nat, limit: nat, steps0: seq<Step>, s0: System) returns (steps: seq<Step>, s: System)
    requires Run(n, limit, steps0) == Some(s0) && |s0.workers| > 0 && Asleep(s0.workers[0])
    requires s0.shared.expensiveLock.Free? && !s0.shared.expensiveClosed
    ensures Run(n, limit, steps) == Some(s)
    ensures s == System(s0.shared.(expensive := s0.shared.expensive + 1, generation := s0.shared.generation + 1),
                        s0.workers[0 := s0.workers[0].(signalled := true)])
    ensures Reopen !in steps0 ==> Reopen !in steps
  {
    hide Run, DoWorker;
    var h := s0.shared.(expensive := s0.shared.expensive + 1);
    steps, s := SharedMove(n, limit, steps0, s0, PushExpensive, h.(expensiveLock := Pushed), s0.workers);
    steps, s := SharedMove(n, limit, steps, s, NotifyExpensive(Some(0)), h.(generation := h.generation + 1),
                           s0.workers[0 := s0.workers[0].(signalled := true)]);
  }

  /** All workers sleep; a command is pushed; the picked worker's permit attempt falls into a close that is then refused
      for uncommitted mutations; it goes back to sleep, and the command it saw could run at once. */
  lemma RefusedCloseStalls(n: nat, limit: nat) returns (steps: seq<Step>)
    requires n > 0 && limit > 0
    ensures Stalls(n, limit, steps) && SleptThrough(n, limit, steps)
  {
    hide Run, DoWorker;
    steps := AllFallAsleep(n, limit, n);
    var s := System(QUIET, Sleeping(n, n));
    steps, s := PushedToFirst(n, limit, steps, s);
    steps, s := LooksAgain(n, limit, steps, s);
    var h, x := s.shared, s.workers[0];
    steps, s := SharedMove(n, limit, steps, s, BeginClose, h.(handle := Closing), s.workers);
    steps, s := PermitMove(n, limit, steps, s, 0, TryPermit(0), s.shared, x.(phase := Passed, refusedByHandle := true));
    steps, s := SharedMove(n, limit, steps, s, Reopen, h.(reopenings := h.reopenings + 1), s.workers);
    steps, s := SleepsAgain(n, limit, steps, s);
    assert UpToDate(s.shared, s.workers[0]);
    assert forall i :: 0 <= i < n ==> Asleep(s.workers[i]);
  }

  /** Another handle holds every permit, so the picked worker goes back to sleep; an ordinary push picks the same worker
      again, which takes that command; then a permit is released while nobody's demand is registered. The others have
      slept all along. */
  lemma OneSignalLeavesWaiting(n: nat, limit: nat) returns (steps: seq<Step>)
    requires n > 1 && limit > 0
    ensures LeftWaiting(n, limit, steps) && Reopen !in steps
  {
    hide Run, DoWorker;
    steps := AllFallAsleep(n, limit, n);
    var s := System(QUIET, Sleeping(n, n));
    steps, s := OthersTakeAll(n, limit, steps, s, limit);
    steps, s := PushedToFirst(n, limit, steps, s);
    steps, s := LooksAgain(n, limit, steps, s);
    steps, s := PermitMove(n, limit, steps, s, 0, TryPermit(0), s.shared, s.workers[0].(phase := Passed));
    steps, s := SleepsAgain(n, limit, steps, s);
    var h := s.shared;
    steps, s := SharedMove(n, limit, steps, s, PushOrdinary, h.(ordinary := 1, ordinaryLock := Pushed), s.workers);
    steps, s := SharedMove(n, limit, steps, s, NotifyOrdinary(Some(0)), h.(ordinary := 1, generation := 2),
                           s.workers[0 := s.workers[0].(signalled := true)]);
    steps, s := LooksAgain(n, limit, steps, s);
    steps, s := ServesOrdinary(n, limit, steps, s);
    h := s.shared;
    var lowered := h.(active := h.active - 1, others := h.others - 1, lowered := 1);
    steps, s := SharedMove(n, limit, steps, s, OthersRelease, lowered, s.workers);
    steps, s := SharedMove(n, limit, steps, s, Collect, lowered.(lowered := 0), s.workers);
    assert Asleep(s.workers[1]);
  }

  /** Refused a permit, it steals the ordinary command. */
  lemma Steals(n: nat, limit: nat, steps0: seq<Step>, s0: System) returns (steps: seq<Step>, s: System)
    requires Run(n, limit, steps0) == Some(s0) && |s0.workers| > 0
    requires var x, h := s0.workers[0], s0.shared;
      x.phase.Passed? && x.hasExpensive && h.expensiveLock.Free? && h.ordinary > 0 && h.ordinaryLock.Free?
    ensures Run(n, limit, steps) == Some(s)
    ensures var x, h := s0.workers[0], s0.shared;
      s == System(h.(ordinary := h.ordinary - 1), s0.workers[0 := x.(phase := Taking, timed := h.expensive > 0)])
    ensures Reopen !in steps0 ==> Reopen !in steps
  {
    hide Run, DoWorker;
    var x, h := s0.workers[0], s0.shared;
    assert h.(expensive := h.expensive - 0) == h;
    steps, s := ServeMove(n, limit, steps0, s0, 0, Inspect(0, 0), h, x.(phase := Inspected, timed := h.expensive > 0));
    steps, s := ServeMove(n, limit, steps, s, 0, Steal(0), h.(ordinary := h.ordinary - 1), x.(phase := Taking, timed := h.expensive > 0));
  }

  lemma ServesOrdinary(n: nat, limit: nat, steps0: seq<Step>, s0: System) returns (steps: seq<Step>, s: System)
    requires Run(n, limit, steps0) == Some(s0) && |s0.workers| > 0
    requires var x, h := s0.workers[0], s0.shared;
      && x.phase.Registered? && x.hasExpensive && x.demands && h.active >= limit && h.demand > 0
      && h.expensiveLock.Free? && h.ordinary > 0 && h.ordinaryLock.Free?
    ensures Run(n, limit, steps) == Some(s)
    ensures s.shared == s0.shared.(ordinary := s0.shared.ordinary - 1, demand := s0.shared.demand - 1)
    ensures |s.workers| == |s0.workers| && s.workers[0].phase.Serving? && s.workers[1..] == s0.workers[1..]
    ensures Reopen !in steps0 ==> Reopen !in steps
  {
    hide Run, DoWorker;
    var h, x := s0.shared, s0.workers[0].(phase := Passed, refusedByHandle := false);
    steps, s := PermitMove(n, limit, steps0, s0, 0, TryPermit(0), h, x);
    steps, s := Steals(n, limit, steps, s);
    steps, s := LookMove(n, limit, steps, s, 0, DropDemand(0), h.(ordinary := h.ordinary - 1, demand := h.demand - 1),
                         x.(phase := Serving, demands := false, timed := h.expensive > 0));
  }

  /** Exactly what it takes: a worker and a permit, for a refused close to do it; and for a signal that reaches only one
      waiter, a second worker, while the first is busy. */
  lemma WhenWakeupsAreLost(workers: nat, limit: nat)
    ensures (exists steps :: SleptThrough(workers, limit, steps)) <==> workers > 0 && limit > 0
    ensures (exists steps :: Stalls(workers, limit, steps)) <==> workers > 0 && limit > 0
    ensures (exists steps :: LeftWaiting(workers, limit, steps) && Reopen !in steps) <==> workers > 1 && limit > 0
    ensures forall steps :: Reopen !in steps ==> !SleptThrough(workers, limit, steps) && !Stalls(workers, limit, steps)
  {
    forall steps | Run(workers, limit, steps).Some? && Reopen !in steps
      ensures !SleptThrough(workers, limit, steps) && !Stalls(workers, limit, steps)
      ensures LeftWaiting(workers, limit, steps) ==> workers > 1
    {
      RunFacts(workers, limit, steps);
      LossesNeedARefusedCloseOrABusyWorker(workers, limit, steps);
    }
    forall steps | Run(workers, limit, steps).Some? ensures |Run(workers, limit, steps).value.workers| == workers {
      RunFacts(workers, limit, steps);
    }
    hide Run, DoWorker;
    if workers > 0 && limit > 0 {
      var steps := RefusedCloseStalls(workers, limit);
      assert SleptThrough(workers, limit, steps) && Stalls(workers, limit, steps);
      if workers > 1 {
        steps := OneSignalLeavesWaiting(workers, limit);
        assert LeftWaiting(workers, limit, steps) && Reopen !in steps;
      }
    }
  }
}
