/** In every interleaving of the wakeup protocol no command is lost or taken twice: what was pushed to a lane is what was
    taken out of it and what is still there. */
module QueueCommands {
  import opened Wrappers
  import opened QueueWake

  /** Expensive commands a step takes out of the lane: one by the worker that goes on to run it, with a permit or, from a
      closing handle, without; those that have expired; all of them when a closed queue is drained. */
  function TakenExpensive(before: System, after: System, step: Step): nat {
    match step
    case Pop(w) => if w < |after.workers| && after.workers[w].phase.Running? then 1 else 0
    case PopClosing(w) => if w < |after.workers| && after.workers[w].phase.Taking? then 1 else 0
    case Inspect(_, expired) => expired
    case CloseExpensive(drained) => if drained then before.shared.expensive else 0
    case _ => 0
  }

  function TakenOrdinary(before: System, after: System, step: Step): nat {
    match step
    case Steal(w) => if w < |after.workers| && after.workers[w].phase.Taking? then 1 else 0
    case TakeOrdinary => 1
    case CloseOrdinary(drained) => if drained then before.shared.ordinary else 0
    case _ => 0
  }

  lemma StepAccounts(s: System, limit: nat, step: Step)
    requires Do(s, limit, step).Some?
    ensures var t := Do(s, limit, step).value;
      && t.shared.expensive + TakenExpensive(s, t, step) == s.shared.expensive + (if step.PushExpensive? then 1 else 0)
      && t.shared.ordinary + TakenOrdinary(s, t, step) == s.shared.ordinary + (if step.PushOrdinary? then 1 else 0)
  {
    hide Signal;
  }

  function Pushed(steps: seq<Step>, lane: Step): nat {
    if steps == [] then 0 else Pushed(steps[..|steps| - 1], lane) + if steps[|steps| - 1] == lane then 1 else 0
  }

  /** Commands taken over a run, out of the expensive or the ordinary lane. */
  function Taken(workers: nat, limit: nat, steps: seq<Step>, expensive: bool): nat
    requires Run(workers, limit, steps).Some?
  {
    if steps == [] then 0
    else
      var front, step := steps[..|steps| - 1], steps[|steps| - 1];
      var before, after := Run(workers, limit, front).value, Run(workers, limit, steps).value;
      Taken(workers, limit, front, expensive) + if expensive then TakenExpensive(before, after, step) else TakenOrdinary(before, after, step)
  }

  /** Every command pushed is taken once or still queued. */
  lemma {:induction false} CommandsConserved(workers: nat, limit: nat, steps: seq<Step>)
    requires Run(workers, limit, steps).Some?
    ensures var s := Run(workers, limit, steps).value.shared;
      && Pushed(steps, PushExpensive) == s.expensive + Taken(workers, limit, steps, true)
      && Pushed(steps, PushOrdinary) == s.ordinary + Taken(workers, limit, steps, false)
  {
    if steps != [] {
      CommandsConserved(workers, limit, steps[..|steps| - 1]);
      hide Do, TakenExpensive, TakenOrdinary;
      StepAccounts(Run(workers, limit, steps[..|steps| - 1]).value, limit, steps[|steps| - 1]);
    }
  }

  /** What a worker's change of phase may be when it starts on a command. */
  predicate RightfullyStarts(s: Shared, step: Step, before: Phase, after: Phase) {
    && (after.Running? && !before.Running? ==> step.Pop? && before.Permitted? && s.expensive > 0)
    && (after.Executing? && !before.Executing? ==> before.Running?)
    && (after.Taking? && !before.Taking? ==>
          (step.Steal? && s.ordinary > 0) || (step.PopClosing? && s.expensive > 0))
    && (after.Serving? && !before.Serving? ==> before.Taking?)
  }

  lemma LookStarts(s: Shared, step: Step, me: Worker)
    requires Look(s, step, me).Some?
    ensures RightfullyStarts(s, step, me.phase, Look(s, step, me).value.1.phase)
  {
  }

  lemma PermitStarts(s: Shared, limit: nat, step: Step, me: Worker)
    requires Permit(s, limit, step, me).Some?
    ensures RightfullyStarts(s, step, me.phase, Permit(s, limit, step, me).value.1.phase)
  {
  }

  lemma ServeStarts(s: Shared, step: Step, me: Worker)
    requires Serve(s, step, me).Some?
    ensures RightfullyStarts(s, step, me.phase, Serve(s, step, me).value.1.phase)
  {
  }

  lemma WaitStarts(s: Shared, step: Step, me: Worker)
    requires Wait(s, step, me).Some?
    ensures RightfullyStarts(s, step, me.phase, Wait(s, step, me).value.1.phase)
  {
  }

  lemma WorkerStarts(s: Shared, limit: nat, step: Step, me: Worker)
    requires DoWorker(s, limit, step, me).Some?
    ensures RightfullyStarts(s, step, me.phase, DoWorker(s, limit, step, me).value.1.phase)
  {
    hide Look, Permit, Serve, Wait, RightfullyStarts;
    if Looking(step) {
      LookStarts(s, step, me);
    } else if Permitting(step) {
      PermitStarts(s, limit, step, me);
    } else if Serves(step) {
      ServeStarts(s, step, me);
    } else {
      WaitStarts(s, step, me);
    }
  }

  lemma SignalKeepsPhases(s: System, step: Step, w: nat)
    requires Signal(s, step).Some? && w < |s.workers|
    ensures w < |Signal(s, step).value| && Signal(s, step).value[w].phase == s.workers[w].phase
  {
  }

  /** A worker starts to run an expensive command only by taking it, with a permit it still holds or from a handle that is
      closing, and an ordinary one only by stealing it; it executes only what it took. */
  lemma RunsOnlyWhatItTook(s: System, limit: nat, step: Step, w: nat)
    requires Do(s, limit, step).Some? && w < |s.workers|
    ensures w < |Do(s, limit, step).value.workers|
    ensures Do(s, limit, step).value.workers[w].phase == s.workers[w].phase || Actor(step) == Some(w)
    ensures RightfullyStarts(s.shared, step, s.workers[w].phase, Do(s, limit, step).value.workers[w].phase)
  {
    hide Signal, DoShared, DoWorker;
    if Actor(step).None? {
      SignalKeepsPhases(s, step, w);
    } else if Actor(step) == Some(w) {
      WorkerStarts(s.shared, limit, step, s.workers[w]);
    }
  }

  // ---- a worker left alone serves ----

  function DoAll(s: System, limit: nat, steps: seq<Step>): Option<System>
    decreases steps
  {
    if steps == [] then Some(s)
    else
      var next := Do(s, limit, steps[0]);
      if next.None? then None else DoAll(next.value, limit, steps[1..])
  }

  /** The same, seen by one worker. */
  function Alone(s: Shared, limit: nat, steps: seq<Step>, me: Worker): Option<(Shared, Worker)>
    decreases steps
  {
    if steps == [] then Some((s, me))
    else
      var next := DoWorker(s, limit, steps[0], me);
      if next.None? then None else Alone(next.value.0, limit, steps[1..], next.value.1)
  }

  lemma {:induction false} AloneActs(s: System, limit: nat, steps: seq<Step>, w: nat)
    requires w < |s.workers| && forall i :: 0 <= i < |steps| ==> Actor(steps[i]) == Some(w)
    requires Alone(s.shared, limit, steps, s.workers[w]).Some?
    ensures var t := Alone(s.shared, limit, steps, s.workers[w]).value;
      DoAll(s, limit, steps) == Some(System(t.0, s.workers[w := t.1]))
    decreases steps
  {
    hide DoWorker, Actor;
    if steps == [] {
      assert s.workers[w := s.workers[w]] == s.workers;
    } else {
      var next := DoWorker(s.shared, limit, steps[0], s.workers[w]).value;
      var after := System(next.0, s.workers[w := next.1]);
      AloneActs(after, limit, steps[1..], w);
      var t := Alone(s.shared, limit, steps, s.workers[w]).value;
      assert after.workers[w := t.1] == s.workers[w := t.1];
    }
  }

  lemma {:induction false} AloneConcat(s: Shared, limit: nat, a: seq<Step>, b: seq<Step>, me: Worker)
    requires Alone(s, limit, a, me).Some?
    ensures var t := Alone(s, limit, a, me).value; Alone(s, limit, a + b, me) == Alone(t.0, limit, b, t.1)
    decreases a
  {
    hide DoWorker;
    if a == [] {
      assert a + b == b;
    } else {
      var next := DoWorker(s, limit, a[0], me).value;
      AloneConcat(next.0, limit, a[1..], b, next.1);
      assert (a + b)[1..] == a[1..] + b;
    }
  }

  lemma AloneOne(s: Shared, limit: nat, a: Step, me: Worker)
    ensures Alone(s, limit, [a], me) == DoWorker(s, limit, a, me)
  {
    hide DoWorker;
    var next := DoWorker(s, limit, a, me);
    assert [a][1..] == [];
    if next.Some? { assert Alone(next.value.0, limit, [], next.value.1) == next; }
  }

  lemma AloneTwo(s: Shared, limit: nat, a: Step, b: Step, me: Worker)
    requires DoWorker(s, limit, a, me).Some?
    ensures var t := DoWorker(s, limit, a, me).value; Alone(s, limit, [a, b], me) == DoWorker(t.0, limit, b, t.1)
  {
    hide DoWorker;
    var t := DoWorker(s, limit, a, me).value;
    AloneOne(t.0, limit, b, t.1);
    assert [a, b][1..] == [b];
  }

  /** A worker that starts a pass looks at the expensive queue. */
  lemma Begins(s: Shared, limit: nat, me: Worker, w: nat) returns (you: Worker)
    requires me.phase.Starting? && s.expensiveLock.Free?
    ensures Alone(s, limit, [Snapshot(w), Summarize(w)], me) == Some((s, you))
    ensures you.phase.Summarized? && you.hasExpensive == (s.expensive > 0) && !you.demands
  {
    AloneTwo(s, limit, Snapshot(w), Summarize(w), me);
    you := Alone(s, limit, [Snapshot(w), Summarize(w)], me).value.1;
    hide Alone;
  }

  /** It gets a permit iff there is a command to run, the handle is open and a permit is free. */
  lemma Seeks(s: Shared, limit: nat, me: Worker, w: nat) returns (t: Shared, you: Worker)
    requires me.phase.Summarized?
    ensures Alone(s, limit, [Register(w), TryPermit(w)], me) == Some((t, you))
    ensures var served := me.hasExpensive && s.handle.Open? && s.active < limit;
      && you.phase == (if served then Permitted else Passed) && (me.hasExpensive ==> you.demands)
      && (!me.hasExpensive ==> you.demands == me.demands)
      && t == s.(demand := s.demand + (if me.hasExpensive then 1 else 0), active := s.active + if served then 1 else 0)
  {
    AloneTwo(s, limit, Register(w), TryPermit(w), me);
    var end := Alone(s, limit, [Register(w), TryPermit(w)], me).value;
    t, you := end.0, end.1;
    hide Alone;
  }

  lemma Executes(s: Shared, limit: nat, me: Worker, w: nat) returns (you: Worker)
    requires me.phase.Permitted? && me.demands && s.expensiveLock.Free? && s.expensive > 0 && s.active > 0 && s.demand > 0
    ensures Alone(s, limit, [Pop(w), DropDemand(w)] + [Finish(w)], me)
      == Some((s.(expensive := s.expensive - 1, demand := s.demand - 1, active := s.active - 1, lowered := s.lowered + 1), you))
    ensures you.phase.Starting?
  {
    AloneTwo(s, limit, Pop(w), DropDemand(w), me);
    AloneConcat(s, limit, [Pop(w), DropDemand(w)], [Finish(w)], me);
    var middle := Alone(s, limit, [Pop(w), DropDemand(w)], me).value;
    AloneOne(middle.0, limit, Finish(w), middle.1);
    you := Alone(middle.0, limit, [Finish(w)], middle.1).value.1;
    hide Alone;
  }

  /** Past the permit it takes an ordinary command if there is one. */
  lemma Steals(s: Shared, limit: nat, me: Worker, w: nat) returns (you: Worker)
    requires me.phase.Passed? && s.expensiveLock.Free? && s.ordinaryLock.Free?
    ensures Alone(s, limit, [Inspect(w, 0), Steal(w)], me) == Some((if s.ordinary > 0 then s.(ordinary := s.ordinary - 1) else s, you))
    ensures you.phase == (if s.ordinary > 0 then Taking else Checked) && you.demands == me.demands
  {
    AloneTwo(s, limit, Inspect(w, 0), Steal(w), me);
    you := Alone(s, limit, [Inspect(w, 0), Steal(w)], me).value.1;
    hide Alone;
  }

  /** Of a handle that is closing it takes an expensive command without a permit. */
  lemma TakesClosing(s: Shared, limit: nat, me: Worker, w: nat) returns (you: Worker)
    requires me.phase.Checked? && !s.handle.Open? && s.expensiveLock.Free? && s.expensive > 0
    ensures Alone(s, limit, [CheckHandle(w), PopClosing(w)], me) == Some((s.(expensive := s.expensive - 1), you))
    ensures you.phase.Taking? && you.demands == me.demands
  {
    AloneTwo(s, limit, CheckHandle(w), PopClosing(w), me);
    you := Alone(s, limit, [CheckHandle(w), PopClosing(w)], me).value.1;
    hide Alone;
  }

  lemma ServesTaken(s: Shared, limit: nat, me: Worker, w: nat) returns (you: Worker)
    requires me.phase.Taking? && (me.demands ==> s.demand > 0)
    ensures Alone(s, limit, [DropDemand(w), Served(w)], me)
      == Some((s.(demand := if me.demands then s.demand - 1 else s.demand), you))
    ensures you.phase.Starting?
  {
    AloneTwo(s, limit, DropDemand(w), Served(w), me);
    you := Alone(s, limit, [DropDemand(w), Served(w)], me).value.1;
    hide Alone;
  }

  predicate Runnable(s: Shared, limit: nat) { s.expensive > 0 && s.handle.Open? && s.active < limit }

  /** What is left after one command is served: a runnable expensive one first, then an ordinary one, then, of a handle that
      is closing, an expensive one without a permit. */
  function AfterOne(s: Shared, limit: nat): Shared
    requires s.expensive > 0 || s.ordinary > 0
  {
    if Runnable(s, limit) then s.(expensive := s.expensive - 1, lowered := s.lowered + 1)
    else if s.ordinary > 0 then s.(ordinary := s.ordinary - 1)
    else s.(expensive := s.expensive - 1)
  }

  lemma OneAlone(s: Shared, limit: nat, me: Worker, w: nat) returns (steps: seq<Step>, you: Worker)
    requires me.phase.Starting? && s.expensiveLock.Free? && s.ordinaryLock.Free?
    requires Runnable(s, limit) || s.ordinary > 0 || (s.expensive > 0 && !s.handle.Open?)
    ensures Alone(s, limit, steps, me) == Some((AfterOne(s, limit), you)) && you.phase.Starting?
    ensures forall i :: 0 <= i < |steps| ==> Actor(steps[i]) == Some(w)
  {
    hide Alone, DoWorker;
    var begun := Begins(s, limit, me, w);
    var t, sought := Seeks(s, limit, begun, w);
    var begin, seek := [Snapshot(w), Summarize(w)], [Register(w), TryPermit(w)];
    AloneConcat(s, limit, begin, seek, me);
    if Runnable(s, limit) {
      you := Executes(t, limit, sought, w);
      var execute := [Pop(w), DropDemand(w)] + [Finish(w)];
      AloneConcat(s, limit, begin + seek, execute, me);
      steps := begin + seek + execute;
    } else {
      var stolen := Steals(t, limit, sought, w);
      var steal, serve := [Inspect(w, 0), Steal(w)], [DropDemand(w), Served(w)];
      AloneConcat(s, limit, begin + seek, steal, me);
      if s.ordinary > 0 {
        you := ServesTaken(t.(ordinary := t.ordinary - 1), limit, stolen, w);
        AloneConcat(s, limit, begin + seek + steal, serve, me);
        steps := begin + seek + steal + serve;
      } else {
        var close := [CheckHandle(w), PopClosing(w)];
        var taken := TakesClosing(t, limit, stolen, w);
        AloneConcat(s, limit, begin + seek + steal, close, me);
        you := ServesTaken(t.(expensive := t.expensive - 1), limit, taken, w);
        AloneConcat(s, limit, begin + seek + steal + close, serve, me);
        steps := begin + seek + steal + close + serve;
      }
    }
  }

  /** A worker at the start of a pass, left alone while no queue is being changed, serves one command if any can be: an
      expensive one if a permit is free and the handle open, or else an ordinary one, or else, if the handle is closing, an
      expensive one. It gives back its permit and its demand and is at the start of a pass again. */
  lemma WorkerAloneServes(s: System, limit: nat, w: nat) returns (steps: seq<Step>)
    requires w < |s.workers| && s.workers[w].phase.Starting? && s.shared.expensiveLock.Free? && s.shared.ordinaryLock.Free?
    requires Runnable(s.shared, limit) || s.shared.ordinary > 0 || (s.shared.expensive > 0 && !s.shared.handle.Open?)
    ensures forall i :: 0 <= i < |steps| ==> Actor(steps[i]) == Some(w)
    ensures var t := DoAll(s, limit, steps);
      && t.Some? && t.value.shared == AfterOne(s.shared, limit)
      && w < |t.value.workers| && t.value.workers[w].phase.Starting?
  {
    hide Alone, DoAll;
    var you;
    steps, you := OneAlone(s.shared, limit, s.workers[w], w);
    AloneActs(s, limit, steps, w);
  }
}
