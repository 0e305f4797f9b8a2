/**
 Whole runs over the registry, said of what happened in them: which ends put a path out of use, which resets are refused,
 and that an index under a writer is what that writer's own commands made of it.
 */
module IndexHistory {
  import opened Wrappers
  import opened WriterActor
  import opened WriterHistory
  import opened IndexLifecycle

  // ---- quarantine ----

  /** This move ends a handle of the path whose workers are unaccounted for. */
  predicate EndsUnproven(w: World, m: Move, key: Key) {
    || (m.FinishWriter? && m.h in w.live && w.live[m.h].WriterAt? && w.live[m.h].key == key && !w.live[m.h].handle.quiesced)
    || (m.CloseReader? && m.h in w.live && w.live[m.h].ReaderAt? && w.live[m.h].key == key && !m.quiesced)
  }

  predicate AnyEndsUnproven(w: World, moves: seq<Move>, key: Key) {
    if moves == [] then false
    else
      var before := PlayAll(w, moves[..|moves| - 1]);
      AnyEndsUnproven(w, moves[..|moves| - 1], key) || (before.Some? && EndsUnproven(before.value, moves[|moves| - 1], key))
  }

  lemma UnprovenStep(w: World, m: Move, key: Key)
    requires Play(w, m).Some?
    ensures key in Play(w, m).value.registry.unproven <==> key in w.registry.unproven || EndsUnproven(w, m, key)
  {
  }

  /** A path is out of use exactly if it was before or some handle of it ended with its workers unaccounted for: no failed
      open, no clean close and no reset puts it there, and nothing takes it out. */
  lemma {:induction false} QuarantinedExactly(w: World, moves: seq<Move>, key: Key)
    requires PlayAll(w, moves).Some?
    ensures key in PlayAll(w, moves).value.registry.unproven <==> key in w.registry.unproven || AnyEndsUnproven(w, moves, key)
  {
    if moves != [] {
      QuarantinedExactly(w, moves[..|moves| - 1], key);
      UnprovenStep(PlayAll(w, moves[..|moves| - 1]).value, moves[|moves| - 1], key);
    }
  }

  /** A reset is refused exactly when the path is out of use, being reset, written to, or read. */
  lemma ResetRefusedExactly(w: World, key: Key, id: Id)
    requires WInv(w)
    ensures Play(w, BeginReset(key, id)).None? <==>
      || key in w.registry.unproven || (exists op :: ResetsAt(w, op, id))
      || (exists h :: WritesAt(w, h, id)) || exists h :: ReadsAt(w, h, id)
  {
    assert PathTold(w, id);
    if id in w.registry.paths {
      match w.registry.paths[id]
      case OpenBy(h) => assert WritesAt(w, h, id);
      case ResetBy(op) => assert ResetsAt(w, op, id);
    }
    if ReadersOf(w.registry, id) != {} {
      var h :| h in ReadersOf(w.registry, id);
      assert ReadsAt(w, h, id);
    }
  }

  // ---- the index under a writer ----

  /** What a handle's own actor and callers did in the run, in order. */
  function StepsOf(moves: seq<Move>, h: nat): seq<Step> {
    if moves == [] then []
    else
      var m := moves[|moves| - 1];
      StepsOf(moves[..|moves| - 1], h) + if m.Act? && m.h == h then [m.step] else []
  }

  lemma MoveOfOthers(w: World, m: Move, h: nat)
    requires WInv(w) && Play(w, m).Some? && h in w.live && w.live[h].WriterAt? && !(m.Act? && m.h == h)
    requires h in Play(w, m).value.live
    ensures var v := Play(w, m).value;
      v.live[h] == w.live[h] && w.live[h].id in w.stores && w.live[h].id in v.stores && v.stores[w.live[h].id] == w.stores[w.live[h].id]
  {
    var id := w.live[h].id;
    assert OwnerValid(w, h) && OwnerValid(w, w.next) && WritesAt(w, h, id);
    if m.Act? && m.h in w.live && w.live[m.h].WriterAt? {
      Exclusion(w, id, h, m.h);
      assert w.live[m.h].id == id ==> WritesAt(w, m.h, id);
    }
    if m.EndReset? {
      Exclusion(w, id, m.operation, h);
      assert m.operation in w.resets && w.resets[m.operation].1 == id ==> ResetsAt(w, m.operation, id);
    }
  }

  /** A live handle was live before, unless it has just been opened. */
  lemma LiveBefore(w: World, m: Move, h: nat)
    requires Play(w, m).Some? && h in Play(w, m).value.live && h < w.next
    ensures h in w.live
  {
  }

  lemma NextGrows(w: World, m: Move)
    requires Play(w, m).Some?
    ensures w.next <= Play(w, m).value.next
  {
  }

  /** From the moment a writer's workers start until it is gone, whatever other handles, readers and resets do, its index and
      its state are those of its own commands running alone: so what WriterHistory says of them holds here. */
  lemma {:induction false} WriterRunsAlone(w: World, moves: seq<Move>, h: nat)
    requires WInv(w) && h in w.live && w.live[h].WriterAt? && w.live[h].id in w.stores
    requires w.live[h].handle == Fresh(w.stores[w.live[h].id])
    requires PlayAll(w, moves).Some? && h in PlayAll(w, moves).value.live
    ensures var (v, id) := (PlayAll(w, moves).value, w.live[h].id);
      var start := w.stores[id];
      && v.live[h].WriterAt? && v.live[h].id == id && id in v.stores && h < v.next
      && RunAll(start, Fresh(start), StepsOf(moves, h)) == Some((v.stores[id], v.live[h].handle))
  {
    assert OwnerValid(w, h);
    if moves != [] {
      var front, m := moves[..|moves| - 1], moves[|moves| - 1];
      var u := PlayAll(w, front).value;
      NextAtLeast(w, front);
      LiveBefore(u, m, h);
      WriterRunsAlone(w, front, h);
      EveryRunKeeps(w, front);
      var steps := StepsOf(front, h);
      if m.Act? && m.h == h {
        assert (steps + [m.step])[..|steps|] == steps;
        OwnStep(w.stores[w.live[h].id], u, m, steps);
      } else {
        assert steps + [] == steps;
        hide WInv, Play, RunAll;
        MoveOfOthers(u, m, h);
      }
    }
  }

  lemma OwnStep(start: Store, u: World, m: Move, steps: seq<Step>)
    requires m.Act? && Play(u, m).Some?
    requires RunAll(start, Fresh(start), steps) == Some((u.stores[u.live[m.h].id], u.live[m.h].handle))
    ensures var v := Play(u, m).value;
      && v.live[m.h].WriterAt? && v.live[m.h].id == u.live[m.h].id && v.live[m.h].id in v.stores && v.next == u.next
      && RunAll(start, Fresh(start), steps + [m.step]) == Some((v.stores[v.live[m.h].id], v.live[m.h].handle))
  {
    hide Do, Fresh;
    assert (steps + [m.step])[..|steps|] == steps;
  }

  lemma {:induction false} NextAtLeast(w: World, moves: seq<Move>)
    requires PlayAll(w, moves).Some?
    ensures w.next <= PlayAll(w, moves).value.next
  {
    if moves != [] {
      NextAtLeast(w, moves[..|moves| - 1]);
      NextGrows(PlayAll(w, moves[..|moves| - 1]).value, moves[|moves| - 1]);
    }
  }

  /** A writer starts on what is durable at its path, or on a new and empty index. */
  lemma WriterStartsOnWhatIsDurable(w: World, h: nat)
    requires Play(w, StartWorkers(h)).Some? && !w.live[h].readOnly
    ensures var (v, id) := (Play(w, StartWorkers(h)).value, w.live[h].id);
      && v.live[h].WriterAt? && id in v.stores && v.live[h].handle == Fresh(v.stores[id])
      && v.stores[id] == if id in w.stores then w.stores[id] else Store([], None)
  {
  }

  /** So the mutations at its path are those it found, followed by its batches up to the last commit that made any durable. */
  lemma IndexIsTheWritersBatches(w: World, moves: seq<Move>, h: nat)
    requires WInv(w) && h in w.live && w.live[h].WriterAt? && w.live[h].id in w.stores
    requires w.live[h].handle == Fresh(w.stores[w.live[h].id])
    requires PlayAll(w, moves).Some? && h in PlayAll(w, moves).value.live
    ensures var (v, id) := (PlayAll(w, moves).value, w.live[h].id);
      var start := w.stores[id];
      RunAll(start, Fresh(start), StepsOf(moves, h)).Some? && id in v.stores &&
      var log := History(start, Fresh(start), StepsOf(moves, h));
      v.stores[id] == Store(start.mutations + Batches(log[..LastDurable(start, log)]), LastPayload(start, log))
  {
    WriterRunsAlone(w, moves, h);
    hide WInv, RunAll, PlayAll, Fresh;
    BatchesBecomeDurable(w.stores[w.live[h].id], StepsOf(moves, h));
  }
}
