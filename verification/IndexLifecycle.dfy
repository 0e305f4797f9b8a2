/**
 The process-wide registry of index paths, and every run of opens, handle activity, closes and resets over it: who may
 own a path when, what survives on disk, and how a path whose workers are not accounted for stays out of use.
 */
module IndexLifecycle {
  import opened Wrappers
  import opened WriterActor

  type Key = seq<nat>
  type Id = nat

  datatype Reservation = OpenBy(handle: nat) | ResetBy(operation: nat)

  datatype Refusal = Unproven | DuplicateOpen | LockBusy

  datatype Registry = Registry(paths: map<Id, Reservation>, readers: map<Id, set<nat>>, unproven: set<Key>)

  function ReadersOf(r: Registry, id: Id): set<nat> { if id in r.readers then r.readers[id] else {} }

  /** Why an open of the path would be refused, if it would. */
  function OpenRefusal(r: Registry, key: Key, id: Id, readOnly: bool): Option<Refusal> {
    if key in r.unproven then Some(Unproven)
    else if id in r.paths && r.paths[id].ResetBy? then Some(LockBusy)
    else if id in r.paths && !readOnly then Some(DuplicateOpen)
    else None
  }

  function ResetRefusal(r: Registry, key: Key, id: Id): Option<Refusal> {
    if key in r.unproven then Some(Unproven) else if id in r.paths || ReadersOf(r, id) != {} then Some(LockBusy) else None
  }

  function Reserved(r: Registry, handle: nat, id: Id, readOnly: bool): Registry {
    if readOnly then r.(readers := r.readers[id := ReadersOf(r, id) + {handle}])
    else r.(paths := r.paths[id := OpenBy(handle)])
  }

  function Released(r: Registry, handle: nat, id: Id): Registry {
    var rest := ReadersOf(r, id) - {handle};
    Registry(if id in r.paths && r.paths[id] == OpenBy(handle) then r.paths - {id} else r.paths,
             if id !in r.readers then r.readers else if rest == {} then r.readers - {id} else r.readers[id := rest],
             r.unproven)
  }

  class PathRegistry {
    var paths: map<Id, Reservation>
    var readers: map<Id, set<nat>>
    var unproven: set<Key>

    function State(): Registry
      reads this
    {
      Registry(paths, readers, unproven)
    }

    constructor ()
      ensures State() == Registry(map[], map[], {})
    {
      paths, readers, unproven := map[], map[], {};
    }

    method ReserveOpen(handle: nat, key: Key, id: Id, readOnly: bool) returns (refusal: Option<Refusal>)
      modifies this
      ensures refusal == OpenRefusal(old(State()), key, id, readOnly)
      ensures State() == if refusal.None? then Reserved(old(State()), handle, id, readOnly) else old(State())
    {
      if key in unproven { return Some(Unproven); }
      if id in paths {
        match paths[id] {
          case OpenBy(_) => if !readOnly { return Some(DuplicateOpen); }
          case ResetBy(_) => return Some(LockBusy);
        }
      }
      if readOnly {
        readers := readers[id := (if id in readers then readers[id] else {}) + {handle}];
      } else {
        paths := paths[id := OpenBy(handle)];
      }
      refusal := None;
    }

    method ReserveReset(operation: nat, key: Key, id: Id) returns (refusal: Option<Refusal>)
      modifies this
      ensures refusal == ResetRefusal(old(State()), key, id)
      ensures State() == if refusal.None? then old(State()).(paths := old(State()).paths[id := ResetBy(operation)]) else old(State())
    {
      if key in unproven { return Some(Unproven); }
      if id in paths || (id in readers && readers[id] != {}) { return Some(LockBusy); }
      paths := paths[id := ResetBy(operation)];
      refusal := None;
    }

    /** After a clean close, or with `quarantine` after one that left workers unaccounted for. */
    method Release(handle: nat, key: Key, id: Id, quarantine: bool)
      modifies this
      ensures State() == var r := Released(old(State()), handle, id); if quarantine then r.(unproven := r.unproven + {key}) else r
    {
      if id in readers {
        var rest := readers[id] - {handle};
        readers := if rest == {} then readers - {id} else readers[id := rest];
      }
      if id in paths && paths[id] == OpenBy(handle) { paths := paths - {id}; }
      if quarantine { unproven := unproven + {key}; }
    }

    method DropReset(operation: nat, id: Id)
      modifies this
      ensures State() == var r := old(State());
        if id in r.paths && r.paths[id] == ResetBy(operation) then r.(paths := r.paths - {id}) else r
    {
      if id in paths && paths[id] == ResetBy(operation) { paths := paths - {id}; }
    }
  }

  // ---- every run over the registry ----

  /** A handle from its reservation to its release: still opening, or with its workers started. */
  datatype Live =
    | OpeningAt(key: Key, id: Id, readOnly: bool)
    | WriterAt(key: Key, id: Id, handle: Handle)
    | ReaderAt(key: Key, id: Id)

  datatype World = World(registry: Registry, stores: map<Id, Store>, live: map<nat, Live>, resets: map<nat, (Key, Id)>, next: nat)

  const EMPTY := World(Registry(map[], map[], {}), map[], map[], map[], 0)

  /** An open reserves its path, then starts its workers or fails, perhaps after creating the index; an open that fails
      after its workers were started and shut down releases its path once more than they did. */
  datatype Move =
    | OpenIndex(key: Key, id: Id, readOnly: bool)
    | StartWorkers(h: nat)
    | FailOpen(h: nat, created: bool)
    | ReleaseAgain(h: nat, id: Id)
    | Act(h: nat, step: Step)
    | FinishWriter(h: nat)
    | CloseReader(h: nat, quiesced: bool)
    | BeginReset(key: Key, id: Id)
    | EndReset(operation: nat, retired: bool)

  /** Opening an index creates it where there is none. */
  function WithIndex(stores: map<Id, Store>, id: Id): (r: map<Id, Store>)
    ensures id in r
  {
    if id in stores then stores else stores[id := Store([], None)]
  }

  function Play(w: World, m: Move): Option<World> {
    match m
    case OpenIndex(key, id, readOnly) =>
      if OpenRefusal(w.registry, key, id, readOnly).Some? then None
      else Some(w.(registry := Reserved(w.registry, w.next, id, readOnly), live := w.live[w.next := OpeningAt(key, id, readOnly)], next := w.next + 1))
    case StartWorkers(h) =>
      if h !in w.live || !w.live[h].OpeningAt? then None
      else
        var l, stores := w.live[h], WithIndex(w.stores, w.live[h].id);
        Some(w.(stores := stores, live := w.live[h := if l.readOnly then ReaderAt(l.key, l.id) else WriterAt(l.key, l.id, Fresh(stores[l.id]))]))
    case FailOpen(h, created) =>
      if h !in w.live || !w.live[h].OpeningAt? then None
      else
        var id := w.live[h].id;
        Some(w.(registry := Released(w.registry, h, id), stores := if created then WithIndex(w.stores, id) else w.stores, live := w.live - {h}))
    case ReleaseAgain(h, id) =>
      if h in w.live || h >= w.next then None else Some(w.(registry := Released(w.registry, h, id)))
    case Act(h, step) =>
      if h !in w.live || !w.live[h].WriterAt? || w.live[h].id !in w.stores then None
      else
        var l := w.live[h];
        var r := Do(w.stores[l.id], l.handle, step);
        if r.None? then None
        else Some(w.(stores := w.stores[l.id := r.value.0], live := w.live[h := l.(handle := r.value.1)]))
    case FinishWriter(h) =>
      if h !in w.live || !w.live[h].WriterAt? || !w.live[h].handle.stage.Stopped? then None
      else
        var l := w.live[h];
        var r := Released(w.registry, h, l.id);
        Some(w.(registry := if l.handle.quiesced then r else r.(unproven := r.unproven + {l.key}), live := w.live - {h}))
    case CloseReader(h, quiesced) =>
      if h !in w.live || !w.live[h].ReaderAt? then None
      else
        var l := w.live[h];
        var r := Released(w.registry, h, l.id);
        Some(w.(registry := if quiesced then r else r.(unproven := r.unproven + {l.key}), live := w.live - {h}))
    case BeginReset(key, id) =>
      if ResetRefusal(w.registry, key, id).Some? then None
      else Some(w.(registry := w.registry.(paths := w.registry.paths[id := ResetBy(w.next)]), resets := w.resets[w.next := (key, id)], next := w.next + 1))
    case EndReset(op, retired) =>
      if op !in w.resets then None
      else
        var id := w.resets[op].1;
        var paths := if id in w.registry.paths && w.registry.paths[id] == ResetBy(op) then w.registry.paths - {id} else w.registry.paths;
        Some(w.(registry := w.registry.(paths := paths), resets := w.resets - {op}, stores := if retired then w.stores - {id} else w.stores))
  }

  // ---- invariants ----

  function Held(r: Registry, id: Id): Option<Reservation> { if id in r.paths then Some(r.paths[id]) else None }

  predicate Reads(l: Live) { l.ReaderAt? || (l.OpeningAt? && l.readOnly) }

  /** A handle that writes to the path, or is opening it for that. */
  predicate WritesAt(w: World, h: nat, id: Id) { h in w.live && !Reads(w.live[h]) && w.live[h].id == id }

  predicate ReadsAt(w: World, h: nat, id: Id) { h in w.live && Reads(w.live[h]) && w.live[h].id == id }

  predicate ResetsAt(w: World, op: nat, id: Id) { op in w.resets && w.resets[op].1 == id }

  /** The registry says of a path exactly who owns it: nobody is missing and nothing leaks. */
  ghost predicate PathTold(w: World, id: Id) {
    && (forall h :: WritesAt(w, h, id) <==> Held(w.registry, id) == Some(OpenBy(h)))
    && (forall op :: ResetsAt(w, op, id) <==> Held(w.registry, id) == Some(ResetBy(op)))
    && (forall h :: ReadsAt(w, h, id) <==> h in ReadersOf(w.registry, id))
    && (Held(w.registry, id).Some? && Held(w.registry, id).value.ResetBy? ==> ReadersOf(w.registry, id) == {})
  }

  predicate OwnerValid(w: World, h: nat) {
    h in w.live ==>
      (h < w.next && (w.live[h].WriterAt? ==> w.live[h].id in w.stores && Inv(w.stores[w.live[h].id], w.live[h].handle)))
  }

  predicate ResetValid(w: World, op: nat) { op in w.resets ==> op < w.next }

  ghost predicate WInv(w: World) {
    && (forall id :: PathTold(w, id))
    && (forall h :: OwnerValid(w, h))
    && (forall op :: ResetValid(w, op))
  }

  /** At most one writer or reset per physical path, and a reset beside no writer or reader. */
  lemma Exclusion(w: World, id: Id, g: nat, h: nat)
    requires WInv(w)
    ensures WritesAt(w, g, id) && WritesAt(w, h, id) ==> g == h
    ensures ResetsAt(w, g, id) && ResetsAt(w, h, id) ==> g == h
    ensures ResetsAt(w, g, id) ==> !WritesAt(w, h, id) && !ReadsAt(w, h, id)
  {
    assert PathTold(w, id);
  }

  /** A path is refused exactly when it is quarantined, being reset, or already written to by someone else. */
  lemma OpenRefusedExactly(w: World, key: Key, id: Id, readOnly: bool)
    requires WInv(w)
    ensures Play(w, OpenIndex(key, id, readOnly)).None? <==>
      key in w.registry.unproven || (exists op :: ResetsAt(w, op, id)) || (!readOnly && exists h :: WritesAt(w, h, id))
  {
    assert PathTold(w, id);
    if id in w.registry.paths {
      match w.registry.paths[id]
      case OpenBy(h) => assert WritesAt(w, h, id);
      case ResetBy(op) => assert ResetsAt(w, op, id);
    }
  }

  lemma OpenTells(w: World, m: Move, id: Id)
    requires WInv(w) && m.OpenIndex? && Play(w, m).Some?
    ensures PathTold(Play(w, m).value, id)
  {
    hide Inv, Fresh;
    var v := Play(w, m).value;
    assert OwnerValid(w, w.next) && ResetValid(w, w.next) && PathTold(w, id);
    forall h ensures WritesAt(v, h, id) <==> WritesAt(w, h, id) || (h == w.next && id == m.id && !m.readOnly) {}
    forall h ensures ReadsAt(v, h, id) <==> ReadsAt(w, h, id) || (h == w.next && id == m.id && m.readOnly) {}
    forall op ensures ResetsAt(v, op, id) <==> ResetsAt(w, op, id) {}
  }

  lemma OpenKeeps(w: World, m: Move)
    requires WInv(w) && m.OpenIndex? && Play(w, m).Some?
    ensures WInv(Play(w, m).value)
  {
    hide Inv, Fresh, PathTold;
    var v := Play(w, m).value;
    forall id ensures PathTold(v, id) { OpenTells(w, m, id); }
    forall h ensures OwnerValid(v, h) { assert OwnerValid(w, h); }
    forall op ensures ResetValid(v, op) { assert ResetValid(w, op); }
  }

  lemma StartKeeps(w: World, m: Move)
    requires WInv(w) && m.StartWorkers? && Play(w, m).Some?
    ensures WInv(Play(w, m).value)
  {
    hide Inv, Fresh;
    var v := Play(w, m).value;
    FreshHandle(v.stores[w.live[m.h].id]);
    forall id ensures PathTold(v, id) {
      assert PathTold(w, id);
      forall h ensures WritesAt(v, h, id) <==> WritesAt(w, h, id) {}
      forall h ensures ReadsAt(v, h, id) <==> ReadsAt(w, h, id) {}
      forall op ensures ResetsAt(v, op, id) <==> ResetsAt(w, op, id) {}
    }
    forall h ensures OwnerValid(v, h) { assert OwnerValid(w, h) && OwnerValid(w, m.h); }
    forall op ensures ResetValid(v, op) { assert ResetValid(w, op); }
  }

  /** A second release of a handle that is gone finds nothing of it. */
  lemma ReleaseAgainKeeps(w: World, m: Move)
    requires WInv(w) && m.ReleaseAgain? && Play(w, m).Some?
    ensures WInv(Play(w, m).value)
    ensures forall id :: Held(Play(w, m).value.registry, id) == Held(w.registry, id)
    ensures forall id :: ReadersOf(Play(w, m).value.registry, id) == ReadersOf(w.registry, id)
  {
    hide Inv;
    ReleaseFacts(w.registry, m.h, m.id);
    var v := Play(w, m).value;
    assert PathTold(w, m.id);
    assert !WritesAt(w, m.h, m.id) && !ReadsAt(w, m.h, m.id);
    hide Released;
    forall id ensures PathTold(v, id) {
      assert PathTold(w, id);
      forall h ensures WritesAt(v, h, id) <==> WritesAt(w, h, id) {}
      forall h ensures ReadsAt(v, h, id) <==> ReadsAt(w, h, id) {}
      forall op ensures ResetsAt(v, op, id) <==> ResetsAt(w, op, id) {}
    }
    forall h ensures OwnerValid(v, h) { assert OwnerValid(w, h); }
    forall op ensures ResetValid(v, op) { assert ResetValid(w, op); }
  }

  lemma ActKeeps(w: World, m: Move)
    requires WInv(w) && m.Act? && Play(w, m).Some?
    ensures WInv(Play(w, m).value)
  {
    hide Inv, Do;
    var l := w.live[m.h];
    assert OwnerValid(w, m.h);
    StepKeeps(w.stores[l.id], l.handle, m.step);
    var v := Play(w, m).value;
    forall id ensures PathTold(v, id) {
      assert PathTold(w, id);
      forall h ensures WritesAt(v, h, id) <==> WritesAt(w, h, id) {}
      forall h ensures ReadsAt(v, h, id) <==> ReadsAt(w, h, id) {}
      forall op ensures ResetsAt(v, op, id) <==> ResetsAt(w, op, id) {}
    }
    forall h ensures OwnerValid(v, h) {
      assert OwnerValid(w, h) && WritesAt(w, m.h, l.id);
      Exclusion(w, l.id, m.h, h);
    }
    forall op ensures ResetValid(v, op) { assert ResetValid(w, op); }
  }

  lemma ReleaseFacts(r: Registry, h: nat, id: Id)
    ensures var t := Released(r, h, id);
      && (forall x :: Held(t, x) == if x == id && Held(r, x) == Some(OpenBy(h)) then None else Held(r, x))
      && (forall x :: ReadersOf(t, x) == if x == id then ReadersOf(r, x) - {h} else ReadersOf(r, x))
      && t.unproven == r.unproven
  {
  }

  lemma CloseKeeps(w: World, m: Move)
    requires WInv(w) && (m.FinishWriter? || m.CloseReader? || m.FailOpen?) && Play(w, m).Some?
    ensures WInv(Play(w, m).value)
  {
    hide Inv;
    var l := w.live[m.h];
    ReleaseFacts(w.registry, m.h, l.id);
    var v := Play(w, m).value;
    forall id ensures PathTold(v, id) {
      assert PathTold(w, id);
      forall h ensures WritesAt(v, h, id) <==> WritesAt(w, h, id) && h != m.h {}
      forall h ensures ReadsAt(v, h, id) <==> ReadsAt(w, h, id) && h != m.h {}
      forall op ensures ResetsAt(v, op, id) <==> ResetsAt(w, op, id) {}
      hide Released;
      assert Held(v.registry, id) == Held(Released(w.registry, m.h, l.id), id);
      assert ReadersOf(v.registry, id) == ReadersOf(Released(w.registry, m.h, l.id), id);
      assert WritesAt(w, m.h, l.id) || ReadsAt(w, m.h, l.id);
    }
    forall h ensures OwnerValid(v, h) { assert OwnerValid(w, h); }
    forall op ensures ResetValid(v, op) { assert ResetValid(w, op); }
  }

  lemma ResetTells(w: World, m: Move, id: Id)
    requires WInv(w) && (m.BeginReset? || m.EndReset?) && Play(w, m).Some?
    ensures PathTold(Play(w, m).value, id)
  {
    hide Inv;
    var v := Play(w, m).value;
    assert OwnerValid(w, w.next) && ResetValid(w, w.next);
    var op0, id0 := if m.BeginReset? then w.next else m.operation, if m.BeginReset? then m.id else w.resets[m.operation].1;
    assert PathTold(w, id0) && PathTold(w, id);
    assert m.EndReset? ==> ResetsAt(w, op0, id0);
    forall h ensures WritesAt(v, h, id) <==> WritesAt(w, h, id) {}
    forall h ensures ReadsAt(v, h, id) <==> ReadsAt(w, h, id) {}
    forall op ensures ResetsAt(v, op, id) <==> if op == op0 then m.BeginReset? && id == id0 else ResetsAt(w, op, id) {}
  }

  lemma ResetKeeps(w: World, m: Move)
    requires WInv(w) && (m.BeginReset? || m.EndReset?) && Play(w, m).Some?
    ensures WInv(Play(w, m).value)
  {
    hide Inv;
    var v := Play(w, m).value;
    forall id ensures PathTold(v, id) { ResetTells(w, m, id); }
    forall h ensures OwnerValid(v, h) {
      assert OwnerValid(w, h);
      if m.EndReset? && h in w.live && w.live[h].WriterAt? {
        Exclusion(w, w.live[h].id, m.operation, h);
        assert WritesAt(w, h, w.live[h].id) && ResetsAt(w, m.operation, w.resets[m.operation].1);
      }
    }
    forall op ensures ResetValid(v, op) { assert ResetValid(w, op); }
  }

  lemma MoveKeeps(w: World, m: Move)
    requires WInv(w) && Play(w, m).Some?
    ensures WInv(Play(w, m).value)
  {
    hide WInv, Play;
    match m
    case OpenIndex(_, _, _) => OpenKeeps(w, m);
    case Act(_, _) => ActKeeps(w, m);
    case StartWorkers(_) => StartKeeps(w, m);
    case FailOpen(_, _) => CloseKeeps(w, m);
    case ReleaseAgain(_, _) => ReleaseAgainKeeps(w, m);
    case FinishWriter(_) => CloseKeeps(w, m);
    case CloseReader(_, _) => CloseKeeps(w, m);
    case BeginReset(_, _) => ResetKeeps(w, m);
    case EndReset(_, _) => ResetKeeps(w, m);
  }

  // ---- whole runs ----

  function PlayAll(w: World, moves: seq<Move>): Option<World> {
    if moves == [] then Some(w)
    else
      var before := PlayAll(w, moves[..|moves| - 1]);
      if before.None? then None else Play(before.value, moves[|moves| - 1])
  }

  /** Some reset in the run retired the index at this physical path. */
  predicate Retired(w: World, moves: seq<Move>, id: Id) {
    if moves == [] then false
    else
      var before, m := PlayAll(w, moves[..|moves| - 1]), moves[|moves| - 1];
      || Retired(w, moves[..|moves| - 1], id)
      || (before.Some? && m.EndReset? && m.retired && ResetsAt(before.value, m.operation, id))
  }

  lemma EmptyWorld()
    ensures WInv(EMPTY)
  {
  }

  lemma {:induction false} EveryRunKeeps(w: World, moves: seq<Move>)
    requires WInv(w) && PlayAll(w, moves).Some?
    ensures WInv(PlayAll(w, moves).value)
  {
    if moves != [] {
      EveryRunKeeps(w, moves[..|moves| - 1]);
      hide WInv, Play;
      MoveKeeps(PlayAll(w, moves[..|moves| - 1]).value, moves[|moves| - 1]);
    }
  }

  lemma MoveKeepsStores(w: World, m: Move, id: Id)
    requires WInv(w) && Play(w, m).Some? && id in w.stores && !(m.EndReset? && m.retired && ResetsAt(w, m.operation, id))
    ensures var v := Play(w, m).value;
      id in v.stores && (w.stores[id].payload.Some? ==> v.stores[id].payload.Some?) && w.stores[id].mutations <= v.stores[id].mutations
  {
    if m.Act? {
      assert OwnerValid(w, m.h);
      StepIsSafe(w.stores[w.live[m.h].id], w.live[m.h].handle, m.step);
    }
  }

  /** Over every run of opens, activity, failures, closes, reopens and resets, by any number of handles: unless a reset
      retires the index, its checkpoint once present is never erased and what is committed stays committed. */
  lemma {:induction false} CheckpointSurvives(w: World, moves: seq<Move>, id: Id)
    requires WInv(w) && PlayAll(w, moves).Some? && id in w.stores && !Retired(w, moves, id)
    ensures var v := PlayAll(w, moves).value;
      id in v.stores && (w.stores[id].payload.Some? ==> v.stores[id].payload.Some?) && w.stores[id].mutations <= v.stores[id].mutations
  {
    if moves != [] {
      var front := moves[..|moves| - 1];
      CheckpointSurvives(w, front, id);
      EveryRunKeeps(w, front);
      hide WInv, Play;
      MoveKeepsStores(PlayAll(w, front).value, moves[|moves| - 1], id);
    }
  }

  /** A handle whose workers are unaccounted for, or the mark it leaves behind. */
  predicate Tainted(w: World, h: nat, key: Key) {
    || key in w.registry.unproven
    || (h in w.live && w.live[h].WriterAt? && w.live[h].key == key && w.live[h].handle.writer.ownershipUnproven
        && (w.live[h].handle.stage.Stopped? ==> !w.live[h].handle.quiesced))
  }

  /** No open and no reset of the path succeeds, whatever physical directory it names. */
  ghost predicate Quarantined(w: World, key: Key) {
    && (forall id, readOnly :: Play(w, OpenIndex(key, id, readOnly)).None?)
    && (forall id :: Play(w, BeginReset(key, id)).None?)
  }

  lemma TaintStays(w: World, m: Move, h: nat, key: Key)
    requires WInv(w) && Play(w, m).Some? && Tainted(w, h, key)
    ensures Tainted(Play(w, m).value, h, key)
  {
    hide Inv;
    assert OwnerValid(w, h) && OwnerValid(w, w.next);
    if m.Act? {
      assert OwnerValid(w, m.h);
      StepIsSafe(w.stores[w.live[m.h].id], w.live[m.h].handle, m.step);
    }
  }

  lemma {:induction false} TaintQuarantines(w: World, moves: seq<Move>, h: nat, key: Key)
    requires WInv(w) && PlayAll(w, moves).Some? && Tainted(w, h, key)
    ensures var v := PlayAll(w, moves).value;
      Tainted(v, h, key) && (h !in v.live ==> Quarantined(v, key))
  {
    if moves != [] {
      var front := moves[..|moves| - 1];
      TaintQuarantines(w, front, h, key);
      EveryRunKeeps(w, front);
      hide WInv;
      TaintStays(PlayAll(w, front).value, moves[|moves| - 1], h, key);
    }
    var v := PlayAll(w, moves).value;
    if key in v.registry.unproven { UnprovenIsQuarantined(v, key); }
  }

  lemma UnprovenIsQuarantined(w: World, key: Key)
    requires key in w.registry.unproven
    ensures Quarantined(w, key)
  {
  }

  lemma {:induction false} PlayedInParts(w: World, before: seq<Move>, after: seq<Move>)
    requires PlayAll(w, before + after).Some?
    ensures PlayAll(w, before).Some? && PlayAll(PlayAll(w, before).value, after) == PlayAll(w, before + after)
    decreases |after|
  {
    hide Play;
    if after == [] {
      assert before + after == before;
    } else {
      assert (before + after)[..|before + after| - 1] == before + after[..|after| - 1];
      PlayedInParts(w, before, after[..|after| - 1]);
    }
  }

  /** The handle's next command is a commit that gets as far as preparing. */
  predicate AboutToPrepare(w: World, h: nat) {
    && h in w.live && w.live[h].WriterAt? && w.live[h].handle.queue != []
    && var q := w.live[h].handle.queue[0];
       (q.Publish? && |q.payload| <= MAX_COMMIT_PAYLOAD_BYTES) || (q.PlainCommit? && !w.live[h].handle.writer.checkpointRequired)
  }

  /** A run in which commit preparation failed can only end in quarantine: whatever came before and comes after, once the
      handle is gone no open and no reset of its path succeeds again. */
  lemma FailedPreparationQuarantines(w: World, before: seq<Move>, after: seq<Move>, h: nat)
    requires WInv(w) && PlayAll(w, before + ([Act(h, Execute(PrepareFails))] + after)).Some?
    requires PlayAll(w, before).Some? && AboutToPrepare(PlayAll(w, before).value, h)
    ensures var key, v := PlayAll(w, before).value.live[h].key, PlayAll(w, before + ([Act(h, Execute(PrepareFails))] + after)).value;
      h !in v.live ==> Quarantined(v, key)
  {
    var fails := Act(h, Execute(PrepareFails));
    PlayedInParts(w, before, [fails] + after);
    var u := PlayAll(w, before).value;
    PlayedInParts(u, [fails], after);
    EveryRunKeeps(w, before);
    assert [fails][..0] == [] && PlayAll(u, []) == Some(u);
    hide WInv, PlayAll, Quarantined;
    MoveKeeps(u, fails);
    PreparationFailureTaints(u, h);
    TaintQuarantines(Play(u, fails).value, after, h, u.live[h].key);
  }

  lemma PreparationFailureTaints(w: World, h: nat)
    requires AboutToPrepare(w, h) && Play(w, Act(h, Execute(PrepareFails))).Some?
    ensures Tainted(Play(w, Act(h, Execute(PrepareFails))).value, h, w.live[h].key)
  {
  }

  lemma UnprovenStays(w: World, m: Move, key: Key)
    requires Play(w, m).Some? && key in w.registry.unproven
    ensures key in Play(w, m).value.registry.unproven
  {
  }

  /** Any handle, writer or reader, that ends with its workers unaccounted for leaves its path quarantined for good. */
  lemma {:induction false} UnprovenEndQuarantines(w: World, moves: seq<Move>, m: Move, key: Key)
    requires m.FinishWriter? || m.CloseReader?
    requires PlayAll(w, [m] + moves).Some? && m.h in w.live && key == w.live[m.h].key
    requires if m.FinishWriter? then w.live[m.h].WriterAt? && !w.live[m.h].handle.quiesced else !m.quiesced
    ensures Quarantined(PlayAll(w, [m] + moves).value, key) && key in PlayAll(w, [m] + moves).value.registry.unproven
    decreases |moves|
  {
    var all := [m] + moves;
    if moves == [] {
      assert all == [m] && [m][..0] == [];
    } else {
      var front := moves[..|moves| - 1];
      assert all[..|all| - 1] == [m] + front;
      UnprovenEndQuarantines(w, front, m, key);
      UnprovenStays(PlayAll(w, [m] + front).value, all[|all| - 1], key);
    }
    UnprovenIsQuarantined(PlayAll(w, all).value, key);
  }

  /** After a handle is poisoned nothing it still does, in any continuation, changes anything durable. */
  lemma {:induction false} PoisonedHandleIsHarmless(w: World, moves: seq<Move>, h: nat, step: Step)
    requires WInv(w) && PlayAll(w, moves).Some? && h < w.next
    requires h in w.live && w.live[h].WriterAt? ==> w.live[h].handle.failed
    requires h in w.live ==> w.live[h].WriterAt?
    ensures var v := PlayAll(w, moves).value;
      && h < v.next && (h in v.live ==> v.live[h].WriterAt? && v.live[h].handle.failed)
      && (Play(v, Act(h, step)).Some? ==> Play(v, Act(h, step)).value.stores == v.stores)
  {
    if moves != [] {
      var front, m := moves[..|moves| - 1], moves[|moves| - 1];
      PoisonedHandleIsHarmless(w, front, h, step);
      EveryRunKeeps(w, front);
      var u := PlayAll(w, front).value;
      if m.Act? {
        assert OwnerValid(u, m.h);
        StepIsSafe(u.stores[u.live[m.h].id], u.live[m.h].handle, m.step);
      }
    }
    EveryRunKeeps(w, moves);
    var v := PlayAll(w, moves).value;
    assert OwnerValid(v, h);
    if Play(v, Act(h, step)).Some? { StepIsSafe(v.stores[v.live[h].id], v.live[h].handle, step); }
  }
}
