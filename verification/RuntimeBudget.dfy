/** The process-wide resource budget: reservations taken resource by resource, and the choice between running with a
    configured budget and running without one. */
module RuntimeBudget {
  import opened Wrappers

  const USIZE_MAX := 0xFFFF_FFFF_FFFF_FFFF

  /** Resident indexes, indexing threads, search threads, writer memory, queued bytes. */
  const RESOURCES: nat := 5

  type Amounts = a: seq<nat> | |a| == RESOURCES witness [0, 0, 0, 0, 0]

  const NOTHING: Amounts := [0, 0, 0, 0, 0]

  datatype Limits = Limits(indexingThreads: nat, searchThreads: nat, writerMemory: nat, queuedBytes: nat)

  /** What an open asks for; a reader needs no writer and one queue, a writer two queues. */
  function Wanted(limits: Limits, readOnly: bool): Amounts {
    [1, if readOnly then 0 else limits.indexingThreads, limits.searchThreads, if readOnly then 0 else limits.writerMemory,
     limits.queuedBytes * if readOnly then 1 else 2]
  }

  function SumOf(held: seq<Amounts>, k: nat): nat
    requires k < RESOURCES
  {
    if held == [] then 0 else SumOf(held[..|held| - 1], k) + held[|held| - 1][k]
  }

  lemma {:induction false} SumUpdate(held: seq<Amounts>, r: nat, amounts: Amounts, k: nat)
    requires r < |held| && k < RESOURCES
    ensures SumOf(held[r := amounts], k) == SumOf(held, k) - held[r][k] + amounts[k]
    ensures held[r][k] <= SumOf(held, k)
  {
    var n := |held| - 1;
    var updated := held[r := amounts];
    if r == n {
      assert updated[..n] == held[..n];
    } else {
      SumUpdate(held[..n], r, amounts, k);
      assert updated[..n] == held[..n][r := amounts];
    }
  }

  /** One counter per resource. Every method but the last two is one atomic operation, so any sequence of their calls is
      an interleaving of admissions and drops, partial ones included. */
  class Budget {
    const limits: Amounts
    var used: Amounts
    ghost var held: seq<Amounts>

    ghost predicate Valid()
      reads this
    {
      forall k :: 0 <= k < RESOURCES ==> used[k] == SumOf(held, k) && used[k] <= limits[k]
    }

    constructor (limits: Amounts)
      ensures Valid() && this.limits == limits && used == NOTHING && held == []
    {
      this.limits, used, held := limits, NOTHING, [];
    }

    /** A new admission, holding nothing yet. */
    method Begin() returns (ghost r: nat)
      requires Valid()
      modifies this`held
      ensures Valid() && r == |old(held)| && held == old(held) + [NOTHING]
    {
      r := |held|;
      forall k | 0 <= k < RESOURCES ensures SumOf(held + [NOTHING], k) == SumOf(held, k) {
        assert (held + [NOTHING])[..|held|] == held;
      }
      held := held + [NOTHING];
    }

    method Reserve(ghost r: nat, k: nat, amount: nat) returns (ok: bool)
      requires Valid() && r < |held| && k < RESOURCES && held[r][k] == 0
      modifies this
      ensures Valid()
      ensures ok <==> old(used[k]) + amount <= limits[k]
      ensures used == if ok then old(used)[k := old(used[k]) + amount] else old(used)
      ensures held == if ok then old(held)[r := old(held[r])[k := amount]] else old(held)
    {
      ok := used[k] + amount <= limits[k];
      if ok {
        ghost var amounts: Amounts := held[r][k := amount];
        forall j | 0 <= j < RESOURCES
          ensures SumOf(held[r := amounts], j) == SumOf(held, j) + if j == k then amount else 0
        {
          SumUpdate(held, r, amounts, j);
        }
        used := used[k := used[k] + amount];
        held := held[r := amounts];
      }
    }

    method Release(ghost r: nat, k: nat, amount: nat)
      requires Valid() && r < |held| && k < RESOURCES && held[r][k] == amount
      modifies this
      ensures Valid()
      ensures old(used[k]) >= amount && used == old(used)[k := old(used[k]) - amount]
      ensures held == old(held)[r := old(held[r])[k := 0]]
    {
      ghost var amounts: Amounts := held[r][k := 0];
      forall j | 0 <= j < RESOURCES
        ensures SumOf(held[r := amounts], j) == SumOf(held, j) - if j == k then amount else 0
        ensures j == k ==> amount <= SumOf(held, j)
      {
        SumUpdate(held, r, amounts, j);
      }
      used := used[k := used[k] - amount];
      held := held[r := amounts];
    }

    /** Takes the resources one after the other; a refusal gives back what was already taken. */
    method Admit(want: Limits, readOnly: bool) returns (ok: bool, ghost r: nat)
      requires Valid()
      modifies this
      ensures Valid() && r == |old(held)| && |held| == r + 1 && held[..r] == old(held)
      ensures ok <==> var wanted := Wanted(want, readOnly);
        wanted[4] <= USIZE_MAX && forall k :: 0 <= k < RESOURCES ==> old(used[k]) + wanted[k] <= limits[k]
      ensures held[r] == if ok then Wanted(want, readOnly) else NOTHING
      ensures forall k :: 0 <= k < RESOURCES ==> used[k] == old(used[k]) + if ok then Wanted(want, readOnly)[k] else 0
      ensures ok && !readOnly ==> used == [old(used[0]) + 1, old(used[1]) + want.indexingThreads, old(used[2]) + want.searchThreads,
                                           old(used[3]) + want.writerMemory, old(used[4]) + 2 * want.queuedBytes]
      ensures ok && readOnly ==> used == [old(used[0]) + 1, old(used[1]), old(used[2]) + want.searchThreads, old(used[3]),
                                          old(used[4]) + want.queuedBytes]
      ensures !ok ==> used == old(used)
    {
      var wanted := Wanted(want, readOnly);
      r := Begin();
      var taken: Amounts := NOTHING;
      var k := 0;
      while k < RESOURCES
        invariant k <= RESOURCES && Valid() && r == |old(held)| && |held| == r + 1 && held[..r] == old(held)
        invariant held[r] == taken && forall j :: 0 <= j < RESOURCES ==> taken[j] == if j < k then wanted[j] else 0
        invariant forall j :: 0 <= j < RESOURCES ==> used[j] == old(used[j]) + held[r][j]
        invariant forall j :: 0 <= j < k ==> old(used[j]) + wanted[j] <= limits[j]
        invariant k == RESOURCES ==> wanted[4] <= USIZE_MAX
      {
        ok := k < 4 || wanted[k] <= USIZE_MAX;
        if ok { ok := Reserve(r, k, wanted[k]); }
        if !ok {
          Drop(r, taken);
          return;
        }
        taken := taken[k := wanted[k]];
        k := k + 1;
      }
      assert held[r] == wanted;
      ok := true;
    }

    /** Gives back everything a complete or partial reservation holds. */
    method Drop(ghost r: nat, amounts: Amounts)
      requires Valid() && r < |held| && held[r] == amounts
      modifies this
      ensures Valid() && held == old(held)[r := NOTHING]
      ensures forall k :: 0 <= k < RESOURCES ==> used[k] + amounts[k] == old(used[k])
    {
      var k := 0;
      while k < RESOURCES
        invariant k <= RESOURCES && Valid() && |held| == |old(held)|
        invariant held == old(held)[r := held[r]]
        invariant forall j :: 0 <= j < RESOURCES ==> held[r][j] == if j < k then 0 else amounts[j]
        invariant forall j :: 0 <= j < RESOURCES ==> used[j] + (if j < k then amounts[j] else 0) == old(used[j])
      {
        Release(r, k, amounts[k]);
        k := k + 1;
      }
      assert held[r] == NOTHING;
    }
  }

  // ---- budgeted or not ----

  datatype Mode<L> = Unconfigured(pendingOpens: nat) | Configured(limits: L) | OpenedWithoutBudget

  datatype Refusal = OpenPending | ConfiguredDifferently | AlreadyUnbudgeted

  /** An open's admission as its owner holds it. */
  datatype Admission = Budgeted | Unbudgeted(pending: bool)

  class BudgetMode<L(==)> {
    var mode: Mode<L>
    /** The admissions not yet dropped. */
    ghost var budgeted: set<nat>
    ghost var pending: set<nat>
    ghost var settled: set<nat>

    /** A configured budget coexists only with budgeted admissions, an undecided process only with pending opens. */
    ghost predicate Valid()
      reads this
    {
      && budgeted !! pending !! settled
      && match mode
         case Unconfigured(n) => budgeted == {} && settled == {} && n == |pending|
         case Configured(_) => pending == {} && settled == {}
         case OpenedWithoutBudget => budgeted == {}
    }

    constructor ()
      ensures Valid() && mode == Unconfigured(0)
    {
      mode, budgeted, pending, settled := Unconfigured(0), {}, {}, {};
    }

    method Configure(limits: L) returns (refusal: Option<Refusal>)
      requires Valid()
      modifies this`mode
      ensures Valid()
      ensures refusal == match old(mode)
                         case Unconfigured(_) => if pending == {} then None else Some(OpenPending)
                         case Configured(l) => if l == limits then None else Some(ConfiguredDifferently)
                         case OpenedWithoutBudget => Some(AlreadyUnbudgeted)
      ensures mode == if old(mode).Unconfigured? && refusal.None? then Configured(limits) else old(mode)
    {
      match mode
      case Unconfigured(n) =>
        if n > 0 { return Some(OpenPending); }
        mode := Configured(limits);
        refusal := None;
      case Configured(l) => refusal := if l == limits then None else Some(ConfiguredDifferently);
      case OpenedWithoutBudget => refusal := Some(AlreadyUnbudgeted);
    }

    method Admit(ghost a: nat) returns (admission: Admission)
      requires Valid() && a !in budgeted + pending + settled
      modifies this
      ensures Valid()
      ensures admission == match old(mode)
                           case Unconfigured(_) => Unbudgeted(true)
                           case Configured(_) => Budgeted
                           case OpenedWithoutBudget => Unbudgeted(false)
      ensures budgeted == old(budgeted) + (if admission.Budgeted? then {a} else {})
      ensures pending == old(pending) + (if admission == Unbudgeted(true) then {a} else {})
      ensures settled == old(settled) + (if admission == Unbudgeted(false) then {a} else {})
      ensures mode == if old(mode).Unconfigured? then Unconfigured(old(mode).pendingOpens + 1) else old(mode)
    {
      match mode
      case Unconfigured(n) =>
        mode := Unconfigured(n + 1);
        pending := pending + {a};
        admission := Unbudgeted(true);
      case Configured(_) =>
        budgeted := budgeted + {a};
        admission := Budgeted;
      case OpenedWithoutBudget =>
        settled := settled + {a};
        admission := Unbudgeted(false);
    }

    /** A pending open succeeded, or its teardown was not proven: the process is unbudgeted from here on. */
    method Settle(ghost a: nat)
      requires Valid() && a in pending
      modifies this
      ensures Valid() && mode == OpenedWithoutBudget
      ensures pending == old(pending) - {a} && settled == old(settled) + {a} && budgeted == old(budgeted)
    {
      if mode.Unconfigured? { mode := OpenedWithoutBudget; }
      pending, settled := pending - {a}, settled + {a};
    }

    method DropPending(ghost a: nat)
      requires Valid() && a in pending
      modifies this
      ensures Valid() && pending == old(pending) - {a} && settled == old(settled) && budgeted == old(budgeted)
      ensures mode == if old(mode).Unconfigured? then Unconfigured(old(mode).pendingOpens - 1) else old(mode)
    {
      assert pending == (pending - {a}) + {a};
      if mode.Unconfigured? { mode := Unconfigured(mode.pendingOpens - 1); }
      pending := pending - {a};
    }

    /** A budgeted or settled admission is dropped; the mode never goes back. */
    method DropOther(ghost a: nat)
      requires Valid() && a in budgeted + settled
      modifies this`budgeted, this`settled
      ensures Valid() && budgeted == old(budgeted) - {a} && settled == old(settled) - {a}
    {
      budgeted, settled := budgeted - {a}, settled - {a};
    }
  }
}
