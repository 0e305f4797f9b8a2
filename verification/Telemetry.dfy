/** Operation tickets and the wrapping counters they move: over any sequence of calls and ticket events every counter is,
    modulo 2^64, the number of tickets that the order of their own events puts there. */
module Telemetry {
  import opened Wrappers

  const WORD: nat := 0x1_0000_0000_0000_0000
  const OPERATIONS: nat := 8
  /** Known error codes; one more slot takes every other code. */
  const ERROR_CODES: nat := 33
  const SLOTS: nat := ERROR_CODES + 1
  const CLOSED_CODE: nat := 0

  // ---- wrapping arithmetic ----

  /** What a 64-bit counter shows of n. */
  function Wrap(n: nat): nat { n % WORD }

  function Add(x: nat): nat { Wrap(x + 1) }

  function Subtract(x: nat): nat { Wrap(x + WORD - 1) }

  function Shift(x: nat, was: bool, is_: bool): nat { if was == is_ then x else if is_ then Add(x) else Subtract(x) }

  lemma Shifts(n: nat, was: bool, is_: bool)
    requires was ==> n > 0
    ensures Shift(Wrap(n), was, is_) == Wrap(n - (if was then 1 else 0) + if is_ then 1 else 0)
  {
  }

  lemma Small(n: nat)
    requires n < WORD
    ensures Wrap(n) == n
  {
  }

  lemma Absorbed(a: nat, x: nat)
    ensures Wrap(a + Wrap(x)) == Wrap(a + x)
  {
  }

  lemma Sums(a: nat, b: nat)
    ensures Wrap(Wrap(a) + Wrap(b)) == Wrap(a + b)
  {
    Absorbed(Wrap(a), b);
    Absorbed(b, a);
  }

  lemma FourSums(w: nat, d: nat, s: nat, f: nat)
    ensures Wrap(w + Wrap(d) + Wrap(s) + Wrap(f)) == Wrap(w + d + s + f)
  {
    hide Wrap;
    Absorbed(w + Wrap(d) + Wrap(s), f);
    Absorbed(w + Wrap(d) + f, s);
    Absorbed(w + f + s, d);
  }

  lemma Cancels(a: nat, b: nat, x: nat)
    ensures Wrap(a + x) == Wrap(b + x) <==> Wrap(a) == Wrap(b)
  {
  }

  /** If two sums agree, their first terms agree exactly when their second terms do. */
  lemma TermsAgree(a: nat, x: nat, b: nat, y: nat)
    requires Wrap(a + x) == Wrap(b + y)
    ensures Wrap(a) == Wrap(b) <==> Wrap(x) == Wrap(y)
  {
    hide Wrap;
    Cancels(a, b, x);
    Cancels(x, y, b);
    assert b + x == x + b && b + y == y + b;
  }

  function Sum(xs: seq<nat>): nat { if xs == [] then 0 else Sum(xs[..|xs| - 1]) + xs[|xs| - 1] }

  lemma {:induction false} SumUpdate(xs: seq<nat>, i: nat, x: nat)
    requires i < |xs|
    ensures Sum(xs[i := x]) == Sum(xs) - xs[i] + x && xs[i] <= Sum(xs)
  {
    var n := |xs| - 1;
    var more := xs[i := x];
    if i == n {
      assert more[..n] == xs[..n];
    } else {
      SumUpdate(xs[..n], i, x);
      assert more[..n] == xs[..n][i := x];
    }
  }

  lemma {:induction false} SumOfZeros(n: nat)
    ensures Sum(seq(n, _ => 0)) == 0
  {
    if n > 0 {
      assert seq(n, _ => 0)[..n - 1] == seq(n - 1, _ => 0);
      SumOfZeros(n - 1);
    }
  }

  lemma {:induction false} SumOfSums(xs: seq<nat>, ys: seq<nat>, zs: seq<nat>)
    requires |xs| == |ys| == |zs| && forall i :: 0 <= i < |xs| ==> Wrap(xs[i]) == Wrap(ys[i] + zs[i])
    ensures Wrap(Sum(xs)) == Wrap(Sum(ys) + Sum(zs))
  {
    hide Wrap;
    if xs != [] {
      var n := |xs| - 1;
      SumOfSums(xs[..n], ys[..n], zs[..n]);
      var a, b := Sum(ys[..n]) + Sum(zs[..n]), ys[n] + zs[n];
      Cancels(Sum(xs[..n]), a, xs[n]);
      Cancels(xs[n], b, a);
      assert a + b == Sum(ys) + Sum(zs) && a + xs[n] == xs[n] + a && b + a == a + b;
    }
  }

  // ---- tickets ----

  /** A ticket: the bank it reports to, how far it has come, the slot of the error it was settled with, and what the order
      of its events was: whether it was armed, or dispatched, only after it had been settled. */
  datatype Ticket = Ticket(operation: nat, worker: Option<nat>, accepted: bool, dispatched: bool, settled: bool, started: bool,
                           slot: Option<nat>, armedLate: bool, dispatchedLate: bool) {
    function Bank(): nat { if worker.Some? then worker.value + 1 else 0 }

    predicate Sane() {
      && (dispatched ==> accepted) && (armedLate ==> accepted && settled) && (dispatchedLate ==> dispatched && settled)
      && (armedLate && dispatched ==> dispatchedLate) && (slot.Some? ==> slot.value < SLOTS) && (started ==> dispatched)
    }

    /** Its end was counted. */
    predicate Ended() { accepted && settled && !armedLate }
  }

  function NewTicket(operation: nat): Ticket { Ticket(operation, None, false, false, false, false, None, false, false) }

  datatype What = Accepted | Waiting | Gauged | Live | Late | Succeeded | Failed | FailedWith(slot: nat) | Twice | Lost

  predicate Is(t: Ticket, what: What) {
    match what
    case Accepted => t.accepted
    case Waiting => t.accepted && !t.dispatched && !t.settled
    case Gauged => t.dispatched && (!t.settled || t.dispatchedLate)
    case Live => t.accepted && t.dispatched && !t.settled
    case Late => t.dispatchedLate
    case Succeeded => t.Ended() && t.slot.None?
    case Failed => t.Ended() && t.slot.Some?
    case FailedWith(slot) => t.Ended() && t.slot == Some(slot)
    case Twice => t.dispatchedLate && !t.armedLate
    case Lost => t.armedLate && !t.dispatched
  }

  /** Tickets of an operation, in one bank or in any. */
  predicate At(t: Ticket, operation: nat, bank: Option<nat>, what: What) {
    t.operation == operation && (bank.Some? ==> t.Bank() == bank.value) && Is(t, what)
  }

  function One(holds: bool): nat { if holds then 1 else 0 }

  function Count(tickets: seq<Ticket>, operation: nat, bank: Option<nat>, what: What): nat {
    if tickets == [] then 0
    else Count(tickets[..|tickets| - 1], operation, bank, what) + One(At(tickets[|tickets| - 1], operation, bank, what))
  }

  lemma {:induction false} CountUpdate(tickets: seq<Ticket>, i: nat, t: Ticket, operation: nat, bank: Option<nat>, what: What)
    requires i < |tickets|
    ensures Count(tickets[i := t], operation, bank, what)
      == Count(tickets, operation, bank, what) - One(At(tickets[i], operation, bank, what)) + One(At(t, operation, bank, what))
    ensures At(tickets[i], operation, bank, what) ==> Count(tickets, operation, bank, what) > 0
  {
    hide At;
    var n := |tickets| - 1;
    var updated := tickets[i := t];
    if i == n {
      assert updated[..n] == tickets[..n];
    } else {
      CountUpdate(tickets[..n], i, t, operation, bank, what);
      assert updated[..n] == tickets[..n][i := t];
    }
  }

  lemma CountAppend(tickets: seq<Ticket>, t: Ticket, operation: nat, bank: Option<nat>, what: What)
    requires !t.accepted && t.Sane()
    ensures Count(tickets + [t], operation, bank, what) == Count(tickets, operation, bank, what)
  {
    assert (tickets + [t])[..|tickets|] == tickets;
  }

  // ---- what the counters hold ----

  /** The actor counters of one operation in one bank: the operation's own, or a search worker's. */
  datatype Bank = Bank(dispatched: nat, succeeded: nat, failed: nat, errors: seq<nat>)

  const EMPTY: Bank := Bank(0, 0, 0, seq(SLOTS, _ => 0))

  /** Everything the metrics hold for one operation. */
  datatype Book = Book(attempted: nat, accepted: nat, rejected: nat, banks: seq<Bank>)

  /** Rejections are booked in the operation's own bank. */
  function Here(rejections: seq<nat>, b: nat, slot: nat): nat
    requires slot < |rejections|
  {
    if b == 0 then rejections[slot] else 0
  }

  ghost predicate SlotTold(error: nat, tickets: seq<Ticket>, operation: nat, b: nat, slot: nat, rejected: nat) {
    error == Wrap(Count(tickets, operation, Some(b), FailedWith(slot)) + rejected)
  }

  ghost predicate BankTold(bank: Bank, tickets: seq<Ticket>, operation: nat, b: nat, rejections: seq<nat>) {
    && |bank.errors| == |rejections| == SLOTS
    && bank.dispatched == Wrap(Count(tickets, operation, Some(b), Gauged))
    && bank.succeeded == Wrap(Count(tickets, operation, Some(b), Succeeded))
    && bank.failed == Wrap(Count(tickets, operation, Some(b), Failed))
    && forall i :: 0 <= i < SLOTS ==> SlotTold(bank.errors[i], tickets, operation, b, i, Here(rejections, b, i))
  }

  ghost predicate Told(book: Book, tickets: seq<Ticket>, operation: nat, calls: nat, rejections: seq<nat>) {
    && |rejections| == SLOTS
    && book.attempted == Wrap(Count(tickets, operation, None, Accepted) + Sum(rejections) + calls)
    && book.accepted == Wrap(Count(tickets, operation, None, Accepted))
    && book.rejected == Wrap(Sum(rejections))
    && forall b :: 0 <= b < |book.banks| ==> BankTold(book.banks[b], tickets, operation, b, rejections)
  }

  /** A counter that moved as the ticket did. */
  predicate Moved(before: nat, after: nat, v: Ticket, w: Ticket, b: nat, what: What) {
    after == Shift(before, At(v, v.operation, Some(b), what), At(w, v.operation, Some(b), what))
  }

  ghost predicate Follows(before: Bank, after: Bank, v: Ticket, w: Ticket, b: nat) {
    && |after.errors| == |before.errors|
    && Moved(before.dispatched, after.dispatched, v, w, b, Gauged)
    && Moved(before.succeeded, after.succeeded, v, w, b, Succeeded)
    && Moved(before.failed, after.failed, v, w, b, Failed)
    && forall i :: 0 <= i < |before.errors| ==> Moved(before.errors[i], after.errors[i], v, w, b, FailedWith(i))
  }

  lemma CounterFollows(before: nat, after: nat, tickets: seq<Ticket>, i: nat, w: Ticket, b: nat, what: What, extra: nat)
    requires i < |tickets| && w.operation == tickets[i].operation
    requires before == Wrap(Count(tickets, w.operation, Some(b), what) + extra) && Moved(before, after, tickets[i], w, b, what)
    ensures after == Wrap(Count(tickets[i := w], w.operation, Some(b), what) + extra)
  {
    CountUpdate(tickets, i, w, w.operation, Some(b), what);
    Shifts(Count(tickets, w.operation, Some(b), what) + extra, At(tickets[i], w.operation, Some(b), what), At(w, w.operation, Some(b), what));
  }

  lemma BankFollows(before: Bank, after: Bank, tickets: seq<Ticket>, i: nat, w: Ticket, b: nat, rejections: seq<nat>)
    requires i < |tickets| && w.operation == tickets[i].operation
    requires BankTold(before, tickets, w.operation, b, rejections) && Follows(before, after, tickets[i], w, b)
    ensures BankTold(after, tickets[i := w], w.operation, b, rejections)
  {
    hide Count, Moved;
    CounterFollows(before.dispatched, after.dispatched, tickets, i, w, b, Gauged, 0);
    CounterFollows(before.succeeded, after.succeeded, tickets, i, w, b, Succeeded, 0);
    CounterFollows(before.failed, after.failed, tickets, i, w, b, Failed, 0);
    forall k | 0 <= k < SLOTS ensures SlotTold(after.errors[k], tickets[i := w], w.operation, b, k, Here(rejections, b, k)) {
      assert SlotTold(before.errors[k], tickets, w.operation, b, k, Here(rejections, b, k));
      CounterFollows(before.errors[k], after.errors[k], tickets, i, w, b, FailedWith(k), Here(rejections, b, k));
    }
  }

  /** A bank after one of its tickets has ended, with an error slot if it failed. */
  function Ending(bank: Bank, dispatched: bool, slot: Option<nat>): (r: Bank)
    requires slot.Some? ==> slot.value < |bank.errors|
  {
    var lowered := if dispatched then bank.(dispatched := Subtract(bank.dispatched)) else bank;
    if slot.None? then lowered.(succeeded := Add(lowered.succeeded))
    else lowered.(failed := Add(lowered.failed), errors := lowered.errors[slot.value := Add(lowered.errors[slot.value])])
  }

  lemma EndingFollows(bank: Bank, v: Ticket, slot: Option<nat>)
    requires v.Sane() && v.accepted && !v.settled && (slot.Some? ==> slot.value < |bank.errors|)
    ensures Follows(bank, Ending(bank, v.dispatched, slot), v, v.(settled := true, slot := slot), v.Bank())
  {
    hide Add, Subtract;
  }

  lemma DispatchFollows(bank: Bank, v: Ticket)
    requires v.Sane() && v.accepted && !v.dispatched
    ensures Follows(bank, bank.(dispatched := Add(bank.dispatched)), v, v.(dispatched := true, dispatchedLate := v.settled), v.Bank())
  {
    hide Add;
  }

  /** A ticket that counts the same before and after moves no counter. */
  predicate CountsAlike(v: Ticket, w: Ticket) {
    && (Is(v, Gauged) <==> Is(w, Gauged)) && v.Ended() == w.Ended() && (v.Ended() ==> v.slot == w.slot)
    && w.operation == v.operation && (v.Bank() == w.Bank() || !(Is(v, Gauged) || v.Ended()))
  }

  lemma AlikeFollows(bank: Bank, v: Ticket, w: Ticket, b: nat)
    requires CountsAlike(v, w)
    ensures Follows(bank, bank, v, w, b)
  {
  }

  lemma ElsewhereFollows(bank: Bank, v: Ticket, w: Ticket, b: nat)
    requires w.operation == v.operation && b != v.Bank() && b != w.Bank()
    ensures Follows(bank, bank, v, w, b)
  {
  }

  lemma SameCount(tickets: seq<Ticket>, i: nat, w: Ticket, operation: nat, bank: Option<nat>, what: What)
    requires i < |tickets| && w.operation == tickets[i].operation != operation
    ensures Count(tickets[i := w], operation, bank, what) == Count(tickets, operation, bank, what)
  {
    CountUpdate(tickets, i, w, operation, bank, what);
  }

  lemma BankUntouched(bank: Bank, tickets: seq<Ticket>, updated: seq<Ticket>, operation: nat, b: nat, rejections: seq<nat>)
    requires BankTold(bank, tickets, operation, b, rejections)
    requires forall what :: Count(updated, operation, Some(b), what) == Count(tickets, operation, Some(b), what)
    ensures BankTold(bank, updated, operation, b, rejections)
  {
    hide Count;
    forall k | 0 <= k < SLOTS ensures SlotTold(bank.errors[k], updated, operation, b, k, Here(rejections, b, k)) {
      assert SlotTold(bank.errors[k], tickets, operation, b, k, Here(rejections, b, k));
    }
  }

  lemma OthersUntouched(book: Book, tickets: seq<Ticket>, i: nat, w: Ticket, operation: nat, calls: nat, rejections: seq<nat>)
    requires i < |tickets| && w.operation == tickets[i].operation != operation
    requires Told(book, tickets, operation, calls, rejections)
    ensures Told(book, tickets[i := w], operation, calls, rejections)
  {
    hide Count, BankTold;
    SameCount(tickets, i, w, operation, None, Accepted);
    forall b | 0 <= b < |book.banks| ensures BankTold(book.banks[b], tickets[i := w], operation, b, rejections) {
      forall what ensures Count(tickets[i := w], operation, Some(b), what) == Count(tickets, operation, Some(b), what) {
        SameCount(tickets, i, w, operation, Some(b), what);
      }
      BankUntouched(book.banks[b], tickets, tickets[i := w], operation, b, rejections);
    }
  }

  lemma NothingTold(operation: nat, n: nat)
    ensures Told(Book(0, 0, 0, seq(n, _ => EMPTY)), [], operation, 0, seq(SLOTS, _ => 0))
  {
    SumOfZeros(SLOTS);
  }

  lemma AttemptTells(book: Book, tickets: seq<Ticket>, operation: nat, calls: nat, rejections: seq<nat>)
    requires Told(book, tickets, operation, calls, rejections)
    ensures Told(book.(attempted := Add(book.attempted)), tickets, operation, calls + 1, rejections)
  {
    hide Count, BankTold;
    Shifts(Count(tickets, operation, None, Accepted) + Sum(rejections) + calls, false, true);
  }

  function WithRejection(book: Book, slot: nat): Book
    requires book.banks != [] && slot < |book.banks[0].errors|
  {
    var own := book.banks[0];
    book.(rejected := Add(book.rejected), banks := book.banks[0 := own.(errors := own.errors[slot := Add(own.errors[slot])])])
  }

  lemma RejectionTold(own: Bank, tickets: seq<Ticket>, operation: nat, rejections: seq<nat>, slot: nat)
    requires BankTold(own, tickets, operation, 0, rejections) && slot < SLOTS
    ensures BankTold(own.(errors := own.errors[slot := Add(own.errors[slot])]), tickets, operation, 0,
                     rejections[slot := rejections[slot] + 1])
  {
    hide Count;
    var errors, more := own.errors[slot := Add(own.errors[slot])], rejections[slot := rejections[slot] + 1];
    forall k | 0 <= k < SLOTS ensures SlotTold(errors[k], tickets, operation, 0, k, more[k]) {
      assert SlotTold(own.errors[k], tickets, operation, 0, k, Here(rejections, 0, k));
      Shifts(Count(tickets, operation, Some(0), FailedWith(k)) + rejections[k], false, true);
    }
  }

  lemma OtherBank(bank: Bank, tickets: seq<Ticket>, operation: nat, b: nat, rejections: seq<nat>, more: seq<nat>)
    requires BankTold(bank, tickets, operation, b, rejections) && b != 0 && |more| == SLOTS
    ensures BankTold(bank, tickets, operation, b, more)
  {
    hide Count;
    forall k | 0 <= k < SLOTS ensures SlotTold(bank.errors[k], tickets, operation, b, k, Here(more, b, k)) {
      assert SlotTold(bank.errors[k], tickets, operation, b, k, Here(rejections, b, k));
    }
  }

  lemma RejectTells(book: Book, tickets: seq<Ticket>, operation: nat, calls: nat, rejections: seq<nat>, slot: nat)
    requires Told(book, tickets, operation, calls, rejections) && book.banks != [] && calls > 0 && slot < SLOTS
    ensures |book.banks[0].errors| == SLOTS
    ensures Told(WithRejection(book, slot), tickets, operation, calls - 1, rejections[slot := rejections[slot] + 1])
  {
    assert BankTold(book.banks[0], tickets, operation, 0, rejections);
    assert |book.banks[0].errors| == SLOTS;
    SumUpdate(rejections, slot, rejections[slot] + 1);
    Shifts(Sum(rejections), false, true);
    RejectionTold(book.banks[0], tickets, operation, rejections, slot);
    hide Count, Sum, BankTold;
    var next, more := WithRejection(book, slot), rejections[slot := rejections[slot] + 1];
    forall b | 0 <= b < |next.banks| ensures BankTold(next.banks[b], tickets, operation, b, more) {
      if b > 0 { OtherBank(book.banks[b], tickets, operation, b, rejections, more); }
    }
  }

  lemma MoveTells(book: Book, tickets: seq<Ticket>, i: nat, w: Ticket, calls: nat, rejections: seq<nat>, b: nat, after: Bank)
    requires i < |tickets| && w.operation == tickets[i].operation && w.accepted == tickets[i].accepted && b < |book.banks|
    requires Told(book, tickets, w.operation, calls, rejections) && Follows(book.banks[b], after, tickets[i], w, b)
    requires forall c :: 0 <= c < |book.banks| && c != b ==> Follows(book.banks[c], book.banks[c], tickets[i], w, c)
    ensures Told(book.(banks := book.banks[b := after]), tickets[i := w], w.operation, calls, rejections)
  {
    CountUpdate(tickets, i, w, w.operation, None, Accepted);
    hide Follows, BankTold, Count;
    var banks := book.banks[b := after];
    forall c | 0 <= c < |banks| ensures BankTold(banks[c], tickets[i := w], w.operation, c, rejections) {
      BankFollows(book.banks[c], banks[c], tickets, i, w, c, rejections);
    }
  }

  lemma AcceptTells(book: Book, tickets: seq<Ticket>, i: nat, w: Ticket, calls: nat, rejections: seq<nat>)
    requires i < |tickets| && !tickets[i].accepted && w.accepted && CountsAlike(tickets[i], w) && calls > 0
    requires Told(book, tickets, w.operation, calls, rejections)
    ensures Told(book.(accepted := Add(book.accepted)), tickets[i := w], w.operation, calls - 1, rejections)
  {
    CountUpdate(tickets, i, w, w.operation, None, Accepted);
    Shifts(Count(tickets, w.operation, None, Accepted), false, true);
    hide Follows, BankTold, Count, CountsAlike;
    forall b | 0 <= b < |book.banks| ensures BankTold(book.banks[b], tickets[i := w], w.operation, b, rejections) {
      AlikeFollows(book.banks[b], tickets[i], w, b);
      BankFollows(book.banks[b], book.banks[b], tickets, i, w, b, rejections);
    }
  }

  lemma NewTells(book: Book, tickets: seq<Ticket>, t: Ticket, operation: nat, calls: nat, rejections: seq<nat>)
    requires Told(book, tickets, operation, calls, rejections) && !t.accepted && t.Sane()
    ensures Told(book, tickets + [t], operation, calls, rejections)
  {
    hide Count, BankTold;
    CountAppend(tickets, t, operation, None, Accepted);
    forall b | 0 <= b < |book.banks| ensures BankTold(book.banks[b], tickets + [t], operation, b, rejections) {
      forall what ensures Count(tickets + [t], operation, Some(b), what) == Count(tickets, operation, Some(b), what) {
        CountAppend(tickets, t, operation, Some(b), what);
      }
      BankUntouched(book.banks[b], tickets, tickets + [t], operation, b, rejections);
    }
  }

  // ---- adding up ----

  function CountBanks(tickets: seq<Ticket>, operation: nat, n: nat, what: What): nat {
    if n == 0 then 0 else CountBanks(tickets, operation, n - 1, what) + Count(tickets, operation, Some(n - 1), what)
  }

  lemma {:induction false} BanksOfNobody(operation: nat, n: nat, what: What)
    ensures CountBanks([], operation, n, what) == 0
  {
    if n > 0 { BanksOfNobody(operation, n - 1, what); }
  }

  lemma {:induction false} BanksOfOneMore(tickets: seq<Ticket>, operation: nat, n: nat, what: What)
    requires tickets != []
    ensures var t := tickets[|tickets| - 1];
      CountBanks(tickets, operation, n, what)
      == CountBanks(tickets[..|tickets| - 1], operation, n, what) + One(t.operation == operation && Is(t, what) && t.Bank() < n)
  {
    if n > 0 { BanksOfOneMore(tickets, operation, n - 1, what); }
  }

  /** Every ticket is counted in exactly one bank. */
  lemma {:induction false} BanksAddUp(tickets: seq<Ticket>, operation: nat, n: nat, what: What)
    requires forall i :: 0 <= i < |tickets| && tickets[i].operation == operation ==> tickets[i].Bank() < n
    ensures CountBanks(tickets, operation, n, what) == Count(tickets, operation, None, what)
  {
    if tickets == [] {
      BanksOfNobody(operation, n, what);
    } else {
      BanksAddUp(tickets[..|tickets| - 1], operation, n, what);
      BanksOfOneMore(tickets, operation, n, what);
    }
  }

  lemma LedgerOfOne(t: Ticket, operation: nat, bank: Option<nat>)
    requires t.Sane()
    ensures One(At(t, operation, bank, Accepted)) + One(At(t, operation, bank, Twice))
      == One(At(t, operation, bank, Waiting)) + One(At(t, operation, bank, Gauged)) + One(At(t, operation, bank, Succeeded))
       + One(At(t, operation, bank, Failed)) + One(At(t, operation, bank, Lost))
    ensures One(At(t, operation, bank, Gauged)) == One(At(t, operation, bank, Live)) + One(At(t, operation, bank, Late))
  {
  }

  /** What the counters make of any set of tickets: an accepted ticket waits, weighs on the gauge or has ended, except that
      a ticket dispatched after its counted end is there twice and one armed after its end and never dispatched nowhere.
      The gauge shows the live tickets and those dispatched after their end. */
  lemma {:induction false} Ledger(tickets: seq<Ticket>, operation: nat, bank: Option<nat>)
    requires forall i :: 0 <= i < |tickets| ==> tickets[i].Sane()
    ensures Count(tickets, operation, bank, Accepted) + Count(tickets, operation, bank, Twice)
      == Count(tickets, operation, bank, Waiting) + Count(tickets, operation, bank, Gauged) + Count(tickets, operation, bank, Succeeded)
       + Count(tickets, operation, bank, Failed) + Count(tickets, operation, bank, Lost)
    ensures Count(tickets, operation, bank, Gauged) == Count(tickets, operation, bank, Live) + Count(tickets, operation, bank, Late)
  {
    if tickets != [] {
      Ledger(tickets[..|tickets| - 1], operation, bank);
      LedgerOfOne(tickets[|tickets| - 1], operation, bank);
      hide At;
    }
  }

  /** Failures by error slot. */
  function FailuresBySlot(tickets: seq<Ticket>, operation: nat, n: nat): (r: seq<nat>)
    ensures |r| == n && forall i :: 0 <= i < n ==> r[i] == Count(tickets, operation, None, FailedWith(i))
  {
    seq(n, i requires 0 <= i < n => Count(tickets, operation, None, FailedWith(i)))
  }

  lemma {:induction false} OneMoreFailure(tickets: seq<Ticket>, operation: nat, n: nat)
    requires tickets != []
    ensures var t := tickets[|tickets| - 1];
      Sum(FailuresBySlot(tickets, operation, n)) == Sum(FailuresBySlot(tickets[..|tickets| - 1], operation, n))
        + One(At(t, operation, None, Failed) && t.slot.value < n)
  {
    if n > 0 {
      OneMoreFailure(tickets, operation, n - 1);
      var front := tickets[..|tickets| - 1];
      assert FailuresBySlot(tickets, operation, n)[..n - 1] == FailuresBySlot(tickets, operation, n - 1);
      assert FailuresBySlot(front, operation, n)[..n - 1] == FailuresBySlot(front, operation, n - 1);
    }
  }

  /** Every failure is booked in exactly one slot. */
  lemma {:induction false} SlotsAddUp(tickets: seq<Ticket>, operation: nat)
    requires forall i :: 0 <= i < |tickets| ==> tickets[i].Sane()
    ensures Sum(FailuresBySlot(tickets, operation, SLOTS)) == Count(tickets, operation, None, Failed)
  {
    if tickets == [] {
      SumOfZeros(SLOTS);
      assert FailuresBySlot(tickets, operation, SLOTS) == seq(SLOTS, _ => 0);
    } else {
      SlotsAddUp(tickets[..|tickets| - 1], operation);
      OneMoreFailure(tickets, operation, SLOTS);
    }
  }

  // ---- the counters in place ----

  class Metrics {
    const workers: nat
    var books: seq<Book>
    /** Every ticket ever made, and per operation the calls between attempt and outcome and the rejections by slot. */
    ghost var tickets: seq<Ticket>
    ghost var calls: seq<nat>
    ghost var rejections: seq<seq<nat>>

    /** Searches and traces have a bank per worker. */
    function BanksOf(operation: nat): nat { if 5 <= operation < 8 then workers + 1 else 1 }

    ghost predicate Valid()
      reads this
    {
      && |books| == OPERATIONS && |calls| == OPERATIONS && |rejections| == OPERATIONS
      && (forall op :: 0 <= op < OPERATIONS ==> |books[op].banks| == BanksOf(op))
      && (forall op :: 0 <= op < OPERATIONS ==> Told(books[op], tickets, op, calls[op], rejections[op]))
      && (forall i :: 0 <= i < |tickets| ==>
            tickets[i].operation < OPERATIONS && tickets[i].Bank() < BanksOf(tickets[i].operation) && tickets[i].Sane())
    }

    constructor (workers: nat)
      ensures Valid() && this.workers == workers && tickets == [] && calls == seq(OPERATIONS, _ => 0) && rejections == seq(OPERATIONS, _ => seq(SLOTS, _ => 0))
    {
      this.workers := workers;
      books := seq(OPERATIONS, op => Book(0, 0, 0, seq(if 5 <= op < 8 then workers + 1 else 1, _ => EMPTY)));
      tickets, calls, rejections := [], seq(OPERATIONS, _ => 0), seq(OPERATIONS, _ => seq(SLOTS, _ => 0));
      new;
      hide Told;
      forall op | 0 <= op < OPERATIONS ensures Told(books[op], tickets, op, calls[op], rejections[op]) {
        NothingTold(op, BanksOf(op));
      }
    }

    method Attempt(operation: nat)
      requires Valid() && operation < OPERATIONS
      modifies this`books, this`calls
      ensures Valid() && calls == old(calls)[operation := old(calls[operation]) + 1]
    {
      hide Told;
      AttemptTells(books[operation], tickets, operation, calls[operation], rejections[operation]);
      books := books[operation := books[operation].(attempted := Add(books[operation].attempted))];
      calls := calls[operation := calls[operation] + 1];
    }

    /** A call ended in an error; any code outside the table shares the last slot. */
    method Reject(operation: nat, code: nat)
      requires Valid() && operation < OPERATIONS && calls[operation] > 0
      modifies this`books, this`calls, this`rejections
      ensures Valid()
      ensures calls == old(calls)[operation := old(calls[operation]) - 1]
      ensures var was, slot := old(rejections[operation]), Min(code, ERROR_CODES);
        && slot < |was| && rejections == old(rejections)[operation := was[slot := was[slot] + 1]]
    {
      assert Told(books[operation], tickets, operation, calls[operation], rejections[operation]);
      assert |rejections[operation]| == SLOTS;
      hide Told;
      var slot: nat := Min(code, ERROR_CODES);
      RejectTells(books[operation], tickets, operation, calls[operation], rejections[operation], slot);
      books := books[operation := WithRejection(books[operation], slot)];
      calls := calls[operation := calls[operation] - 1];
      rejections := rejections[operation := rejections[operation][slot := rejections[operation][slot] + 1]];
    }

    /** One ticket moves from v to w, and its bank with it. */
    method Move(ghost i: nat, ghost w: Ticket, operation: nat, b: nat, after: Bank)
      requires Valid() && i < |tickets| && operation < OPERATIONS && b < |books[operation].banks|
      requires operation == tickets[i].operation == w.operation && w.accepted == tickets[i].accepted && w.Sane()
      requires w.Bank() < BanksOf(operation)
      requires Follows(books[operation].banks[b], after, tickets[i], w, b)
      requires CountsAlike(tickets[i], w) || (tickets[i].Bank() == w.Bank() == b)
      modifies this`books, this`tickets
      ensures Valid() && tickets == old(tickets)[i := w]
    {
      forall c | 0 <= c < |books[operation].banks| && c != b
        ensures Follows(books[operation].banks[c], books[operation].banks[c], tickets[i], w, c)
      {
        if CountsAlike(tickets[i], w) {
          AlikeFollows(books[operation].banks[c], tickets[i], w, c);
        } else {
          ElsewhereFollows(books[operation].banks[c], tickets[i], w, c);
        }
      }
      hide Follows, Told, CountsAlike;
      ghost var was := tickets;
      MoveTells(books[operation], tickets, i, w, calls[operation], rejections[operation], b, after);
      forall op | 0 <= op < OPERATIONS && op != operation ensures Told(books[op], was[i := w], op, calls[op], rejections[op]) {
        OthersUntouched(books[op], was, i, w, op, calls[op], rejections[op]);
      }
      books := books[operation := books[operation].(banks := books[operation].banks[b := after])];
      tickets := tickets[i := w];
    }

    /** A ticket is accepted: its call has succeeded. */
    method Accept(ghost i: nat, operation: nat)
      requires Valid() && i < |tickets| && operation < OPERATIONS && operation == tickets[i].operation
      requires !tickets[i].accepted && calls[operation] > 0
      modifies this
      ensures Valid() && tickets == old(tickets)[i := old(tickets[i].(accepted := true, armedLate := tickets[i].settled))]
      ensures calls == old(calls)[operation := old(calls[operation]) - 1] && rejections == old(rejections)
    {
      hide Told;
      ghost var was, w := tickets, tickets[i].(accepted := true, armedLate := tickets[i].settled);
      AcceptTells(books[operation], tickets, i, w, calls[operation], rejections[operation]);
      hide CountsAlike;
      forall op | 0 <= op < OPERATIONS && op != operation ensures Told(books[op], was[i := w], op, calls[op], rejections[op]) {
        OthersUntouched(books[op], was, i, w, op, calls[op], rejections[op]);
      }
      books := books[operation := books[operation].(accepted := Add(books[operation].accepted))];
      tickets := tickets[i := w];
      calls := calls[operation := calls[operation] - 1];
    }

    method Issue(operation: nat) returns (t: TicketHandle)
      requires Valid() && operation < OPERATIONS
      modifies this`tickets
      ensures Valid() && fresh(t) && t.metrics == this && t.Valid()
      ensures tickets == old(tickets) + [NewTicket(operation)] && t.id == |old(tickets)|
    {
      ghost var was := tickets;
      t := new TicketHandle(this, operation, |tickets|);
      tickets := tickets + [NewTicket(operation)];
      hide Told;
      forall op | 0 <= op < OPERATIONS ensures Told(books[op], tickets, op, calls[op], rejections[op]) {
        NewTells(books[op], was, NewTicket(operation), op, calls[op], rejections[op]);
      }
    }
  }

  /** What an observer adds up over the banks of an operation, wrapping. */
  datatype ActorValues = ActorValues(dispatched: nat, succeeded: nat, failed: nat, errors: seq<nat>)

  function Include(v: ActorValues, bank: Bank): (r: ActorValues)
    requires |v.errors| == |bank.errors|
    ensures |r.errors| == |v.errors|
  {
    ActorValues(Wrap(v.dispatched + bank.dispatched), Wrap(v.succeeded + bank.succeeded), Wrap(v.failed + bank.failed),
                seq(|v.errors|, i requires 0 <= i < |v.errors| => Wrap(v.errors[i] + bank.errors[i])))
  }

  method IncludeBank(v: ActorValues, bank: Bank) returns (r: ActorValues)
    requires |v.errors| == |bank.errors|
    ensures r == Include(v, bank)
  {
    var errors: seq<nat> := [];
    for i := 0 to |v.errors|
      invariant |errors| == i && forall k :: 0 <= k < i ==> errors[k] == Wrap(v.errors[k] + bank.errors[k])
    {
      errors := errors + [Wrap(v.errors[i] + bank.errors[i])];
    }
    r := ActorValues(Wrap(v.dispatched + bank.dispatched), Wrap(v.succeeded + bank.succeeded), Wrap(v.failed + bank.failed), errors);
    assert r.errors == Include(v, bank).errors;
  }

  /** An error slot of the first n banks. */
  function SlotOf(tickets: seq<Ticket>, operation: nat, rejections: seq<nat>, n: nat, slot: nat): nat
    requires slot < |rejections|
  {
    (if n == 0 then 0 else rejections[slot]) + CountBanks(tickets, operation, n, FailedWith(slot))
  }

  /** What the first n banks show. */
  ghost function Totals(tickets: seq<Ticket>, operation: nat, rejections: seq<nat>, n: nat): (v: ActorValues)
    ensures |v.errors| == |rejections|
  {
    ActorValues(
      Wrap(CountBanks(tickets, operation, n, Gauged)), Wrap(CountBanks(tickets, operation, n, Succeeded)),
      Wrap(CountBanks(tickets, operation, n, Failed)),
      seq(|rejections|, i requires 0 <= i < |rejections| => Wrap(SlotOf(tickets, operation, rejections, n, i))))
  }

  lemma IncludeSlot(bank: Bank, tickets: seq<Ticket>, operation: nat, rejections: seq<nat>, b: nat, slot: nat)
    requires BankTold(bank, tickets, operation, b, rejections) && slot < SLOTS
    ensures Wrap(Wrap(SlotOf(tickets, operation, rejections, b, slot)) + bank.errors[slot])
      == Wrap(SlotOf(tickets, operation, rejections, b + 1, slot))
  {
    assert SlotTold(bank.errors[slot], tickets, operation, b, slot, Here(rejections, b, slot));
    hide Count, Wrap;
    Sums(SlotOf(tickets, operation, rejections, b, slot), Count(tickets, operation, Some(b), FailedWith(slot)) + Here(rejections, b, slot));
  }

  /** One more bank added to a running total. */
  lemma IncludeTells(bank: Bank, tickets: seq<Ticket>, operation: nat, rejections: seq<nat>, b: nat)
    requires BankTold(bank, tickets, operation, b, rejections)
    ensures Include(Totals(tickets, operation, rejections, b), bank) == Totals(tickets, operation, rejections, b + 1)
  {
    var v, w := Include(Totals(tickets, operation, rejections, b), bank), Totals(tickets, operation, rejections, b + 1);
    hide Count, Wrap, SlotOf;
    Sums(CountBanks(tickets, operation, b, Gauged), Count(tickets, operation, Some(b), Gauged));
    Sums(CountBanks(tickets, operation, b, Succeeded), Count(tickets, operation, Some(b), Succeeded));
    Sums(CountBanks(tickets, operation, b, Failed), Count(tickets, operation, Some(b), Failed));
    forall i | 0 <= i < SLOTS ensures v.errors[i] == w.errors[i] { IncludeSlot(bank, tickets, operation, rejections, b, i); }
    assert v.errors == w.errors;
  }

  ghost predicate EndsShown(v: ActorValues, tickets: seq<Ticket>, operation: nat) {
    && v.dispatched == Wrap(Count(tickets, operation, None, Gauged)) && v.succeeded == Wrap(Count(tickets, operation, None, Succeeded))
    && v.failed == Wrap(Count(tickets, operation, None, Failed))
  }

  /** The numbers of dispatched, succeeded and failed tickets, and per slot those of rejections and failures. */
  ghost predicate Shown(v: ActorValues, tickets: seq<Ticket>, operation: nat, rejections: seq<nat>) {
    && EndsShown(v, tickets, operation) && |v.errors| == |rejections| == SLOTS
    && forall i :: 0 <= i < SLOTS ==> v.errors[i] == Wrap(rejections[i] + Count(tickets, operation, None, FailedWith(i)))
  }

  lemma TotalsShow(tickets: seq<Ticket>, operation: nat, rejections: seq<nat>, n: nat)
    requires |rejections| == SLOTS && n > 0
    requires forall i :: 0 <= i < |tickets| && tickets[i].operation == operation ==> tickets[i].Bank() < n
    ensures Shown(Totals(tickets, operation, rejections, n), tickets, operation, rejections)
  {
    hide Count, CountBanks, Wrap;
    BanksAddUp(tickets, operation, n, Gauged);
    BanksAddUp(tickets, operation, n, Succeeded);
    BanksAddUp(tickets, operation, n, Failed);
    forall i | 0 <= i < SLOTS
      ensures SlotOf(tickets, operation, rejections, n, i) == rejections[i] + Count(tickets, operation, None, FailedWith(i))
    {
      BanksAddUp(tickets, operation, n, FailedWith(i));
    }
  }

  method ReadActorValues(m: Metrics, operation: nat) returns (v: ActorValues)
    requires m.Valid() && operation < OPERATIONS
    ensures Shown(v, m.tickets, operation, m.rejections[operation])
  {
    var banks := m.books[operation].banks;
    ghost var r := m.rejections[operation];
    assert Told(m.books[operation], m.tickets, operation, m.calls[operation], r);
    v := ActorValues(0, 0, 0, seq(SLOTS, _ => 0));
    var b := 0;
    hide Count, BankTold;
    assert v.errors == Totals(m.tickets, operation, r, 0).errors;
    while b < |banks|
      invariant b <= |banks| && v == Totals(m.tickets, operation, r, b)
    {
      assert BankTold(banks[b], m.tickets, operation, b, r);
      BankSlots(banks[b], m.tickets, operation, b, r);
      hide Wrap, Totals, Include;
      IncludeTells(banks[b], m.tickets, operation, r, b);
      v := IncludeBank(v, banks[b]);
      b := b + 1;
    }
    TotalsShow(m.tickets, operation, r, |banks|);
  }

  lemma BankSlots(bank: Bank, tickets: seq<Ticket>, operation: nat, b: nat, rejections: seq<nat>)
    requires BankTold(bank, tickets, operation, b, rejections)
    ensures |bank.errors| == |rejections| == SLOTS
  {
  }

  /** What was accepted waits, is dispatched, succeeded or failed, exactly if as many tickets are counted twice as not at
      all. */
  predicate Balances(accepted: nat, tickets: seq<Ticket>, operation: nat, v: ActorValues) {
    var waiting, twice, lost := Count(tickets, operation, None, Waiting), Count(tickets, operation, None, Twice), Count(tickets, operation, None, Lost);
    && Wrap(accepted + twice) == Wrap(waiting + v.dispatched + v.succeeded + v.failed + lost)
    && (accepted == Wrap(waiting + v.dispatched + v.succeeded + v.failed) <==> Wrap(twice) == Wrap(lost))
  }

  /** The books of an operation, modulo 2^64 and between any two events. Attempts are acceptances, rejections and calls under way;
      the error slots hold the rejections and the failures; and what was accepted is there, once, to the extent that
      Balances says. */
  method Balance(m: Metrics, operation: nat) returns (attempted: nat, accepted: nat, rejected: nat, v: ActorValues)
    requires m.Valid() && operation < OPERATIONS
    ensures attempted == Wrap(accepted + rejected + m.calls[operation])
    ensures Wrap(Sum(v.errors)) == Wrap(rejected + v.failed)
    ensures Balances(accepted, m.tickets, operation, v)
  {
    v := ReadActorValues(m, operation);
    var book := m.books[operation];
    attempted, accepted, rejected := book.attempted, book.accepted, book.rejected;
    hide Count, Sum, Told;
    assert forall i :: 0 <= i < |m.tickets| ==> m.tickets[i].Sane();
    BookBalances(book, m.tickets, operation, m.calls[operation], m.rejections[operation], v);
  }

  lemma BookBalances(book: Book, tickets: seq<Ticket>, operation: nat, calls: nat, rejections: seq<nat>, v: ActorValues)
    requires Told(book, tickets, operation, calls, rejections) && Shown(v, tickets, operation, rejections)
    requires forall i :: 0 <= i < |tickets| ==> tickets[i].Sane()
    ensures book.attempted == Wrap(book.accepted + book.rejected + calls)
    ensures Wrap(Sum(v.errors)) == Wrap(book.rejected + v.failed)
    ensures Balances(book.accepted, tickets, operation, v)
  {
    AttemptsBalance(Count(tickets, operation, None, Accepted), Sum(rejections), calls);
    SlotsBalance(tickets, operation, rejections, v);
    assert v.dispatched == Wrap(Count(tickets, operation, None, Gauged));
    hide BankTold, Count, Sum, Wrap, Shown, Balances;
    TicketsBalance(tickets, operation, v);
  }

  lemma TicketsBalance(tickets: seq<Ticket>, operation: nat, v: ActorValues)
    requires EndsShown(v, tickets, operation) && forall i :: 0 <= i < |tickets| ==> tickets[i].Sane()
    ensures Balances(Wrap(Count(tickets, operation, None, Accepted)), tickets, operation, v)
  {
    Ledger(tickets, operation, None);
    hide Count, Wrap;
    EndsBalance(Count(tickets, operation, None, Accepted), Count(tickets, operation, None, Twice), Count(tickets, operation, None, Waiting),
                Count(tickets, operation, None, Gauged), Count(tickets, operation, None, Succeeded), Count(tickets, operation, None, Failed),
                Count(tickets, operation, None, Lost));
  }

  lemma SlotsBalance(tickets: seq<Ticket>, operation: nat, rejections: seq<nat>, v: ActorValues)
    requires Shown(v, tickets, operation, rejections) && forall i :: 0 <= i < |tickets| ==> tickets[i].Sane()
    ensures Wrap(Sum(v.errors)) == Wrap(Wrap(Sum(rejections)) + v.failed)
  {
    SlotsAddUp(tickets, operation);
    hide Count, Sum, Wrap;
    ErrorsBalance(v.errors, rejections, FailuresBySlot(tickets, operation, SLOTS));
  }

  lemma AttemptsBalance(a: nat, r: nat, calls: nat)
    ensures Wrap(a + r + calls) == Wrap(Wrap(a) + Wrap(r) + calls)
  {
    hide Wrap;
    Absorbed(Wrap(a) + calls, r);
    Absorbed(r + calls, a);
    assert Wrap(a) + calls + Wrap(r) == Wrap(a) + Wrap(r) + calls && Wrap(a) + calls + r == r + calls + Wrap(a);
  }

  lemma ErrorsBalance(errors: seq<nat>, rejections: seq<nat>, failures: seq<nat>)
    requires |errors| == |rejections| == |failures|
    requires forall i :: 0 <= i < |errors| ==> errors[i] == Wrap(rejections[i] + failures[i])
    ensures Wrap(Sum(errors)) == Wrap(Wrap(Sum(rejections)) + Wrap(Sum(failures)))
  {
    hide Sum;
    forall i | 0 <= i < |errors| ensures Wrap(errors[i]) == Wrap(rejections[i] + failures[i]) {
      Absorbed(0, rejections[i] + failures[i]);
    }
    SumOfSums(errors, rejections, failures);
    Sums(Sum(rejections), Sum(failures));
  }

  lemma EndsBalance(a: nat, twice: nat, w: nat, d: nat, s: nat, f: nat, lost: nat)
    requires a + twice == w + d + s + f + lost
    ensures Wrap(Wrap(a) + twice) == Wrap(w + Wrap(d) + Wrap(s) + Wrap(f) + lost)
    ensures Wrap(a) == Wrap(w + Wrap(d) + Wrap(s) + Wrap(f)) <==> Wrap(twice) == Wrap(lost)
  {
    hide Wrap;
    FourSums(w, d, s, f);
    FourSums(w + lost, d, s, f);
    Absorbed(twice, a);
    TermsAgree(a, twice, w + d + s + f, lost);
    assert w + lost + Wrap(d) + Wrap(s) + Wrap(f) == w + Wrap(d) + Wrap(s) + Wrap(f) + lost;
    assert w + lost + d + s + f == w + d + s + f + lost && twice + a == a + twice && twice + Wrap(a) == Wrap(a) + twice;
  }

  /** The gauge of one bank shows its own live tickets, exactly if none of its tickets was dispatched after its end
      (or a multiple of 2^64 of them). */
  method ReadGauge(m: Metrics, operation: nat, b: nat) returns (dispatched: nat)
    requires m.Valid() && operation < OPERATIONS && b < |m.books[operation].banks|
    ensures var live, late := Count(m.tickets, operation, Some(b), Live), Count(m.tickets, operation, Some(b), Late);
      && dispatched == Wrap(live + late)
      && (dispatched == Wrap(live) <==> Wrap(late) == 0)
      && (late < WORD ==> (dispatched == Wrap(live) <==> late == 0))
  {
    dispatched := m.books[operation].banks[b].dispatched;
    assert BankTold(m.books[operation].banks[b], m.tickets, operation, b, m.rejections[operation]);
    Ledger(m.tickets, operation, Some(b));
    ghost var live, late := Count(m.tickets, operation, Some(b), Live), Count(m.tickets, operation, Some(b), Late);
    hide Count;
    Cancels(late, 0, live);
    Small(0);
    if late < WORD { Small(late); }
  }

  class TicketHandle {
    const metrics: Metrics
    const operation: nat
    ghost const id: nat
    var worker: Option<nat>
    var accepted: bool
    var dispatched: bool
    var settled: bool
    var started: bool
    /** The history the metrics' books are compared with. */
    ghost var slot: Option<nat>
    ghost var armedLate: bool
    ghost var dispatchedLate: bool

    ghost function View(): Ticket
      reads this
    {
      Ticket(operation, worker, accepted, dispatched, settled, started, slot, armedLate, dispatchedLate)
    }

    ghost predicate Valid()
      reads this, metrics
    {
      metrics.Valid() && id < |metrics.tickets| && metrics.tickets[id] == View()
    }

    constructor (metrics: Metrics, operation: nat, ghost id: nat)
      ensures this.metrics == metrics && this.operation == operation && this.id == id && View() == NewTicket(operation)
    {
      this.metrics, this.operation, this.id := metrics, operation, id;
      worker, accepted, dispatched, settled, started := None, false, false, false, false;
      slot, armedLate, dispatchedLate := None, false, false;
    }

    /** Searches and traces report to the worker that runs them, decided once and before dispatch. */
    method BindWorker(w: nat)
      requires Valid()
      modifies this`worker, metrics`books, metrics`tickets
      ensures Valid() && metrics.tickets == old(metrics.tickets)[id := View()]
      ensures View() == old(View()).(worker :=
        if old(worker).None? && !dispatched && !settled && 5 <= operation < 8 && w < metrics.workers then Some(w) else old(worker))
    {
      if worker.None? && !dispatched && !settled && 5 <= operation && operation < 8 && w < metrics.workers {
        var bank := metrics.books[operation].banks[0];
        ghost var after := View().(worker := Some(w));
        AlikeFollows(bank, View(), after, 0);
        hide Follows;
        metrics.Move(id, after, operation, 0, bank);
        worker := Some(w);
      }
    }

    /** Counts the acceptance, once; the ticket remembers if its end had gone uncounted by then. */
    method Arm()
      requires Valid() && (!accepted ==> metrics.calls[operation] > 0)
      modifies this`accepted, this`armedLate, metrics
      ensures Valid() && metrics.tickets == old(metrics.tickets)[id := View()]
      ensures View() == if old(accepted) then old(View()) else old(View()).(accepted := true, armedLate := settled)
      ensures metrics.calls == if old(accepted) then old(metrics.calls) else old(metrics.calls)[operation := old(metrics.calls[operation]) - 1]
      ensures metrics.rejections == old(metrics.rejections)
    {
      if !accepted {
        metrics.Accept(id, operation);
        accepted, armedLate := true, settled;
      }
    }

    /** Raises the gauge, once and only for an accepted ticket, even one that has ended. */
    method Dispatch()
      requires Valid()
      modifies this`dispatched, this`dispatchedLate, metrics`books, metrics`tickets
      ensures Valid() && metrics.tickets == old(metrics.tickets)[id := View()]
      ensures View() == if accepted && !old(dispatched) then old(View()).(dispatched := true, dispatchedLate := settled) else old(View())
    {
      if accepted && !dispatched {
        var b := if worker.Some? then worker.value + 1 else 0;
        var bank := metrics.books[operation].banks[b];
        DispatchFollows(bank, View());
        hide Follows;
        metrics.Move(id, View().(dispatched := true, dispatchedLate := settled), operation, b, bank.(dispatched := Add(bank.dispatched)));
        dispatched, dispatchedLate := true, settled;
      }
    }

    method Start()
      requires Valid()
      modifies this`dispatched, this`dispatchedLate, this`started, metrics`books, metrics`tickets
      ensures Valid() && metrics.tickets == old(metrics.tickets)[id := View()]
      ensures View() == if accepted && !settled then old(View()).(dispatched := true, started := true) else old(View())
    {
      if !accepted || started || settled { return; }
      Dispatch();
      var b := if worker.Some? then worker.value + 1 else 0;
      var bank := metrics.books[operation].banks[b];
      ghost var after := View().(started := true);
      AlikeFollows(bank, View(), after, b);
      hide Follows;
      metrics.Move(id, after, operation, b, bank);
      started := true;
    }

    /** The counters of an accepted ticket's end. */
    method CountEnd(code: Option<nat>)
      requires Valid() && accepted && !settled
      modifies this`settled, this`slot, metrics`books, metrics`tickets
      ensures Valid() && metrics.tickets == old(metrics.tickets)[id := View()]
      ensures View() == old(View()).(settled := true, slot := SlotFor(code))
    {
      var b := if worker.Some? then worker.value + 1 else 0;
      var bank := metrics.books[operation].banks[b];
      BankSlots(bank, metrics.tickets, operation, b, metrics.rejections[operation]);
      EndingFollows(bank, View(), SlotFor(code));
      hide Follows, Ending;
      metrics.Move(id, View().(settled := true, slot := SlotFor(code)), operation, b, Ending(bank, dispatched, SlotFor(code)));
      settled, slot := true, SlotFor(code);
    }

    /** The end of a ticket, counted at most once, and not at all for a ticket that is not accepted yet. */
    method Settle(code: Option<nat>)
      requires Valid()
      modifies this`settled, this`slot, metrics`books, metrics`tickets
      ensures Valid() && metrics.tickets == old(metrics.tickets)[id := View()]
      ensures View() == if old(settled) then old(View()) else old(View()).(settled := true, slot := SlotFor(code))
    {
      if settled { return; }
      if !accepted {
        var b := if worker.Some? then worker.value + 1 else 0;
        var bank := metrics.books[operation].banks[b];
        ghost var after := View().(settled := true, slot := SlotFor(code));
        AlikeFollows(bank, View(), after, b);
        hide Follows;
        metrics.Move(id, after, operation, b, bank);
        settled, slot := true, SlotFor(code);
        return;
      }
      CountEnd(code);
    }

    /** Dropping a ticket settles it as closed. */
    method Drop()
      requires Valid()
      modifies this`settled, this`slot, metrics`books, metrics`tickets
      ensures Valid() && metrics.tickets == old(metrics.tickets)[id := View()]
      ensures View() == if old(settled) then old(View()) else old(View()).(settled := true, slot := Some(CLOSED_CODE))
    {
      Settle(Some(CLOSED_CODE));
    }
  }

  function SlotFor(code: Option<nat>): (slot: Option<nat>)
    ensures slot.Some? ==> slot.value < SLOTS
  {
    if code.Some? then Some(Min(code.value, ERROR_CODES)) else None
  }

  lemma {:induction false} CountOne(t: Ticket, operation: nat, bank: Option<nat>, what: What)
    ensures Count([t], operation, bank, what) == One(At(t, operation, bank, what))
  {
    assert [t][..0] == [];
  }

  lemma AcceptedShown(m: Metrics, operation: nat)
    requires m.Valid() && operation < OPERATIONS
    ensures m.books[operation].accepted == Wrap(Count(m.tickets, operation, None, Accepted))
  {
  }

  /** The order of events matters: a ticket armed only after it was settled is accepted and never ends; one dispatched
      only then has ended and still weighs on the gauge. */
  method OutOfOrder(m: Metrics, armLate: bool) returns (v: ActorValues, accepted: nat)
    requires m.Valid() && m.tickets == [] && m.calls[0] == 0
    modifies m
    ensures m.Valid() && accepted == 1 && Count(m.tickets, 0, None, Waiting) == 0
    ensures armLate ==> v.dispatched == v.succeeded == v.failed == 0
    ensures !armLate ==> v.dispatched == v.succeeded == 1 && v.failed == 0
  {
    hide Count, Wrap, Told;
    m.Attempt(0);
    var t := m.Issue(0);
    if armLate {
      t.Settle(None);
      t.Arm();
    } else {
      t.Arm();
      t.Settle(None);
      t.Dispatch();
    }
    v := ReadActorValues(m, 0);
    accepted := m.books[0].accepted;
    assert m.tickets == [t.View()];
    CountOne(t.View(), 0, None, Accepted);
    CountOne(t.View(), 0, None, Waiting);
    CountOne(t.View(), 0, None, Gauged);
    CountOne(t.View(), 0, None, Succeeded);
    CountOne(t.View(), 0, None, Failed);
    AcceptedShown(m, 0);
    Small(0);
    Small(1);
  }
}
