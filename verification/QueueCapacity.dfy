/** Bounded command queues, their part of a shared budget, and the removal of expired commands: each operation on its own.
    What happens to the budget between the sections of several operations is in SharedLanes. */
module QueueCapacity {
  import opened Wrappers

  datatype Queued<T> = Queued(value: T, bytes: nat)

  datatype Error = QueueClosed | QueueFull | ForcedShared

  function BytesIn<T>(items: seq<Queued<T>>): nat {
    if items == [] then 0 else BytesIn(items[..|items| - 1]) + items[|items| - 1].bytes
  }

  lemma {:induction false} BytesSplit<T>(a: seq<Queued<T>>, b: seq<Queued<T>>)
    ensures BytesIn(a + b) == BytesIn(a) + BytesIn(b)
  {
    if b == [] {
      assert a + b == a;
    } else {
      BytesSplit(a, b[..|b| - 1]);
      assert (a + b)[..|a + b| - 1] == a + b[..|b| - 1];
    }
  }

  class QueueBudget {
    const maxCommands: nat
    const maxBytes: nat
    var commands: nat
    var bytes: nat

    constructor (maxCommands: nat, maxBytes: nat)
      ensures this.maxCommands == maxCommands && this.maxBytes == maxBytes && commands == 0 && bytes == 0
    {
      this.maxCommands, this.maxBytes := maxCommands, maxBytes;
      commands, bytes := 0, 0;
    }

    predicate Room(more: nat)
      reads this
    {
      commands < maxCommands && bytes + more <= maxBytes
    }
  }

  class BoundedQueue<T(==)> {
    const maxCommands: nat
    const maxBytes: nat
    const shared: QueueBudget?
    var items: seq<Queued<T>>
    var bytes: nat
    var closed: bool
    /** Mirrors of the state that observers read without the lock. */
    var queuedCommands: nat
    var queuedBytes: nat

    ghost predicate Valid()
      reads this
    {
      bytes == BytesIn(items) && queuedCommands == |items| && queuedBytes == bytes
    }

    /** The shared budget counts what this queue holds, and `other` commands and bytes of other queues. */
    ghost predicate Counted(otherCommands: nat, otherBytes: nat)
      reads this, shared
    {
      shared != null ==> shared.commands == |items| + otherCommands && shared.bytes == bytes + otherBytes
    }

    constructor (maxCommands: nat, maxBytes: nat, shared: QueueBudget?)
      ensures Valid() && items == [] && !closed && this.shared == shared
      ensures this.maxCommands == maxCommands && this.maxBytes == maxBytes
    {
      this.maxCommands, this.maxBytes, this.shared := maxCommands, maxBytes, shared;
      items, bytes, closed, queuedCommands, queuedBytes := [], 0, false, 0, 0;
    }

    /** Why a push would be refused, if it would. */
    function Refusal(size: nat): Option<Error>
      reads this, shared
    {
      if closed then Some(QueueClosed)
      else if |items| >= maxCommands || bytes + size > maxBytes then Some(QueueFull)
      else if shared != null && !shared.Room(size) then Some(QueueFull)
      else None
    }

    method TryPush(value: T, size: nat, admitted: bool, ghost otherCommands: nat, ghost otherBytes: nat) returns (ok: bool, error: Option<Error>)
      requires Valid() && Counted(otherCommands, otherBytes)
      modifies this, shared
      ensures Valid() && Counted(otherCommands, otherBytes)
      ensures error == (if admitted then old(Refusal(size)) else None) && (ok <==> admitted && error.None?)
      ensures error == Some(QueueClosed) <==> admitted && old(closed)
      ensures (error == Some(QueueFull)) == (admitted && !old(closed)
        && (|old(items)| >= maxCommands || old(bytes) + size > maxBytes
            || (shared != null && (old(shared.commands) >= shared.maxCommands || old(shared.bytes) + size > shared.maxBytes))))
      ensures items == if ok then old(items) + [Queued(value, size)] else old(items)
      ensures closed == old(closed) && bytes == old(bytes) + (if ok then size else 0)
      ensures ok ==> |items| <= maxCommands && bytes <= maxBytes && (shared != null ==> shared.commands <= shared.maxCommands && shared.bytes <= shared.maxBytes)
    {
      if !admitted { return false, None; }
      error := Refusal(size);
      if error.Some? { return false, error; }
      if shared != null {
        shared.commands, shared.bytes := shared.commands + 1, shared.bytes + size;
      }
      BytesSplit(items, [Queued(value, size)]);
      bytes := bytes + size;
      items := items + [Queued(value, size)];
      queuedCommands, queuedBytes := queuedCommands + 1, queuedBytes + size;
      ok := true;
    }

    /** A close command must get in; only a queue without a shared budget may be forced. */
    method PushForce(value: T, size: nat) returns (error: Option<Error>)
      requires Valid()
      modifies this
      ensures Valid() && closed == old(closed)
      ensures error == if shared != null then Some(ForcedShared) else if old(closed) then Some(QueueClosed) else None
      ensures items == if error.None? then old(items) + [Queued(value, size)] else old(items)
    {
      if shared != null { return Some(ForcedShared); }
      if closed { return Some(QueueClosed); }
      BytesSplit(items, [Queued(value, size)]);
      bytes := bytes + size;
      items := items + [Queued(value, size)];
      queuedCommands, queuedBytes := queuedCommands + 1, queuedBytes + size;
      error := None;
    }

    method ReleaseShared(commands: nat, size: nat)
      requires shared != null ==> commands <= shared.commands && size <= shared.bytes
      modifies shared
      ensures shared != null ==> shared.commands == old(shared.commands) - commands && shared.bytes == old(shared.bytes) - size
    {
      if shared != null {
        shared.commands, shared.bytes := shared.commands - commands, shared.bytes - size;
      }
    }

    /** First in, first out. */
    method TryPop(ghost otherCommands: nat, ghost otherBytes: nat) returns (item: Option<Queued<T>>)
      requires Valid() && Counted(otherCommands, otherBytes)
      modifies this, shared
      ensures Valid() && Counted(otherCommands, otherBytes) && closed == old(closed)
      ensures if old(items) == [] then item == None && items == [] else item == Some(old(items[0])) && items == old(items)[1..]
      ensures bytes + (if item.Some? then item.value.bytes else 0) == old(bytes)
    {
      if items == [] { return None; }
      var first := items[0];
      BytesSplit([first], items[1..]);
      assert [first] + items[1..] == items;
      assert [first][..0] == [];
      items := items[1..];
      bytes := bytes - first.bytes;
      queuedCommands, queuedBytes := queuedCommands - 1, queuedBytes - first.bytes;
      ReleaseShared(1, first.bytes);
      item := Some(first);
    }

    /** Empties the queue; closing also refuses every later push. */
    method Drain(close: bool, ghost otherCommands: nat, ghost otherBytes: nat) returns (drained: seq<Queued<T>>)
      requires Valid() && Counted(otherCommands, otherBytes)
      modifies this, shared
      ensures Valid() && Counted(otherCommands, otherBytes)
      ensures drained == old(items) && items == [] && closed == (close || old(closed))
    {
      closed := closed || close;
      drained := items;
      ReleaseShared(|items|, bytes);
      items, bytes, queuedCommands, queuedBytes := [], 0, 0, 0;
    }

    /** Takes the expired commands out by turning the queue over once. */
    method TakeExpired(remaining: Queued<T> -> nat, ghost otherCommands: nat, ghost otherBytes: nat)
      returns (expired: seq<Queued<T>>, minimum: Option<nat>)
      requires Valid() && Counted(otherCommands, otherBytes)
      modifies this, shared
      ensures Valid() && Counted(otherCommands, otherBytes) && closed == old(closed)
      ensures items == Alive(remaining, old(items)) && expired == Expired(remaining, old(items))
      ensures minimum.None? <==> items == []
      ensures minimum.Some? ==> (exists i :: 0 <= i < |items| && remaining(items[i]) == minimum.value)
                                && forall i :: 0 <= i < |items| ==> minimum.value <= remaining(items[i])
    {
      hide Alive, Expired, Least, BytesIn, Turned;
      ghost var start := items;
      expired, minimum := [], None;
      var expiredBytes: nat := 0;
      var count := |items|;
      var k := 0;
      NothingTurned(remaining, start);
      while k < count
        invariant k <= count == |start|
        invariant Turned(remaining, start, k, items, expired, expiredBytes, minimum)
        modifies this`items
      {
        TurnedNonempty(remaining, start, k, items, expired, expiredBytes, minimum);
        var first := items[0];
        if remaining(first) == 0 {
          TurnExpired(remaining, start, k, items, expired, expiredBytes, minimum);
          expiredBytes := expiredBytes + first.bytes;
          expired := expired + [first];
          items := items[1..];
        } else {
          TurnAlive(remaining, start, k, items, expired, expiredBytes, minimum);
          minimum := Some(if minimum.None? then remaining(first) else Min(minimum.value, remaining(first)));
          items := items[1..] + [first];
        }
        k := k + 1;
      }
      AllTurned(remaining, start, items, expired, expiredBytes, minimum);
      bytes := bytes - expiredBytes;
      queuedCommands, queuedBytes := queuedCommands - |expired|, queuedBytes - expiredBytes;
      ReleaseShared(|expired|, expiredBytes);
    }
  }

  /** After k turns the untouched rest comes first, then what survived of the turned part. */
  ghost predicate Turned<T>(remaining: Queued<T> -> nat, start: seq<Queued<T>>, k: nat, items: seq<Queued<T>>,
                            expired: seq<Queued<T>>, expiredBytes: nat, minimum: Option<nat>)
    requires k <= |start|
  {
    && items == start[k..] + Alive(remaining, start[..k])
    && expired == Expired(remaining, start[..k]) && expiredBytes == BytesIn(expired)
    && Least(remaining, Alive(remaining, start[..k]), minimum)
  }

  lemma NothingTurned<T>(remaining: Queued<T> -> nat, start: seq<Queued<T>>)
    ensures Turned(remaining, start, 0, start, [], 0, None)
  {
    assert start[0..] + [] == start;
  }

  lemma TurnedHead<T>(remaining: Queued<T> -> nat, start: seq<Queued<T>>, k: nat, items: seq<Queued<T>>)
    requires k < |start| && items == start[k..] + Alive(remaining, start[..k])
    ensures items != [] && items[0] == start[k] && items[1..] == start[k + 1..] + Alive(remaining, start[..k])
    ensures start[..k + 1][..k] == start[..k] && start[..k + 1][k] == start[k]
  {
  }

  lemma TurnedNonempty<T>(remaining: Queued<T> -> nat, start: seq<Queued<T>>, k: nat, items: seq<Queued<T>>,
                          expired: seq<Queued<T>>, expiredBytes: nat, minimum: Option<nat>)
    requires k < |start| && Turned(remaining, start, k, items, expired, expiredBytes, minimum)
    ensures items != [] && items[0] == start[k]
  {
  }

  lemma TurnExpired<T>(remaining: Queued<T> -> nat, start: seq<Queued<T>>, k: nat, items: seq<Queued<T>>,
                       expired: seq<Queued<T>>, expiredBytes: nat, minimum: Option<nat>)
    requires k < |start| && Turned(remaining, start, k, items, expired, expiredBytes, minimum) && remaining(start[k]) == 0
    ensures items != [] && items[0] == start[k]
    ensures Turned(remaining, start, k + 1, items[1..], expired + [start[k]], expiredBytes + start[k].bytes, minimum)
  {
    hide Least, BytesIn;
    TurnedHead(remaining, start, k, items);
    OneMore(expired, start[k]);
  }

  lemma TurnAlive<T>(remaining: Queued<T> -> nat, start: seq<Queued<T>>, k: nat, items: seq<Queued<T>>,
                     expired: seq<Queued<T>>, expiredBytes: nat, minimum: Option<nat>)
    requires k < |start| && Turned(remaining, start, k, items, expired, expiredBytes, minimum) && remaining(start[k]) != 0
    ensures items != [] && items[0] == start[k]
    ensures Turned(remaining, start, k + 1, items[1..] + [start[k]], expired, expiredBytes,
                   Some(if minimum.None? then remaining(start[k]) else Min(minimum.value, remaining(start[k]))))
  {
    hide Least, BytesIn;
    var alive := Alive(remaining, start[..k]);
    TurnedHead(remaining, start, k, items);
    LeastGrows(remaining, alive, minimum, start[k]);
    assert items[1..] + [start[k]] == start[k + 1..] + (alive + [start[k]]);
  }

  lemma AllTurned<T>(remaining: Queued<T> -> nat, start: seq<Queued<T>>, items: seq<Queued<T>>,
                     expired: seq<Queued<T>>, expiredBytes: nat, minimum: Option<nat>)
    requires Turned(remaining, start, |start|, items, expired, expiredBytes, minimum)
    ensures items == Alive(remaining, start) && expired == Expired(remaining, start)
    ensures |items| + |expired| == |start| && BytesIn(items) + expiredBytes == BytesIn(start)
    ensures minimum.None? <==> items == []
    ensures minimum.Some? ==> (exists i :: 0 <= i < |items| && remaining(items[i]) == minimum.value)
                              && forall i :: 0 <= i < |items| ==> minimum.value <= remaining(items[i])
  {
    assert start[..|start|] == start && items == Alive(remaining, start);
    AliveAndExpired(remaining, start);
  }

  /** The commands with time left, in their old order. */
  function Alive<T>(remaining: Queued<T> -> nat, items: seq<Queued<T>>): seq<Queued<T>> {
    if items == [] then []
    else
      var before, last := Alive(remaining, items[..|items| - 1]), items[|items| - 1];
      if remaining(last) == 0 then before else before + [last]
  }

  function Expired<T>(remaining: Queued<T> -> nat, items: seq<Queued<T>>): seq<Queued<T>> {
    if items == [] then []
    else
      var before, last := Expired(remaining, items[..|items| - 1]), items[|items| - 1];
      if remaining(last) == 0 then before + [last] else before
  }

  /** Expiry splits the queue: nothing is lost, invented or counted twice. */
  lemma {:induction false} AliveAndExpired<T>(remaining: Queued<T> -> nat, items: seq<Queued<T>>)
    ensures var a, e := Alive(remaining, items), Expired(remaining, items);
      |a| + |e| == |items| && BytesIn(a) + BytesIn(e) == BytesIn(items)
  {
    hide BytesIn;
    if items == [] {
      NoBytes<T>();
    } else {
      var front, last := items[..|items| - 1], items[|items| - 1];
      AliveAndExpired(remaining, front);
      assert items == front + [last];
      OneMore(front, last);
      OneMore(Alive(remaining, front), last);
      OneMore(Expired(remaining, front), last);
    }
  }

  /** The chosen items are those at these ascending positions. */
  ghost predicate PickedAt<T>(items: seq<T>, picked: seq<T>, at: seq<nat>) {
    && |picked| == |at| && (forall i, j :: 0 <= i < j < |at| ==> at[i] < at[j])
    && (forall i :: 0 <= i < |at| ==> at[i] < |items| && picked[i] == items[at[i]])
  }

  lemma PickedOneMore<T>(items: seq<T>, picked: seq<T>, at: seq<nat>, last: T)
    requires PickedAt(items, picked, at)
    ensures PickedAt(items + [last], picked, at) && PickedAt(items + [last], picked + [last], at + [|items|])
  {
  }

  lemma {:induction false} AliveOrExpired<T>(remaining: Queued<T> -> nat, items: seq<Queued<T>>)
    ensures multiset(Alive(remaining, items)) + multiset(Expired(remaining, items)) == multiset(items)
  {
    hide BytesIn;
    if items != [] {
      var front, last := items[..|items| - 1], items[|items| - 1];
      AliveOrExpired(remaining, front);
      assert items == front + [last];
      OneMore(front, last);
      OneMore(Alive(remaining, front), last);
      OneMore(Expired(remaining, front), last);
    }
  }

  /** Both sides keep the queue's order, and the time left decides the side. */
  lemma {:induction false} SidesKeepOrder<T>(remaining: Queued<T> -> nat, items: seq<Queued<T>>)
    returns (alive: seq<nat>, expired: seq<nat>)
    ensures PickedAt(items, Alive(remaining, items), alive) && PickedAt(items, Expired(remaining, items), expired)
    ensures forall i :: 0 <= i < |Alive(remaining, items)| ==> remaining(Alive(remaining, items)[i]) > 0
    ensures forall i :: 0 <= i < |Expired(remaining, items)| ==> remaining(Expired(remaining, items)[i]) == 0
  {
    alive, expired := [], [];
    if items != [] {
      hide PickedAt;
      var front, last := items[..|items| - 1], items[|items| - 1];
      alive, expired := SidesKeepOrder(remaining, front);
      assert items == front + [last];
      PickedOneMore(front, Alive(remaining, front), alive, last);
      PickedOneMore(front, Expired(remaining, front), expired, last);
      if remaining(last) == 0 { expired := expired + [|front|]; } else { alive := alive + [|front|]; }
    }
  }

  lemma NoBytes<T>()
    ensures BytesIn<T>([]) == 0
  {
  }

  lemma OneMore<T>(items: seq<Queued<T>>, last: Queued<T>)
    ensures BytesIn(items + [last]) == BytesIn(items) + last.bytes
    ensures multiset(items + [last]) == multiset(items) + multiset{last}
  {
    assert (items + [last])[..|items|] == items;
  }

  predicate Least<T>(remaining: Queued<T> -> nat, items: seq<Queued<T>>, minimum: Option<nat>) {
    && (minimum.None? <==> items == [])
    && (minimum.Some? ==> (exists i :: 0 <= i < |items| && remaining(items[i]) == minimum.value)
                          && forall i :: 0 <= i < |items| ==> minimum.value <= remaining(items[i]))
  }

  lemma LeastGrows<T>(remaining: Queued<T> -> nat, items: seq<Queued<T>>, minimum: Option<nat>, more: Queued<T>)
    requires Least(remaining, items, minimum)
    ensures Least(remaining, items + [more], Some(if minimum.None? then remaining(more) else Min(minimum.value, remaining(more))))
  {
    var longer := items + [more];
    assert longer[|items|] == more;
    if minimum.Some? {
      var i :| 0 <= i < |items| && remaining(items[i]) == minimum.value;
      assert longer[i] == items[i];
    }
  }
}
