/** queue.c: the queue as an object over its ring storage.  Each method is one
    critical section of the code and is proved to do what QueueModel says, so
    the ring refines a bounded deque. */
module Queues {
  import opened Options
  import opened QueueModel

  /** An index that has run at most one length past the end, wrapped. */
  function Wrap(i: nat, length: nat): nat {
    if i < length then i else if i < 2 * length then i - length else i - 2 * length
  }

  /** One slot back. */
  function StepBack(i: nat, length: nat): nat
    requires 0 < length
  {
    if i == 0 then length - 1 else i - 1
  }

  /** The n messages of a ring over slots s, from the head: they start one slot
      after the last one read. */
  function RingItems<T>(s: seq<T>, readFrom: nat, n: nat): (items: seq<T>)
    requires readFrom < |s| && n <= |s|
    ensures |items| == n
    ensures forall i :: 0 <= i < n ==> items[i] == s[Wrap(readFrom + 1 + i, |s|)]
  {
    seq(n, i requires 0 <= i < n => s[Wrap(readFrom + 1 + i, |s|)])
  }

  /** Writing at readFrom + 1 + n appends. */
  lemma RingPushBack<T>(s: seq<T>, r: nat, n: nat, x: T)
    requires r < |s| && n < |s|
    ensures RingItems(s[Wrap(r + 1 + n, |s|) := x], r, n + 1) == RingItems(s, r, n) + [x]
  {
  }

  /** Writing at readFrom and stepping it back prepends. */
  lemma RingPushFront<T>(s: seq<T>, r: nat, n: nat, x: T)
    requires r < |s| && n < |s|
    ensures RingItems(s[r := x], StepBack(r, |s|), n + 1) == [x] + RingItems(s, r, n)
  {
    var items := RingItems(s[r := x], StepBack(r, |s|), n + 1);
    assert forall i :: 0 <= i < n ==> items[i + 1] == RingItems(s, r, n)[i];
  }

  /** Stepping readFrom forward drops the head. */
  lemma RingPop<T>(s: seq<T>, r: nat, n: nat)
    requires r < |s| && 0 < n <= |s|
    ensures RingItems(s, Wrap(r + 1, |s|), n - 1) == RingItems(s, r, n)[1..]
  {
    var items := RingItems(s, r, n);
    var rest := RingItems(s, Wrap(r + 1, |s|), n - 1);
    assert forall i :: 0 <= i < n - 1 ==> rest[i] == items[i + 1];
  }

  /** In a ring of one slot an overwrite leaves the new message alone. */
  lemma RingOverwrite<T>(s: seq<T>, n: nat, x: T)
    requires |s| == 1 && n <= 1
    ensures RingItems(s[0 := x], 0, 1) == Push(RingItems(s, 0, n), x, Overwrite) == [x]
  {
  }

  /** The messages after x was sent: at the end, before all others, or, in a
      queue of length 1, in place of what was there. */
  ghost predicate Entered<T>(before: seq<T>, x: T, pos: Position, after: seq<T>) {
    match pos
    case SendToBack => after == before + [x]
    case SendToFront => after == [x] + before
    case Overwrite => after == [x]
  }

  /** The first task that waits, if any does, is woken and waits no more. */
  predicate FirstWoken(before: seq<TaskId>, after: seq<TaskId>, woken: seq<TaskId>) {
    before == woken + after && |woken| == if before == [] then 0 else 1
  }

  /** As many of the first that wait as the count says, or all. */
  predicate CountWoken(count: int, before: seq<TaskId>, after: seq<TaskId>, woken: seq<TaskId>) {
    before == woken + after && |woken| <= Counted(count) && (|woken| < Counted(count) ==> after == [])
  }

  class Ring<T(0)> {
    const length: nat
    const storage: array<T>
    var writeTo: nat                    // pcWriteTo, as a slot number
    var readFrom: nat                   // u.pcReadFrom: the last slot read
    var messagesWaiting: nat
    var rxLock: int
    var txLock: int
    var waitingToSend: seq<TaskId>
    var waitingToReceive: seq<TaskId>

    ghost predicate Valid()
      reads this`writeTo, this`readFrom, this`messagesWaiting
    {
      && storage.Length == length && 0 < length
      && readFrom < length && messagesWaiting <= length
      && writeTo == Wrap(readFrom + 1 + messagesWaiting, length)
    }

    ghost function Items(): seq<T>
      requires Valid()
      reads this`writeTo, this`readFrom, this`messagesWaiting, storage
    {
      RingItems(storage[..], readFrom, messagesWaiting)
    }

    ghost function State(): Queue<T>
      requires Valid()
      reads this, storage
    {
      Queue(Items(), length, rxLock, txLock, waitingToSend, waitingToReceive)
    }

    /** xQueueGenericCreate, that is xQueueGenericReset of a new queue. */
    constructor (uxQueueLength: nat)
      requires 0 < uxQueueLength
      ensures Valid() && fresh(storage)
      ensures State() == Queue([], uxQueueLength, UNLOCKED, UNLOCKED, [], [])
    {
      length := uxQueueLength;
      storage := new T[uxQueueLength];
      writeTo := 0;
      readFrom := uxQueueLength - 1;
      messagesWaiting := 0;
      rxLock, txLock := UNLOCKED, UNLOCKED;
      waitingToSend, waitingToReceive := [], [];
    }

    /** Copy to pcWriteTo and advance it. */
    method CopyToBack(x: T)
      requires Valid()
      modifies this`writeTo, storage
      ensures storage[..] == old(storage[..])[old(writeTo) := x]
      ensures writeTo == Wrap(old(writeTo) + 1, length)
    {
      storage[writeTo] := x;
      writeTo := writeTo + 1;
      if writeTo >= length {
        writeTo := 0;
      }
    }

    /** Copy to u.pcReadFrom and move it back. */
    method CopyToFront(x: T)
      requires Valid()
      modifies this`readFrom, storage
      ensures storage[..] == old(storage[..])[old(readFrom) := x]
      ensures readFrom == StepBack(old(readFrom), length)
    {
      storage[readFrom] := x;
      if readFrom == 0 {
        readFrom := length - 1;
      } else {
        readFrom := readFrom - 1;
      }
    }

    /** prvCopyDataToQueue. */
    method CopyDataToQueue(x: T, pos: Position)
      requires Valid() && Accepts(State(), pos) && (pos == Overwrite ==> length == 1)
      modifies this`writeTo, this`readFrom, this`messagesWaiting, storage
      ensures Valid() && Items() == Push(old(Items()), x, pos)
      ensures Entered(old(Items()), x, pos, Items())
    {
      var messages := messagesWaiting;
      if pos == SendToBack {
        RingPushBack(storage[..], readFrom, messages, x);
        CopyToBack(x);
      } else {
        if pos == Overwrite {
          RingOverwrite(storage[..], messages, x);
        } else {
          RingPushFront(storage[..], readFrom, messages, x);
        }
        CopyToFront(x);
        if pos == Overwrite {
          if messages > 0 {
            messages := messages - 1;
          }
        }
      }
      messagesWaiting := messages + 1;
    }

    /** prvCopyDataFromQueue: the read pointer advances, then the slot is read. */
    method CopyDataFromQueue() returns (x: T)
      requires Valid() && messagesWaiting > 0
      modifies this`readFrom
      ensures readFrom == Wrap(old(readFrom) + 1, length) && x == old(Items())[0]
    {
      readFrom := readFrom + 1;
      if readFrom >= length {
        readFrom := 0;
      }
      x := storage[readFrom];
    }

    /** Copy out the head message and count it out. */
    method Take() returns (x: T)
      requires Valid() && messagesWaiting > 0
      modifies this`readFrom, this`messagesWaiting
      ensures Valid() && Items() == old(Items())[1..] && x == old(Items())[0]
    {
      RingPop(storage[..], readFrom, messagesWaiting);
      x := CopyDataFromQueue();
      messagesWaiting := messagesWaiting - 1;
    }

    method WakeReceiver() returns (woken: seq<TaskId>)
      requires Valid()
      modifies this`waitingToReceive
      ensures woken == Head(old(waitingToReceive)) && waitingToReceive == Tail(old(waitingToReceive))
      ensures FirstWoken(old(waitingToReceive), waitingToReceive, woken)
    {
      woken := [];
      if waitingToReceive != [] {
        woken, waitingToReceive := waitingToReceive[..1], waitingToReceive[1..];
      }
    }

    method WakeSender() returns (woken: seq<TaskId>)
      requires Valid()
      modifies this`waitingToSend
      ensures woken == Head(old(waitingToSend)) && waitingToSend == Tail(old(waitingToSend))
      ensures FirstWoken(old(waitingToSend), waitingToSend, woken)
    {
      woken := [];
      if waitingToSend != [] {
        woken, waitingToSend := waitingToSend[..1], waitingToSend[1..];
      }
    }

    /** The critical section of xQueueGenericSend. */
    method SendSection(x: T, pos: Position) returns (ok: bool, woken: seq<TaskId>)
      requires Valid() && (pos == Overwrite ==> length == 1)
      modifies this, storage
      ensures Valid() && Outcome(State(), ok, None, woken) == TrySend(old(State()), x, pos)
      ensures ok <==> |old(Items())| < length || pos == Overwrite
      ensures ok ==>
                && Entered(old(Items()), x, pos, Items())
                && FirstWoken(old(waitingToReceive), waitingToReceive, woken)
      ensures !ok ==> State() == old(State()) && woken == []
      ensures waitingToSend == old(waitingToSend) && rxLock == old(rxLock) && txLock == old(txLock)
    {
      woken := [];
      ok := messagesWaiting < length || pos == Overwrite;
      if ok {
        CopyDataToQueue(x, pos);
        woken := WakeReceiver();
      }
    }

    /** The critical section of xQueueReceive. */
    method ReceiveSection() returns (item: Option<T>, woken: seq<TaskId>)
      requires Valid()
      modifies this
      ensures Valid() && Outcome(State(), item.Some?, item, woken) == TryReceive(old(State()))
      ensures item == if old(Items()) == [] then None else Some(old(Items())[0])
      ensures item.Some? ==> Items() == old(Items())[1..] && FirstWoken(old(waitingToSend), waitingToSend, woken)
      ensures item.None? ==> State() == old(State()) && woken == []
      ensures waitingToReceive == old(waitingToReceive) && rxLock == old(rxLock) && txLock == old(txLock)
    {
      item, woken := None, [];
      if messagesWaiting > 0 {
        var x := Take();
        item := Some(x);
        woken := WakeSender();
      }
    }

    /** The critical section of xQueuePeek: the read pointer is put back. */
    method PeekSection() returns (item: Option<T>, woken: seq<TaskId>)
      requires Valid()
      modifies this
      ensures Valid() && Outcome(State(), item.Some?, item, woken) == TryPeek(old(State()))
      ensures item == if old(Items()) == [] then None else Some(old(Items())[0])
      ensures item.Some? ==> FirstWoken(old(waitingToReceive), waitingToReceive, woken)
      ensures item.None? ==> State() == old(State()) && woken == []
      ensures Items() == old(Items()) && waitingToSend == old(waitingToSend)
      ensures rxLock == old(rxLock) && txLock == old(txLock)
    {
      item, woken := None, [];
      if messagesWaiting > 0 {
        var original := readFrom;
        var x := CopyDataFromQueue();
        readFrom := original;
        item := Some(x);
        woken := WakeReceiver();
      }
    }

    /** xQueueGenericSendFromISR. */
    method SendFromISR(x: T, pos: Position) returns (ok: bool, woken: seq<TaskId>)
      requires Valid() && (pos == Overwrite ==> length == 1)
      modifies this, storage
      ensures Valid() && Outcome(State(), ok, None, woken) == SendFromIsr(old(State()), x, pos)
      ensures ok <==> |old(Items())| < length || pos == Overwrite
      ensures ok ==> Entered(old(Items()), x, pos, Items())
      ensures ok && old(txLock) == UNLOCKED ==>
                FirstWoken(old(waitingToReceive), waitingToReceive, woken) && txLock == UNLOCKED
      ensures ok && old(txLock) != UNLOCKED ==>
                && woken == [] && waitingToReceive == old(waitingToReceive)
                && txLock == if old(txLock) == 127 then -128 else old(txLock) + 1
      ensures !ok ==> State() == old(State()) && woken == []
      ensures waitingToSend == old(waitingToSend) && rxLock == old(rxLock)
    {
      woken := [];
      ok := messagesWaiting < length || pos == Overwrite;
      if ok {
        var lock := txLock;
        CopyDataToQueue(x, pos);
        if lock == UNLOCKED {
          woken := WakeReceiver();
        } else {
          txLock := Increment(lock);
        }
      }
    }

    /** xQueueReceiveFromISR. */
    method ReceiveFromISR() returns (item: Option<T>, woken: seq<TaskId>)
      requires Valid()
      modifies this
      ensures Valid() && Outcome(State(), item.Some?, item, woken) == ReceiveFromIsr(old(State()))
      ensures item == if old(Items()) == [] then None else Some(old(Items())[0])
      ensures item.Some? ==> Items() == old(Items())[1..]
      ensures item.Some? && old(rxLock) == UNLOCKED ==>
                FirstWoken(old(waitingToSend), waitingToSend, woken) && rxLock == UNLOCKED
      ensures item.Some? && old(rxLock) != UNLOCKED ==>
                && woken == [] && waitingToSend == old(waitingToSend)
                && rxLock == if old(rxLock) == 127 then -128 else old(rxLock) + 1
      ensures item.None? ==> State() == old(State()) && woken == []
      ensures waitingToReceive == old(waitingToReceive) && txLock == old(txLock)
    {
      item, woken := None, [];
      if messagesWaiting > 0 {
        var lock := rxLock;
        var x := Take();
        item := Some(x);
        if lock == UNLOCKED {
          woken := WakeSender();
        } else {
          rxLock := Increment(lock);
        }
      }
    }

    /** prvLockQueue. */
    method LockQueue()
      requires Valid()
      modifies this`rxLock, this`txLock
      ensures Valid() && State() == Lock(old(State()))
      ensures rxLock == (if old(rxLock) == -1 then 0 else old(rxLock))
      ensures txLock == (if old(txLock) == -1 then 0 else old(txLock))
    {
      if rxLock == UNLOCKED {
        rxLock := 0;
      }
      if txLock == UNLOCKED {
        txLock := 0;
      }
    }

    /** The first critical section of prvUnlockQueue. */
    method UnlockTxSection() returns (woken: seq<TaskId>)
      requires Valid()
      modifies this`txLock, this`waitingToReceive
      ensures Valid() && Outcome(State(), true, None, woken) == UnlockTx(old(State()))
      ensures CountWoken(old(txLock), old(waitingToReceive), waitingToReceive, woken) && txLock == UNLOCKED
    {
      var lock := txLock;
      woken := [];
      while lock > 0
        invariant woken + waitingToReceive == old(waitingToReceive)
        invariant txLock == old(txLock) && lock == txLock - |woken| && (|woken| > 0 ==> lock >= 0)
        decreases lock
      {
        if waitingToReceive == [] {
          break;
        }
        var w := WakeReceiver();
        woken := woken + w;
        lock := lock - 1;
      }
      assert |woken| == WakeCount(txLock, |old(waitingToReceive)|);
      assert old(waitingToReceive)[..|woken|] == woken && old(waitingToReceive)[|woken|..] == waitingToReceive;
      txLock := UNLOCKED;
    }

    /** The second critical section of prvUnlockQueue. */
    method UnlockRxSection() returns (woken: seq<TaskId>)
      requires Valid()
      modifies this`rxLock, this`waitingToSend
      ensures Valid() && Outcome(State(), true, None, woken) == UnlockRx(old(State()))
      ensures CountWoken(old(rxLock), old(waitingToSend), waitingToSend, woken) && rxLock == UNLOCKED
    {
      var lock := rxLock;
      woken := [];
      while lock > 0
        invariant woken + waitingToSend == old(waitingToSend)
        invariant rxLock == old(rxLock) && lock == rxLock - |woken| && (|woken| > 0 ==> lock >= 0)
        decreases lock
      {
        if waitingToSend == [] {
          break;
        }
        var w := WakeSender();
        woken := woken + w;
        lock := lock - 1;
      }
      assert |woken| == WakeCount(rxLock, |old(waitingToSend)|);
      assert old(waitingToSend)[..|woken|] == woken && old(waitingToSend)[|woken|..] == waitingToSend;
      rxLock := UNLOCKED;
    }
  }
}
