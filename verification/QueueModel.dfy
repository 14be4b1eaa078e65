/** The atomic steps of queue.c on values: each function is what one critical
    section (or one interrupt) does to a queue. */
module QueueModel {
  import opened Options

  type TaskId = nat

  // queueUNLOCKED, and the largest value of the int8_t lock counts.
  const UNLOCKED: int := -1
  const LOCK_MAX: int := 127

  datatype Position = SendToBack | SendToFront | Overwrite

  /** A queue: its messages from the head, and the tasks blocked on it, most
      urgent first. */
  datatype Queue<T> = Queue(
    items: seq<T>,
    length: nat,
    rxLock: int,
    txLock: int,
    waitingToSend: seq<TaskId>,
    waitingToReceive: seq<TaskId>)

  /** What a step hands back beside the new queue. */
  datatype Outcome<T> = Outcome(queue: Queue<T>, ok: bool, item: Option<T>, woken: seq<TaskId>)

  function Push<T>(items: seq<T>, x: T, pos: Position): seq<T> {
    match pos
    case SendToBack => items + [x]
    case SendToFront => [x] + items
    case Overwrite => if items == [] then [x] else [x] + items[1..]
  }

  predicate Accepts<T>(q: Queue<T>, pos: Position) {
    |q.items| < q.length || pos == Overwrite
  }

  /** ( int8_t ) ( lock + 1 ) */
  function Increment(lock: int): int {
    if lock == LOCK_MAX then -128 else lock + 1
  }

  /** How many tasks a single event wakes. */
  function One(l: seq<TaskId>): nat {
    if l == [] then 0 else 1
  }

  function Head(l: seq<TaskId>): seq<TaskId> {
    l[..One(l)]
  }

  function Tail(l: seq<TaskId>): seq<TaskId> {
    l[One(l)..]
  }

  /** The critical section of xQueueGenericSend. */
  function TrySend<T>(q: Queue<T>, x: T, pos: Position): Outcome<T> {
    if Accepts(q, pos) then
      Outcome(q.(items := Push(q.items, x, pos), waitingToReceive := Tail(q.waitingToReceive)),
              true, None, Head(q.waitingToReceive))
    else Outcome(q, false, None, [])
  }

  /** The critical section of xQueueReceive and xQueueSemaphoreTake. */
  function TryReceive<T>(q: Queue<T>): Outcome<T> {
    if q.items != [] then
      Outcome(q.(items := q.items[1..], waitingToSend := Tail(q.waitingToSend)),
              true, Some(q.items[0]), Head(q.waitingToSend))
    else Outcome(q, false, None, [])
  }

  /** The critical section of xQueuePeek. */
  function TryPeek<T>(q: Queue<T>): Outcome<T> {
    if q.items != [] then
      Outcome(q.(waitingToReceive := Tail(q.waitingToReceive)), true, Some(q.items[0]), Head(q.waitingToReceive))
    else Outcome(q, false, None, [])
  }

  /** xQueueGenericSendFromISR and xQueueGiveFromISR: a locked queue's event
      lists are left alone and the lock count remembers the message. */
  function SendFromIsr<T>(q: Queue<T>, x: T, pos: Position): Outcome<T> {
    if !Accepts(q, pos) then Outcome(q, false, None, [])
    else if q.txLock == UNLOCKED then TrySend(q, x, pos)
    else Outcome(q.(items := Push(q.items, x, pos), txLock := Increment(q.txLock)), true, None, [])
  }

  /** xQueueReceiveFromISR. */
  function ReceiveFromIsr<T>(q: Queue<T>): Outcome<T> {
    if q.items == [] then Outcome(q, false, None, [])
    else if q.rxLock == UNLOCKED then TryReceive(q)
    else Outcome(q.(items := q.items[1..], rxLock := Increment(q.rxLock)), true, Some(q.items[0]), [])
  }

  /** prvLockQueue. */
  function Lock<T>(q: Queue<T>): Queue<T> {
    q.(rxLock := if q.rxLock == UNLOCKED then 0 else q.rxLock,
       txLock := if q.txLock == UNLOCKED then 0 else q.txLock)
  }

  /** The posts, or the removals, that a lock count stands for. */
  function Counted(lock: int): nat { if lock > 0 then lock else 0 }

  /** How many tasks an unlock wakes: one per counted message, while any wait. */
  function WakeCount(lock: int, waiting: nat): nat {
    if lock <= 0 then 0 else if lock <= waiting then lock else waiting
  }

  /** The first critical section of prvUnlockQueue. */
  function UnlockTx<T>(q: Queue<T>): Outcome<T> {
    var n := WakeCount(q.txLock, |q.waitingToReceive|);
    Outcome(q.(txLock := UNLOCKED, waitingToReceive := q.waitingToReceive[n..]), true, None, q.waitingToReceive[..n])
  }

  /** The second critical section of prvUnlockQueue. */
  function UnlockRx<T>(q: Queue<T>): Outcome<T> {
    var n := WakeCount(q.rxLock, |q.waitingToSend|);
    Outcome(q.(rxLock := UNLOCKED, waitingToSend := q.waitingToSend[n..]), true, None, q.waitingToSend[..n])
  }
}
