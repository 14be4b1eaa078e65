/** Tasks and interrupts interleaved on one queue: no wake-up is lost. */
module QueueProtocol {
  import opened Options
  import opened ListOrder
  import opened Sequences
  import opened QueueModel

  /** The three blocking operations; a semaphore take is a receive. */
  datatype Op = Receive | Peek | Send

  /** Where a task is in the retry loop of its operation. */
  datatype Pc =
    | Outside
    | AtTop(op: Op)                           // about to enter the critical section
    | ToLock(op: Op)                          // left it empty-handed, with time to wait
    | Locked(op: Op)                          // scheduler suspended, queue locked
    | ToBlock(op: Op)                         // has seen the queue still empty or full
    | UnlockingTx(op: Op, placed: bool)       // about to unlock
    | UnlockingRx(op: Op, placed: bool)
    | Sleeping(op: Op)

  datatype Kernel<T> = Kernel(
    q: Queue<T>,
    pc: map<TaskId, Pc>,
    suspendedBy: Option<TaskId>,    // the task that has suspended the scheduler
    wokenRx: set<TaskId>,           // woken from waitingToReceive, not yet retried
    wokenTx: set<TaskId>,           // woken from waitingToSend, not yet retried
    received: seq<T>)               // the messages handed to receivers so far

  datatype Step<T> =
    | Enter(t: TaskId, op: Op)
    | Top(t: TaskId, x: T, pos: Position, mayBlock: bool)
    | LockQueue(t: TaskId)
    | Check(t: TaskId, timedOut: bool)
    | PlaceOnList(t: TaskId, k: nat)
    | StepUnlockTx(t: TaskId)
    | StepUnlockRx(t: TaskId, leave: bool)
    | Resume(t: TaskId)
    | Timeout(t: TaskId)
    | IsrSend(x: T, pos: Position)
    | IsrReceive

  function PcOf<T>(k: Kernel<T>, t: TaskId): Pc {
    if t in k.pc then k.pc[t] else Outside
  }

  function Elements(l: seq<TaskId>): set<TaskId> {
    set t | t in l
  }

  function WithoutTask(l: seq<TaskId>, t: TaskId): seq<TaskId> {
    if l == [] then [] else if l[0] == t then l[1..] else [l[0]] + WithoutTask(l[1..], t)
  }

  function Waiting<T>(q: Queue<T>, op: Op): seq<TaskId> {
    if op == Send then q.waitingToSend else q.waitingToReceive
  }

  /** Nothing to do for the operation: the queue is full or empty. */
  predicate Stuck<T>(q: Queue<T>, op: Op) {
    if op == Send then |q.items| == q.length else q.items == []
  }

  /** A task runs only while no other task has suspended the scheduler; an
      interrupt runs at any time, at most LOCK_MAX times in one lock window. */
  predicate Enabled<T>(k: Kernel<T>, s: Step<T>) {
    match s
    case IsrSend(_, pos) => (pos == Overwrite ==> k.q.length == 1) && k.q.txLock < LOCK_MAX
    case IsrReceive => k.q.rxLock < LOCK_MAX
    case Timeout(t) => PcOf(k, t).Sleeping? && t in Waiting(k.q, PcOf(k, t).op)
    case Enter(t, _) => k.suspendedBy == None && PcOf(k, t) == Outside
    case Top(t, _, pos, _) => k.suspendedBy == None && PcOf(k, t).AtTop? && (pos == Overwrite ==> k.q.length == 1)
    case LockQueue(t) => k.suspendedBy == None && PcOf(k, t).ToLock?
    case Check(t, _) => k.suspendedBy == Some(t) && PcOf(k, t).Locked?
    case PlaceOnList(t, i) => k.suspendedBy == Some(t) && PcOf(k, t).ToBlock? && i <= |Waiting(k.q, PcOf(k, t).op)|
    case StepUnlockTx(t) => k.suspendedBy == Some(t) && PcOf(k, t).UnlockingTx?
    case StepUnlockRx(t, _) => k.suspendedBy == Some(t) && PcOf(k, t).UnlockingRx?
    case Resume(t) => k.suspendedBy == None && PcOf(k, t).Sleeping? && t !in Waiting(k.q, PcOf(k, t).op)
  }

  function Goto<T>(k: Kernel<T>, t: TaskId, pc: Pc): Kernel<T> {
    k.(pc := k.pc[t := pc])
  }

  /** The critical section at the top of the loop; the caller stops counting as
      woken, and the tasks it wakes start to. */
  function ApplyTop<T>(k: Kernel<T>, t: TaskId, x: T, pos: Position, mayBlock: bool): Kernel<T>
    requires PcOf(k, t).AtTop?
  {
    var op := PcOf(k, t).op;
    var o := match op case Receive => TryReceive(k.q) case Peek => TryPeek(k.q) case Send => TrySend(k.q, x, pos);
    if !o.ok then Goto(Retried(k, t, op), t, if mayBlock then ToLock(op) else Outside)
    else
      var retried := Retried(k, t, op).(q := o.queue);
      Goto(if op == Receive
           then retried.(wokenTx := k.wokenTx + Elements(o.woken), received := k.received + Listed(o.item))
           else retried.(wokenRx := retried.wokenRx + Elements(o.woken)), t, Outside)
  }

  function Listed<T>(item: Option<T>): seq<T> {
    match item case None => [] case Some(x) => [x]
  }

  function Retried<T>(k: Kernel<T>, t: TaskId, op: Op): Kernel<T> {
    if op == Send then k.(wokenTx := k.wokenTx - {t}) else k.(wokenRx := k.wokenRx - {t})
  }

  function Place<T>(q: Queue<T>, op: Op, t: TaskId, i: nat): Queue<T>
    requires i <= |Waiting(q, op)|
  {
    if op == Send then q.(waitingToSend := Inserted(q.waitingToSend, i, t))
    else q.(waitingToReceive := Inserted(q.waitingToReceive, i, t))
  }

  function Unplace<T>(q: Queue<T>, op: Op, t: TaskId): Queue<T> {
    if op == Send then q.(waitingToSend := WithoutTask(q.waitingToSend, t))
    else q.(waitingToReceive := WithoutTask(q.waitingToReceive, t))
  }

  function Apply<T>(k: Kernel<T>, s: Step<T>): Kernel<T>
    requires Enabled(k, s)
  {
    match s
    case Enter(t, op) => Goto(k, t, AtTop(op))
    case Top(t, x, pos, mayBlock) => ApplyTop(k, t, x, pos, mayBlock)
    case LockQueue(t) => Goto(k.(q := Lock(k.q), suspendedBy := Some(t)), t, Locked(PcOf(k, t).op))
    case Check(t, timedOut) =>
      var op := PcOf(k, t).op;
      Goto(k, t, if !timedOut && Stuck(k.q, op) then ToBlock(op) else UnlockingTx(op, false))
    case PlaceOnList(t, i) =>
      var op := PcOf(k, t).op;
      Goto(k.(q := Place(k.q, op, t, i)), t, UnlockingTx(op, true))
    case StepUnlockTx(t) =>
      var o := UnlockTx(k.q);
      Goto(k.(q := o.queue, wokenRx := k.wokenRx + Elements(o.woken)), t, UnlockingRx(PcOf(k, t).op, PcOf(k, t).placed))
    case StepUnlockRx(t, leave) =>
      var o := UnlockRx(k.q);
      var pc := PcOf(k, t);
      Goto(k.(q := o.queue, wokenTx := k.wokenTx + Elements(o.woken), suspendedBy := None), t,
           if pc.placed then Sleeping(pc.op) else if leave then Outside else AtTop(pc.op))
    case Resume(t) => Goto(k, t, AtTop(PcOf(k, t).op))
    case Timeout(t) => Goto(k.(q := Unplace(k.q, PcOf(k, t).op, t)), t, AtTop(PcOf(k, t).op))
    case IsrSend(x, pos) =>
      var o := SendFromIsr(k.q, x, pos);
      k.(q := o.queue, wokenRx := k.wokenRx + Elements(o.woken))
    case IsrReceive =>
      var o := ReceiveFromIsr(k.q);
      k.(q := o.queue, wokenTx := k.wokenTx + Elements(o.woken), received := k.received + Listed(o.item))
  }

  // ------------------------------------------------------------------ invariant

  ghost predicate NoDuplicates(l: seq<TaskId>) {
    forall i, j :: 0 <= i < j < |l| ==> l[i] != l[j]
  }

  /** The lock counts match the progress of the task that locked the queue. */
  predicate LocksOk<T>(k: Kernel<T>) {
    match k.suspendedBy
    case None => k.q.rxLock == UNLOCKED && k.q.txLock == UNLOCKED
    case Some(t) =>
      match PcOf(k, t)
      case Locked(_) => k.q.rxLock >= 0 && k.q.txLock >= 0
      case ToBlock(op) =>
        && k.q.rxLock >= 0 && k.q.txLock >= 0
        // what arrived since the queue was seen empty (or full) is counted
        && (if op == Send then k.q.length - |k.q.items| <= k.q.rxLock else |k.q.items| <= k.q.txLock)
      case UnlockingTx(_, _) => k.q.rxLock >= 0 && k.q.txLock >= 0
      case UnlockingRx(_, _) => k.q.rxLock >= 0 && k.q.txLock == UNLOCKED
      case _ => false
  }

  predicate IsPlaced(pc: Pc) {
    pc.Sleeping? || ((pc.UnlockingTx? || pc.UnlockingRx?) && pc.placed)
  }

  /** A task is in an event list, or counts as woken, only in the matching place
      of the matching operation, and not both. */
  ghost predicate SideOk(pc: map<TaskId, Pc>, waiting: seq<TaskId>, woken: set<TaskId>, sending: bool) {
    && NoDuplicates(waiting)
    && (forall t: TaskId :: t in waiting ==>
          t !in woken && t in pc && IsPlaced(pc[t]) && (pc[t].op == Send <==> sending))
    && (forall t: TaskId :: t in woken ==>
          t in pc && (IsPlaced(pc[t]) || pc[t].AtTop?) && (pc[t].op == Send <==> sending))
  }

  ghost predicate TasksOk<T>(k: Kernel<T>) {
    && SideOk(k.pc, k.q.waitingToReceive, k.wokenRx, false)
    && SideOk(k.pc, k.q.waitingToSend, k.wokenTx, true)
    && (forall t: TaskId :: t in k.pc && Critical(k.pc[t]) ==> k.suspendedBy == Some(t))
  }

  predicate Critical(pc: Pc) {
    pc.Locked? || pc.ToBlock? || pc.UnlockingTx? || pc.UnlockingRx?
  }

  /** Whenever a task is blocked, every message (or free slot) is matched by a
      task already woken for it or by a count that will wake one. */
  predicate WakeOk<T>(k: Kernel<T>) {
    && |k.q.items| <= k.q.length
    && (k.q.waitingToReceive != [] ==> |k.q.items| <= |k.wokenRx| + Counted(k.q.txLock))
    && (k.q.waitingToSend != [] ==> k.q.length - |k.q.items| <= |k.wokenTx| + Counted(k.q.rxLock))
  }

  ghost predicate Inv<T>(k: Kernel<T>) {
    LocksOk(k) && TasksOk(k) && WakeOk(k)
  }

  // --------------------------------------------------------------- every step

  lemma {:induction false} CountElements(s: set<TaskId>, l: seq<TaskId>)
    requires NoDuplicates(l) && s !! Elements(l)
    ensures |s + Elements(l)| == |s| + |l|
    decreases |l|
  {
    if l == [] {
      assert s + Elements(l) == s;
    } else {
      CountElements(s + {l[0]}, l[1..]);
      assert s + Elements(l) == s + {l[0]} + Elements(l[1..]);
    }
  }

  lemma {:induction false} InsertedTasks(l: seq<TaskId>, i: nat, t: TaskId)
    requires NoDuplicates(l) && t !in l && i <= |l|
    ensures NoDuplicates(Inserted(l, i, t))
    ensures forall u :: u in Inserted(l, i, t) <==> u == t || u in l
  {
    var r := Inserted(l, i, t);
    assert r == l[..i] + [t] + l[i..] && l == l[..i] + l[i..];
  }

  lemma {:induction false} WithoutTaskOk(l: seq<TaskId>, t: TaskId)
    requires NoDuplicates(l)
    ensures NoDuplicates(WithoutTask(l, t))
    ensures forall u :: u in WithoutTask(l, t) <==> u in l && u != t
  {
    if l != [] {
      assert forall u :: u in l <==> u == l[0] || u in l[1..];
      if l[0] != t {
        WithoutTaskOk(l[1..], t);
        assert l[0] !in WithoutTask(l[1..], t) by {
          assert l[0] !in l[1..];
        }
        assert forall u :: u in WithoutTask(l, t) <==> u == l[0] || u in WithoutTask(l[1..], t);
      } else {
        assert t !in l[1..];
      }
    }
  }

  /** Waking the first n waiters: they count, and leave the list. */
  lemma {:induction false} WakeFirst(pc: map<TaskId, Pc>, l: seq<TaskId>, woken: set<TaskId>, sending: bool, n: nat)
    requires SideOk(pc, l, woken, sending) && n <= |l|
    ensures SideOk(pc, l[n..], woken + Elements(l[..n]), sending)
    ensures |woken + Elements(l[..n])| == |woken| + n
  {
    forall t | t in l[..n]
      ensures t in l
    {
    }
    CountElements(woken, l[..n]);
    forall t | t in l[n..]
      ensures t in l && t !in woken + Elements(l[..n])
    {
      var i :| n <= i < |l| && l[i] == t;
    }
  }

  lemma {:induction false} GotoSide(pc: map<TaskId, Pc>, l: seq<TaskId>, woken: set<TaskId>, sending: bool, t: TaskId,
                                    next: Pc)
    requires SideOk(pc, l, woken, sending)
    requires (t in l || t in woken) ==>
               t in pc && (IsPlaced(pc[t]) ==> IsPlaced(next)) && (next.AtTop? || IsPlaced(next)) && next.op == pc[t].op
    requires t in l ==> IsPlaced(next)
    ensures SideOk(pc[t := next], l, woken, sending)
  {
  }

  /** A task at the top of its loop is in no list; once it has retried it is not
      woken either. */
  lemma {:induction false} AtTopSide(pc: map<TaskId, Pc>, l: seq<TaskId>, woken: set<TaskId>, sending: bool, t: TaskId)
    requires SideOk(pc, l, woken, sending) && t in pc && pc[t].AtTop?
    ensures t !in l && ((pc[t].op == Send) != sending ==> t !in woken)
    ensures SideOk(pc, l, woken - {t}, sending)
  {
  }

  lemma {:induction false} WakesNone<T>(k: Kernel<T>)
    ensures k.wokenRx + Elements([]) == k.wokenRx && k.wokenTx + Elements([]) == k.wokenTx
  {
  }

  lemma {:induction false} EnterKeeps<T>(k: Kernel<T>, t: TaskId, op: Op)
    requires Inv(k) && Enabled(k, Enter(t, op))
    ensures Inv(Apply(k, Enter(t, op)))
  {
  }

  lemma {:induction false} ResumeKeeps<T>(k: Kernel<T>, t: TaskId)
    requires Inv(k) && Enabled(k, Resume(t))
    ensures Inv(Apply(k, Resume(t)))
  {
  }

  /** A sleeping task leaves its list and is back at the top of its loop. */
  lemma {:induction false} TimeoutSide(pc: map<TaskId, Pc>, l: seq<TaskId>, woken: set<TaskId>, sending: bool,
                                       t: TaskId)
    requires SideOk(pc, l, woken, sending) && t in pc && pc[t].Sleeping?
    ensures var left := if (pc[t].op == Send) == sending then WithoutTask(l, t) else l;
            SideOk(pc[t := AtTop(pc[t].op)], left, woken, sending)
  {
    WithoutTaskOk(l, t);
  }

  lemma {:induction false} TimeoutKeeps<T>(k: Kernel<T>, t: TaskId)
    requires Inv(k) && Enabled(k, Timeout(t))
    ensures Inv(Apply(k, Timeout(t)))
  {
    TimeoutSide(k.pc, k.q.waitingToReceive, k.wokenRx, false, t);
    TimeoutSide(k.pc, k.q.waitingToSend, k.wokenTx, true, t);
  }

  lemma {:induction false} LockQueueKeeps<T>(k: Kernel<T>, t: TaskId)
    requires Inv(k) && Enabled(k, LockQueue(t))
    ensures Inv(Apply(k, LockQueue(t)))
  {
  }

  lemma {:induction false} CheckKeeps<T>(k: Kernel<T>, t: TaskId, timedOut: bool)
    requires Inv(k) && Enabled(k, Check(t, timedOut))
    ensures Inv(Apply(k, Check(t, timedOut)))
  {
  }

  lemma {:induction false} PlaceOnListKeeps<T>(k: Kernel<T>, t: TaskId, i: nat)
    requires Inv(k) && Enabled(k, PlaceOnList(t, i))
    ensures Inv(Apply(k, PlaceOnList(t, i)))
  {
    InsertedTasks(Waiting(k.q, PcOf(k, t).op), i, t);
  }

  lemma {:induction false} UnlockTxKeeps<T>(k: Kernel<T>, t: TaskId)
    requires Inv(k) && Enabled(k, StepUnlockTx(t))
    ensures Inv(Apply(k, StepUnlockTx(t)))
  {
    var o, next := UnlockTx(k.q), UnlockingRx(PcOf(k, t).op, PcOf(k, t).placed);
    WakeFirst(k.pc, k.q.waitingToReceive, k.wokenRx, false, |o.woken|);
    GotoSide(k.pc, o.queue.waitingToReceive, k.wokenRx + Elements(o.woken), false, t, next);
    GotoSide(k.pc, k.q.waitingToSend, k.wokenTx, true, t, next);
  }

  /** If a sender is left waiting, the unlock woke one for every counted removal. */
  lemma {:induction false} UnlockRxShape<T>(q: Queue<T>)
    ensures var o := UnlockRx(q);
            && o.woken == q.waitingToSend[..|o.woken|] && o.queue.waitingToSend == q.waitingToSend[|o.woken|..]
            && (o.queue.waitingToSend != [] ==> |o.woken| == Counted(q.rxLock))
            && o.queue == q.(rxLock := UNLOCKED, waitingToSend := o.queue.waitingToSend)
  {
  }

  /** The send side unlocked, and task t gone on to `next`. */
  function RxUnlocked<T>(k: Kernel<T>, t: TaskId, next: Pc): Kernel<T> {
    var o := UnlockRx(k.q);
    k.(q := o.queue, pc := k.pc[t := next], suspendedBy := None, wokenTx := k.wokenTx + Elements(o.woken))
  }

  lemma {:induction false} RxUnlockedSides<T>(k: Kernel<T>, t: TaskId, next: Pc)
    requires TasksOk(k) && t in k.pc && k.pc[t].UnlockingRx?
    requires if k.pc[t].placed then next == Sleeping(k.pc[t].op) else next == AtTop(k.pc[t].op) || next == Outside
    ensures var r := RxUnlocked(k, t, next);
            && SideOk(r.pc, r.q.waitingToReceive, r.wokenRx, false) && SideOk(r.pc, r.q.waitingToSend, r.wokenTx, true)
            && |r.wokenTx| == |k.wokenTx| + |UnlockRx(k.q).woken|
  {
    UnlockRxShape(k.q);
    var n := |UnlockRx(k.q).woken|;
    WakeFirst(k.pc, k.q.waitingToSend, k.wokenTx, true, n);
    GotoSide(k.pc, k.q.waitingToSend[n..], k.wokenTx + Elements(k.q.waitingToSend[..n]), true, t, next);
    GotoSide(k.pc, k.q.waitingToReceive, k.wokenRx, false, t, next);
  }

  lemma {:induction false} RxUnlockedKeeps<T>(k: Kernel<T>, t: TaskId, next: Pc)
    requires Inv(k) && k.suspendedBy == Some(t) && PcOf(k, t).UnlockingRx? && !Critical(next)
    requires var r := RxUnlocked(k, t, next);
             && SideOk(r.pc, r.q.waitingToReceive, r.wokenRx, false) && SideOk(r.pc, r.q.waitingToSend, r.wokenTx, true)
             && |r.wokenTx| == |k.wokenTx| + |UnlockRx(k.q).woken|
    ensures Inv(RxUnlocked(k, t, next))
  {
    UnlockRxShape(k.q);
  }

  lemma {:induction false} UnlockRxKeeps<T>(k: Kernel<T>, t: TaskId, leave: bool)
    requires Inv(k) && Enabled(k, StepUnlockRx(t, leave))
    ensures Inv(Apply(k, StepUnlockRx(t, leave)))
  {
    var pc := PcOf(k, t);
    var next := if pc.placed then Sleeping(pc.op) else if leave then Outside else AtTop(pc.op);
    RxUnlockedSides(k, t, next);
    RxUnlockedKeeps(k, t, next);
    assert Apply(k, StepUnlockRx(t, leave)) == RxUnlocked(k, t, next);
  }

  lemma {:induction false} IsrSendKeeps<T>(k: Kernel<T>, x: T, pos: Position)
    requires Inv(k) && Enabled(k, IsrSend(x, pos))
    ensures Inv(Apply(k, IsrSend(x, pos)))
  {
    WakesNone(k);
    if Accepts(k.q, pos) && k.q.txLock == UNLOCKED {
      WakeFirst(k.pc, k.q.waitingToReceive, k.wokenRx, false, One(k.q.waitingToReceive));
    }
  }

  lemma {:induction false} IsrReceiveKeeps<T>(k: Kernel<T>)
    requires Inv(k) && Enabled(k, IsrReceive)
    ensures Inv(Apply(k, IsrReceive))
  {
    WakesNone(k);
    if k.q.items != [] && k.q.rxLock == UNLOCKED {
      WakeFirst(k.pc, k.q.waitingToSend, k.wokenTx, true, One(k.q.waitingToSend));
    }
  }

  /** The side of task t's own operation, when t leaves the top of its loop for
      good: it no longer counts as woken, and the first n waiters do. */
  lemma {:induction false} OwnSideLeaves(pc: map<TaskId, Pc>, l: seq<TaskId>, woken: set<TaskId>, sending: bool,
                                         t: TaskId, n: nat)
    requires SideOk(pc, l, woken, sending) && t in pc && pc[t].AtTop? && n <= |l|
    ensures SideOk(pc[t := Outside], l[n..], woken - {t} + Elements(l[..n]), sending)
    ensures |woken - {t} + Elements(l[..n])| >= |woken| - 1 + n
  {
    AtTopSide(pc, l, woken, sending, t);
    WakeFirst(pc, l, woken - {t}, sending, n);
    GotoSide(pc, l[n..], woken - {t} + Elements(l[..n]), sending, t, Outside);
  }

  /** The side of the opposite operation. */
  lemma {:induction false} OtherSideLeaves(pc: map<TaskId, Pc>, l: seq<TaskId>, woken: set<TaskId>, sending: bool,
                                           t: TaskId, n: nat)
    requires SideOk(pc, l, woken, sending) && t in pc && pc[t].AtTop? && n <= |l| && (pc[t].op == Send) != sending
    ensures SideOk(pc[t := Outside], l[n..], woken + Elements(l[..n]), sending)
    ensures |woken + Elements(l[..n])| == |woken| + n
  {
    AtTopSide(pc, l, woken, sending, t);
    WakeFirst(pc, l, woken, sending, n);
    GotoSide(pc, l[n..], woken + Elements(l[..n]), sending, t, Outside);
  }

  /** r is k after task t, at the top of its loop, did what it came for and woke
      the first rx waiting receivers and tx waiting senders. */
  ghost predicate DoneAtTop<T>(k: Kernel<T>, r: Kernel<T>, t: TaskId, rx: nat, tx: nat)
    requires PcOf(k, t).AtTop? && rx <= |k.q.waitingToReceive| && tx <= |k.q.waitingToSend|
  {
    var own := PcOf(k, t).op;
    && r.pc == k.pc[t := Outside] && r.suspendedBy == k.suspendedBy
    && r.q.txLock == k.q.txLock && r.q.rxLock == k.q.rxLock && r.q.length == k.q.length
    && r.q.waitingToReceive == k.q.waitingToReceive[rx..] && r.q.waitingToSend == k.q.waitingToSend[tx..]
    && r.wokenRx == (if own != Send then k.wokenRx - {t} else k.wokenRx) + Elements(k.q.waitingToReceive[..rx])
    && r.wokenTx == (if own == Send then k.wokenTx - {t} else k.wokenTx) + Elements(k.q.waitingToSend[..tx])
  }

  lemma {:induction false} DoneSides<T>(k: Kernel<T>, r: Kernel<T>, t: TaskId, rx: nat, tx: nat)
    requires Inv(k) && PcOf(k, t).AtTop? && rx <= |k.q.waitingToReceive| && tx <= |k.q.waitingToSend|
    requires DoneAtTop(k, r, t, rx, tx) && k.suspendedBy == None
    ensures LocksOk(r) && TasksOk(r)
    ensures |r.wokenRx| >= |k.wokenRx| + rx - (if PcOf(k, t).op != Send then 1 else 0)
    ensures |r.wokenTx| >= |k.wokenTx| + tx - (if PcOf(k, t).op == Send then 1 else 0)
  {
    if PcOf(k, t).op == Send {
      OtherSideLeaves(k.pc, k.q.waitingToReceive, k.wokenRx, false, t, rx);
      OwnSideLeaves(k.pc, k.q.waitingToSend, k.wokenTx, true, t, tx);
    } else {
      OwnSideLeaves(k.pc, k.q.waitingToReceive, k.wokenRx, false, t, rx);
      OtherSideLeaves(k.pc, k.q.waitingToSend, k.wokenTx, true, t, tx);
    }
  }

  /** What becomes of the counts: a send adds at most one message and wakes a
      receiver, a receive takes one and wakes a sender, and a peek wakes the next
      receiver in its stead. */
  lemma {:induction false} DoneWakes<T>(k: Kernel<T>, r: Kernel<T>, t: TaskId, rx: nat, tx: nat)
    requires Inv(k) && PcOf(k, t).AtTop? && rx <= |k.q.waitingToReceive| && tx <= |k.q.waitingToSend|
    requires DoneAtTop(k, r, t, rx, tx) && k.suspendedBy == None
    requires match PcOf(k, t).op
             case Send =>
               |k.q.items| <= |r.q.items| <= |k.q.items| + 1 && rx == One(k.q.waitingToReceive) && tx == 0
               && 0 < |r.q.items| <= r.q.length
               && (|r.q.items| == |k.q.items| ==> |k.q.items| == k.q.length)
             case Receive => |r.q.items| == |k.q.items| - 1 && rx == 0 && tx == One(k.q.waitingToSend)
             case Peek => r.q.items == k.q.items && rx == One(k.q.waitingToReceive) && tx == 0
    ensures Inv(r)
  {
    DoneSides(k, r, t, rx, tx);
  }

  lemma {:induction false} TopFailsKeeps<T>(k: Kernel<T>, t: TaskId, x: T, pos: Position, mayBlock: bool)
    requires Inv(k) && Enabled(k, Top(t, x, pos, mayBlock))
    requires if PcOf(k, t).op == Send then !Accepts(k.q, pos) else k.q.items == []
    ensures Inv(Apply(k, Top(t, x, pos, mayBlock)))
  {
    var op := PcOf(k, t).op;
    var next := if mayBlock then ToLock(op) else Outside;
    AtTopSide(k.pc, k.q.waitingToReceive, k.wokenRx, false, t);
    AtTopSide(k.pc, k.q.waitingToSend, k.wokenTx, true, t);
    var retried := Retried(k, t, op);
    GotoSide(k.pc, k.q.waitingToReceive, retried.wokenRx, false, t, next);
    GotoSide(k.pc, k.q.waitingToSend, retried.wokenTx, true, t, next);
    assert Apply(k, Top(t, x, pos, mayBlock)) == Goto(retried, t, next);
  }

  lemma {:induction false} TopReceiveDone<T>(k: Kernel<T>, t: TaskId, x: T, pos: Position, mayBlock: bool)
    requires Enabled(k, Top(t, x, pos, mayBlock)) && PcOf(k, t).op == Receive && k.q.items != []
    ensures DoneAtTop(k, Apply(k, Top(t, x, pos, mayBlock)), t, 0, One(k.q.waitingToSend))
    ensures |Apply(k, Top(t, x, pos, mayBlock)).q.items| == |k.q.items| - 1
  {
  }

  lemma {:induction false} TopPeekDone<T>(k: Kernel<T>, t: TaskId, x: T, pos: Position, mayBlock: bool)
    requires Enabled(k, Top(t, x, pos, mayBlock)) && PcOf(k, t).op == Peek && k.q.items != []
    ensures DoneAtTop(k, Apply(k, Top(t, x, pos, mayBlock)), t, One(k.q.waitingToReceive), 0)
    ensures Apply(k, Top(t, x, pos, mayBlock)).q.items == k.q.items
  {
  }

  lemma {:induction false} TopSendDone<T>(k: Kernel<T>, t: TaskId, x: T, pos: Position, mayBlock: bool)
    requires Enabled(k, Top(t, x, pos, mayBlock)) && PcOf(k, t).op == Send && Accepts(k.q, pos)
    ensures DoneAtTop(k, Apply(k, Top(t, x, pos, mayBlock)), t, One(k.q.waitingToReceive), 0)
    ensures Apply(k, Top(t, x, pos, mayBlock)).q.items == Push(k.q.items, x, pos)
  {
  }

  lemma {:induction false} TopDoneKeeps<T>(k: Kernel<T>, t: TaskId, x: T, pos: Position, mayBlock: bool)
    requires Inv(k) && Enabled(k, Top(t, x, pos, mayBlock))
    requires if PcOf(k, t).op == Send then Accepts(k.q, pos) else k.q.items != []
    ensures Inv(Apply(k, Top(t, x, pos, mayBlock)))
  {
    var r := Apply(k, Top(t, x, pos, mayBlock));
    match PcOf(k, t).op
    case Receive =>
      TopReceiveDone(k, t, x, pos, mayBlock);
      DoneWakes(k, r, t, 0, One(k.q.waitingToSend));
    case Peek =>
      TopPeekDone(k, t, x, pos, mayBlock);
      DoneWakes(k, r, t, One(k.q.waitingToReceive), 0);
    case Send =>
      TopSendDone(k, t, x, pos, mayBlock);
      DoneWakes(k, r, t, One(k.q.waitingToReceive), 0);
  }

  lemma {:induction false} ApplyKeeps<T>(k: Kernel<T>, s: Step<T>)
    requires Inv(k) && Enabled(k, s)
    ensures Inv(Apply(k, s))
  {
    match s
    case Enter(t, op) => EnterKeeps(k, t, op);
    case Top(t, x, pos, mayBlock) =>
      if if PcOf(k, t).op == Send then !Accepts(k.q, pos) else k.q.items == [] {
        TopFailsKeeps(k, t, x, pos, mayBlock);
      } else {
        TopDoneKeeps(k, t, x, pos, mayBlock);
      }
    case LockQueue(t) => LockQueueKeeps(k, t);
    case Check(t, timedOut) => CheckKeeps(k, t, timedOut);
    case PlaceOnList(t, i) => PlaceOnListKeeps(k, t, i);
    case StepUnlockTx(t) => UnlockTxKeeps(k, t);
    case StepUnlockRx(t, leave) => UnlockRxKeeps(k, t, leave);
    case Resume(t) => ResumeKeeps(k, t);
    case Timeout(t) => TimeoutKeeps(k, t);
    case IsrSend(x, pos) => IsrSendKeeps(k, x, pos);
    case IsrReceive => IsrReceiveKeeps(k);
  }

  // --------------------------------------------------------------------- runs

  /** A new queue, with no task near it. */
  function Initial<T>(length: nat): Kernel<T> {
    Kernel(Queue([], length, UNLOCKED, UNLOCKED, [], []), map[], None, {}, {}, [])
  }

  ghost predicate Legal<T>(k: Kernel<T>, steps: seq<Step<T>>)
    decreases |steps|
  {
    steps == [] || (Enabled(k, steps[0]) && Legal(Apply(k, steps[0]), steps[1..]))
  }

  ghost function Final<T>(k: Kernel<T>, steps: seq<Step<T>>): Kernel<T>
    requires Legal(k, steps)
    decreases |steps|
  {
    if steps == [] then k else Final(Apply(k, steps[0]), steps[1..])
  }

  lemma {:induction false} RunKeeps<T>(k: Kernel<T>, steps: seq<Step<T>>)
    requires Inv(k) && Legal(k, steps)
    ensures Inv(Final(k, steps))
    decreases |steps|
  {
    if steps != [] {
      ApplyKeeps(k, steps[0]);
      RunKeeps(Apply(k, steps[0]), steps[1..]);
    }
  }

  /** In every reachable state: while a receiver is blocked, each message is
      matched by a receiver already woken that has not retried yet or by a
      counted post whose wake-up the unlock will deliver; and likewise for
      blocked senders and free slots. */
  lemma {:induction false} NoLostWakeUp<T>(length: nat, steps: seq<Step<T>>)
    requires Legal(Initial(length), steps)
    ensures var k := Final(Initial(length), steps);
            && |k.q.items| <= length == k.q.length
            && (k.q.waitingToReceive != [] ==> |k.q.items| <= |k.wokenRx| + Counted(k.q.txLock))
            && (k.q.waitingToSend != [] ==> length - |k.q.items| <= |k.wokenTx| + Counted(k.q.rxLock))
  {
    RunKeeps(Initial<T>(length), steps);
    RunKeepsLength(Initial<T>(length), steps);
  }

  lemma {:induction false} RunKeepsLength<T>(k: Kernel<T>, steps: seq<Step<T>>)
    requires Legal(k, steps)
    ensures Final(k, steps).q.length == k.q.length
    decreases |steps|
  {
    if steps != [] {
      RunKeepsLength(Apply(k, steps[0]), steps[1..]);
    }
  }

  /** Once every woken task has retried and the queue is unlocked, a receiver
      can only be blocked on an empty queue and a sender on a full one. */
  lemma {:induction false} BlockedOnlyWhenStuck<T>(length: nat, steps: seq<Step<T>>)
    requires Legal(Initial(length), steps)
    ensures var k := Final(Initial(length), steps);
            k.suspendedBy == None ==>
              && (k.wokenRx == {} && k.q.waitingToReceive != [] ==> k.q.items == [])
              && (k.wokenTx == {} && k.q.waitingToSend != [] ==> |k.q.items| == length)
  {
    RunKeeps(Initial<T>(length), steps);
    NoLostWakeUp(length, steps);
  }

  // ------------------------------------------------------------------- order

  /** The message a step puts into the queue. */
  function Accepted<T>(k: Kernel<T>, s: Step<T>): seq<T> {
    match s
    case Top(t, x, pos, _) => if PcOf(k, t).AtTop? && PcOf(k, t).op == Send && Accepts(k.q, pos) then [x] else []
    case IsrSend(x, pos) => if Accepts(k.q, pos) then [x] else []
    case _ => []
  }

  ghost function AllAccepted<T>(k: Kernel<T>, steps: seq<Step<T>>): seq<T>
    requires Legal(k, steps)
    decreases |steps|
  {
    if steps == [] then [] else Accepted(k, steps[0]) + AllAccepted(Apply(k, steps[0]), steps[1..])
  }

  predicate ToBack<T>(s: Step<T>) {
    match s
    case Top(_, _, pos, _) => pos == SendToBack
    case IsrSend(_, pos) => pos == SendToBack
    case _ => true
  }

  predicate Sends<T>(k: Kernel<T>, s: Step<T>) {
    s.IsrSend? || (s.Top? && PcOf(k, s.t).AtTop? && PcOf(k, s.t).op == Send)
  }

  lemma {:induction false} SendConserves<T>(k: Kernel<T>, t: TaskId, x: T, mayBlock: bool)
    requires Enabled(k, Top(t, x, SendToBack, mayBlock)) && PcOf(k, t).op == Send
    ensures var r := Apply(k, Top(t, x, SendToBack, mayBlock));
            r.received == k.received && r.q.items == k.q.items + Accepted(k, Top(t, x, SendToBack, mayBlock))
  {
  }

  lemma {:induction false} ReceiveConserves<T>(k: Kernel<T>, t: TaskId, x: T, pos: Position, mayBlock: bool)
    requires Enabled(k, Top(t, x, pos, mayBlock)) && PcOf(k, t).op != Send
    ensures var r := Apply(k, Top(t, x, pos, mayBlock));
            r.received + r.q.items == k.received + k.q.items && Accepted(k, Top(t, x, pos, mayBlock)) == []
  {
  }

  lemma {:induction false} TopConserves<T>(k: Kernel<T>, t: TaskId, x: T, pos: Position, mayBlock: bool)
    requires Enabled(k, Top(t, x, pos, mayBlock)) && (pos == SendToBack || PcOf(k, t).op != Send)
    ensures var r := Apply(k, Top(t, x, pos, mayBlock));
            r.received + r.q.items == k.received + k.q.items + Accepted(k, Top(t, x, pos, mayBlock))
  {
    if PcOf(k, t).op == Send {
      SendConserves(k, t, x, mayBlock);
      Regroup(k.received, k.q.items, Accepted(k, Top(t, x, pos, mayBlock)));
    } else {
      ReceiveConserves(k, t, x, pos, mayBlock);
      Emptys(k.received + k.q.items);
    }
  }

  lemma {:induction false} IsrConserves<T>(k: Kernel<T>, s: Step<T>)
    requires Enabled(k, s) && (s.IsrReceive? || (s.IsrSend? && s.pos == SendToBack))
    ensures Apply(k, s).received + Apply(k, s).q.items == k.received + k.q.items + Accepted(k, s)
  {
  }

  /** No other step touches the messages. */
  lemma {:induction false} OthersConserve<T>(k: Kernel<T>, s: Step<T>)
    requires Enabled(k, s) && !s.Top? && !s.IsrSend? && !s.IsrReceive?
    ensures Apply(k, s).received == k.received && Apply(k, s).q.items == k.q.items && Accepted(k, s) == []
  {
  }

  lemma {:induction false} StepConserves<T>(k: Kernel<T>, s: Step<T>)
    requires Enabled(k, s) && (ToBack(s) || !Sends(k, s))
    ensures Apply(k, s).received + Apply(k, s).q.items == k.received + k.q.items + Accepted(k, s)
  {
    match s
    case Top(t, x, pos, mayBlock) => TopConserves(k, t, x, pos, mayBlock);
    case IsrSend(_, _) => IsrConserves(k, s);
    case IsrReceive => IsrConserves(k, s);
    case _ => OthersConserve(k, s);
  }

  /** First in, first out, over every run whose sends go to the back: what the
      receivers were handed, followed by what is still queued, is what was sent. */
  lemma {:induction false} Fifo<T>(k: Kernel<T>, steps: seq<Step<T>>)
    requires Legal(k, steps) && forall s :: s in steps ==> ToBack(s)
    ensures var r := Final(k, steps);
            r.received + r.q.items == k.received + k.q.items + AllAccepted(k, steps)
    decreases |steps|
  {
    if steps != [] {
      var next := Apply(k, steps[0]);
      StepConserves(k, steps[0]);
      Fifo(next, steps[1..]);
      Regroup(k.received + k.q.items, Accepted(k, steps[0]), AllAccepted(next, steps[1..]));
    }
  }

  /** The step neither puts a message into the queue nor takes one out. */
  predicate Quiet<T>(k: Kernel<T>, s: Step<T>) {
    match s
    case Top(t, _, pos, _) =>
      PcOf(k, t).AtTop? &&
      (match PcOf(k, t).op case Send => !Accepts(k.q, pos) case Receive => k.q.items == [] case Peek => true)
    case IsrSend(_, pos) => !Accepts(k.q, pos)
    case IsrReceive => k.q.items == []
    case _ => true
  }

  ghost predicate QuietRun<T>(k: Kernel<T>, steps: seq<Step<T>>)
    requires Legal(k, steps)
    decreases |steps|
  {
    steps == [] || (Quiet(k, steps[0]) && QuietRun(Apply(k, steps[0]), steps[1..]))
  }

  lemma {:induction false} QuietKeepsItems<T>(k: Kernel<T>, steps: seq<Step<T>>)
    requires Legal(k, steps) && QuietRun(k, steps)
    ensures Final(k, steps).q.items == k.q.items && Final(k, steps).received == k.received
    decreases |steps|
  {
    if steps != [] { QuietKeepsItems(Apply(k, steps[0]), steps[1..]); }
  }

  /** The step sends x to the front. */
  ghost predicate SendsToFront<T>(k: Kernel<T>, s: Step<T>, x: T) {
    match s
    case Top(t, y, pos, _) => PcOf(k, t).AtTop? && PcOf(k, t).op == Send && y == x && pos == SendToFront
    case IsrSend(y, pos) => y == x && pos == SendToFront
    case _ => false
  }

  predicate Receives<T>(k: Kernel<T>, s: Step<T>) {
    match s
    case Top(t, _, _, _) => PcOf(k, t).AtTop? && PcOf(k, t).op == Receive
    case IsrReceive => true
    case _ => false
  }

  /** Last in, first out at the front: a message sent to the front of a queue with
      room is what the next receive is handed, by whichever task or interrupt and
      however many other steps come between, and the queue is as before. */
  lemma {:induction false} FrontIsNext<T>(k: Kernel<T>, send: Step<T>, between: seq<Step<T>>, receive: Step<T>, x: T)
    requires Enabled(k, send) && SendsToFront(k, send, x) && |k.q.items| < k.q.length
    requires var sent := Apply(k, send);
             && Legal(sent, between) && QuietRun(sent, between)
             && Enabled(Final(sent, between), receive) && Receives(Final(sent, between), receive)
    ensures var r := Apply(Final(Apply(k, send), between), receive);
            r.received == k.received + [x] && r.q.items == k.q.items
  {
    QuietKeepsItems(Apply(k, send), between);
  }

  predicate Overwrites<T>(s: Step<T>) {
    (s.Top? || s.IsrSend?) && s.pos == Overwrite
  }

  /** No message is lost or made up, over every run in which none is overwritten. */
  lemma {:induction false} Conserved<T>(k: Kernel<T>, steps: seq<Step<T>>)
    requires Legal(k, steps) && forall s :: s in steps ==> !Overwrites(s)
    ensures var r := Final(k, steps);
            multiset(r.received + r.q.items) == multiset(k.received + k.q.items + AllAccepted(k, steps))
    decreases |steps|
  {
    if steps != [] {
      var next, s := Apply(k, steps[0]), steps[0];
      StepConservesAll(k, s);
      Conserved(next, steps[1..]);
      Regroup(k.received + k.q.items, Accepted(k, s), AllAccepted(next, steps[1..]));
    }
  }

  lemma {:induction false} StepConservesAll<T>(k: Kernel<T>, s: Step<T>)
    requires Enabled(k, s) && !Overwrites(s)
    ensures multiset(Apply(k, s).received + Apply(k, s).q.items) == multiset(k.received + k.q.items + Accepted(k, s))
  {
    if ToBack(s) || !Sends(k, s) {
      StepConserves(k, s);
    } else {
      var added := Accepted(k, s);
      assert Apply(k, s).received == k.received && Apply(k, s).q.items == added + k.q.items;
      assert multiset(k.received + (added + k.q.items)) == multiset(k.received + k.q.items + added);
    }
  }

  /** The bound on interrupts per lock window is needed: one post beyond it wraps
      the count, and the unlock then wakes nobody, whoever waits. */
  lemma {:induction false} CountOverflowLosesWakeUps<T>(q: Queue<T>, x: T, pos: Position)
    requires q.txLock == LOCK_MAX && Accepts(q, pos)
    ensures var o := UnlockTx(SendFromIsr(q, x, pos).queue);
            o.woken == [] && o.queue.waitingToReceive == q.waitingToReceive && o.queue.items != []
  {
  }
}
