/** What a blocking operation does if nothing interrupts it: it blocks exactly if
    the queue is empty, or full. */
module QueueBlocking {
  import opened Options
  import opened QueueModel
  import opened QueueProtocol
  import opened QueueOverflow

  /** The steps of an operation with time to wait, run to the end or to its sleep
      on the i-th place of the event list. */
  function Attempt<T>(k: Kernel<T>, t: TaskId, op: Op, x: T, pos: Position, i: nat): seq<Step<T>> {
    if Stuck(k.q, op) then [Enter(t, op)] + ([Top(t, x, pos, true)] + ([LockQueue(t)] + Sleeps(t, i)))
    else [Enter(t, op)] + ([Top(t, x, pos, true)] + [])
  }

  function Sleeps<T>(t: TaskId, i: nat): seq<Step<T>> {
    [Check(t, false)] + ([PlaceOnList(t, i)] + ([StepUnlockTx(t)] + ([StepUnlockRx(t, false)] + [])))
  }

  /** The queue locked by t, nothing counted yet. */
  function LockedBy<T>(k: Kernel<T>, t: TaskId, pc: Pc): Kernel<T> {
    k.(q := k.q.(rxLock := 0, txLock := 0), pc := k.pc[t := pc], suspendedBy := Some(t))
  }

  /** t asleep in the event list of its operation, everything else as it was. */
  function Asleep<T>(k: Kernel<T>, t: TaskId, op: Op, i: nat): Kernel<T>
    requires i <= |Waiting(k.q, op)|
  {
    k.(q := Place(k.q, op, t, i), pc := k.pc[t := Sleeping(op)])
  }

  lemma {:induction false} UnlocksAsleep<T>(k: Kernel<T>, t: TaskId, op: Op, i: nat)
    requires i <= |Waiting(k.q, op)| && k.q.rxLock == k.q.txLock == UNLOCKED && k.suspendedBy == None
    ensures var l := LockedBy(k, t, UnlockingTx(op, true)).(q := Place(k.q, op, t, i).(rxLock := 0, txLock := 0));
            var steps := [StepUnlockTx(t)] + ([StepUnlockRx(t, false)] + []);
            Legal(l, steps) && Final(l, steps) == Asleep(k, t, op, i)
  {
    var placed := Place(k.q, op, t, i);
    var l := LockedBy(k, t, UnlockingTx(op, true)).(q := placed.(rxLock := 0, txLock := 0));
    var l1 := LockedBy(k, t, UnlockingRx(op, true)).(q := placed.(rxLock := 0));
    assert l.wokenRx + Elements([]) == l.wokenRx && l1.wokenTx + Elements([]) == l1.wokenTx;
    assert l.pc[t := UnlockingRx(op, true)] == l1.pc && l1.pc[t := Sleeping(op)] == k.pc[t := Sleeping(op)];
    assert Apply(l, StepUnlockTx(t)) == l1;
    assert Apply(l1, StepUnlockRx(t, false)) == Asleep(k, t, op, i);
    Prepend(l1, StepUnlockRx(t, false), []);
    Prepend(l, StepUnlockTx(t), [StepUnlockRx(t, false)] + []);
  }

  lemma {:induction false} FallsAsleepOn<T>(k: Kernel<T>, t: TaskId, op: Op, i: nat)
    requires Stuck(k.q, op) && i <= |Waiting(k.q, op)|
    requires k.q.rxLock == k.q.txLock == UNLOCKED && k.suspendedBy == None
    ensures Legal(LockedBy(k, t, Locked(op)), Sleeps(t, i))
    ensures Final(LockedBy(k, t, Locked(op)), Sleeps(t, i)) == Asleep(k, t, op, i)
  {
    var l, l1 := LockedBy(k, t, Locked(op)), LockedBy(k, t, ToBlock(op));
    var l2 := LockedBy(k, t, UnlockingTx(op, true)).(q := Place(k.q, op, t, i).(rxLock := 0, txLock := 0));
    assert l.pc[t := ToBlock(op)] == l1.pc && l1.pc[t := UnlockingTx(op, true)] == l2.pc;
    assert Apply(l, Check(t, false)) == l1;
    assert Apply(l1, PlaceOnList(t, i)) == l2;
    UnlocksAsleep(k, t, op, i);
    var rest: seq<Step<T>> := [StepUnlockTx(t)] + ([StepUnlockRx(t, false)] + []);
    Prepend(l1, PlaceOnList(t, i), rest);
    Prepend(l, Check(t, false), [PlaceOnList(t, i)] + rest);
  }

  lemma {:induction false} NotWoken<T>(k: Kernel<T>, t: TaskId)
    requires Inv(k) && PcOf(k, t).Outside?
    ensures k.wokenRx - {t} == k.wokenRx && k.wokenTx - {t} == k.wokenTx
  {
  }

  lemma {:induction false} TopFails<T>(k: Kernel<T>, t: TaskId, op: Op, x: T, pos: Position)
    requires k.suspendedBy == None && pos != Overwrite && Stuck(k.q, op) && |k.q.items| <= k.q.length
    requires k.wokenRx - {t} == k.wokenRx && k.wokenTx - {t} == k.wokenTx
    ensures var k1 := Goto(k, t, AtTop(op));
            Enabled(k1, Top(t, x, pos, true)) && Apply(k1, Top(t, x, pos, true)) == Goto(k, t, ToLock(op))
  {
    var k1 := Goto(k, t, AtTop(op));
    assert k1.pc[t := ToLock(op)] == k.pc[t := ToLock(op)];
    assert Retried(k1, t, op) == k1;
  }

  lemma {:induction false} TakesLock<T>(k: Kernel<T>, t: TaskId, op: Op)
    requires k.suspendedBy == None && k.q.rxLock == k.q.txLock == UNLOCKED
    ensures var k2 := Goto(k, t, ToLock(op));
            Enabled(k2, LockQueue(t)) && Apply(k2, LockQueue(t)) == LockedBy(k, t, Locked(op))
  {
    assert k.pc[t := ToLock(op)][t := Locked(op)] == k.pc[t := Locked(op)];
  }

  lemma {:induction false} ReachesLock<T>(k: Kernel<T>, t: TaskId, op: Op, x: T, pos: Position, rest: seq<Step<T>>)
    requires Inv(k) && k.suspendedBy == None && PcOf(k, t).Outside? && pos != Overwrite && Stuck(k.q, op)
    requires Legal(LockedBy(k, t, Locked(op)), rest)
    ensures var steps := [Enter(t, op)] + ([Top(t, x, pos, true)] + ([LockQueue(t)] + rest));
            Legal(k, steps) && Final(k, steps) == Final(LockedBy(k, t, Locked(op)), rest)
  {
    NotWoken(k, t);
    TopFails(k, t, op, x, pos);
    TakesLock(k, t, op);
    assert Apply(k, Enter(t, op)) == Goto(k, t, AtTop(op));
    Prepend(Goto(k, t, ToLock(op)), LockQueue(t), rest);
    Prepend(Goto(k, t, AtTop(op)), Top(t, x, pos, true), [LockQueue(t)] + rest);
    Prepend(k, Enter(t, op), [Top(t, x, pos, true)] + ([LockQueue(t)] + rest));
  }

  lemma {:induction false} Succeeds<T>(k: Kernel<T>, t: TaskId, op: Op, x: T, pos: Position)
    requires Inv(k) && k.suspendedBy == None && PcOf(k, t).Outside? && pos != Overwrite && !Stuck(k.q, op)
    ensures var steps := [Enter(t, op)] + ([Top(t, x, pos, true)] + []);
            Legal(k, steps) && PcOf(Final(k, steps), t).Outside?
  {
    var k1 := Goto(k, t, AtTop(op));
    assert Apply(k, Enter(t, op)) == k1;
    Prepend(k1, Top(t, x, pos, true), []);
    Prepend(k, Enter(t, op), [Top(t, x, pos, true)] + []);
  }

  /** From every reachable state in which no task has the queue locked, a task
      that may wait and is not interrupted blocks exactly if the queue is empty,
      or full for a send; it then sleeps in the event list of its operation, where
      the kernel put it, and nothing else has changed. */
  lemma {:induction false} BlocksIffStuck<T>(k: Kernel<T>, t: TaskId, op: Op, x: T, pos: Position, i: nat)
    requires Inv(k) && k.suspendedBy == None && PcOf(k, t).Outside? && pos != Overwrite
    requires i <= |Waiting(k.q, op)|
    ensures Legal(k, Attempt(k, t, op, x, pos, i))
    ensures var r := Final(k, Attempt(k, t, op, x, pos, i));
            && (PcOf(r, t).Sleeping? <==> if op == Send then |k.q.items| == k.q.length else k.q.items == [])
            && (PcOf(r, t).Sleeping? || PcOf(r, t).Outside?)
            && (PcOf(r, t).Sleeping? ==> t in Waiting(r.q, op) && r == Asleep(k, t, op, i))
  {
    if Stuck(k.q, op) {
      FallsAsleepOn(k, t, op, i);
      ReachesLock(k, t, op, x, pos, Sleeps(t, i));
      assert Waiting(Asleep(k, t, op, i).q, op)[i] == t;
    } else {
      Succeeds(k, t, op, x, pos);
    }
  }
}
