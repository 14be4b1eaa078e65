/** The bound on interrupts in one lock window is reached in practice: a run to the
    last post it allows, with a task blocked, and what one more post does. */
module QueueOverflow {
  import opened Options
  import opened QueueModel
  import opened QueueProtocol

  lemma {:induction false} Prepend<T>(k: Kernel<T>, s: Step<T>, rest: seq<Step<T>>)
    requires Enabled(k, s) && Legal(Apply(k, s), rest)
    ensures Legal(k, [s] + rest) && Final(k, [s] + rest) == Final(Apply(k, s), rest)
  {
    assert ([s] + rest)[1..] == rest;
  }

  lemma {:induction false} Append<T>(k: Kernel<T>, a: seq<Step<T>>, b: seq<Step<T>>)
    requires Legal(k, a) && Legal(Final(k, a), b)
    ensures Legal(k, a + b) && Final(k, a + b) == Final(Final(k, a), b)
    decreases |a|
  {
    if a == [] {
      assert a + b == b;
    } else {
      assert (a + b)[1..] == a[1..] + b && (a + b)[0] == a[0];
      Append(Apply(k, a[0]), a[1..], b);
    }
  }

  function Idle<T>(length: nat, waiting: seq<TaskId>, pc: map<TaskId, Pc>): Kernel<T> {
    Kernel(Queue([], length, UNLOCKED, UNLOCKED, [], waiting), pc, None, {}, {}, [])
  }

  /** A task tries to receive from an empty queue, up to the lock. */
  lemma {:induction false} TriesAndLocks<T>(length: nat, waiting: seq<TaskId>, pc: map<TaskId, Pc>, t: TaskId, x: T)
    returns (steps: seq<Step<T>>)
    requires t !in pc
    ensures Legal(Idle(length, waiting, pc), steps)
    ensures Final(Idle(length, waiting, pc), steps)
         == Kernel(Queue([], length, 0, 0, [], waiting), pc[t := Locked(Receive)], Some(t), {}, {}, [])
  {
    var k: Kernel<T> := Idle(length, waiting, pc);
    var k1 := Goto(k, t, AtTop(Receive));
    var k2 := Goto(k, t, ToLock(Receive));
    var k3 := Goto(k.(q := Lock(k.q), suspendedBy := Some(t)), t, Locked(Receive));
    assert Apply(k, Enter(t, Receive)) == k1;
    assert k1.pc[t := ToLock(Receive)] == k2.pc && k2.pc[t := Locked(Receive)] == k3.pc;
    assert Apply(k1, Top(t, x, SendToBack, true)) == k2;
    assert Apply(k2, LockQueue(t)) == k3;
    Prepend(k2, LockQueue(t), []);
    Prepend(k1, Top(t, x, SendToBack, true), [LockQueue(t)] + []);
    Prepend(k, Enter(t, Receive), [Top(t, x, SendToBack, true)] + ([LockQueue(t)] + []));
    steps := [Enter(t, Receive)] + ([Top(t, x, SendToBack, true)] + ([LockQueue(t)] + []));
  }

  /** The same task on the event list of a locked queue. */
  function OnList<T>(length: nat, t: TaskId): Kernel<T> {
    Kernel(Queue([], length, 0, 0, [], [t]), map[t := UnlockingTx(Receive, true)], Some(t), {}, {}, [])
  }

  lemma {:induction false} JoinsList<T>(length: nat, t: TaskId)
    requires 0 < length
    ensures var k: Kernel<T> := Kernel(Queue([], length, 0, 0, [], []), map[t := Locked(Receive)], Some(t), {}, {}, []);
            var steps := [Check(t, false)] + ([PlaceOnList(t, 0)] + []);
            Legal(k, steps) && Final(k, steps) == OnList(length, t)
  {
    var k: Kernel<T> := Kernel(Queue([], length, 0, 0, [], []), map[t := Locked(Receive)], Some(t), {}, {}, []);
    var k1 := k.(pc := map[t := ToBlock(Receive)]);
    assert Apply(k, Check(t, false)) == k1;
    assert Apply(k1, PlaceOnList(t, 0)) == OnList(length, t);
    Prepend(k1, PlaceOnList(t, 0), []);
    Prepend(k, Check(t, false), [PlaceOnList(t, 0)] + []);
  }

  lemma {:induction false} UnlocksAndSleeps<T>(length: nat, t: TaskId)
    ensures var k: Kernel<T>, steps := OnList(length, t), [StepUnlockTx(t)] + ([StepUnlockRx(t, false)] + []);
            Legal(k, steps) && Final(k, steps) == Idle(length, [t], map[t := Sleeping(Receive)])
  {
    var k: Kernel<T> := OnList(length, t);
    var k1 := k.(q := k.q.(txLock := UNLOCKED), pc := map[t := UnlockingRx(Receive, true)]);
    assert Apply(k, StepUnlockTx(t)) == k1;
    assert Apply(k1, StepUnlockRx(t, false)) == Idle(length, [t], map[t := Sleeping(Receive)]);
    Prepend(k1, StepUnlockRx(t, false), []);
    Prepend(k, StepUnlockTx(t), [StepUnlockRx(t, false)] + []);
  }

  /** ... and on into its sleep. */
  lemma {:induction false} FallsAsleep<T>(length: nat, t: TaskId) returns (steps: seq<Step<T>>)
    requires 0 < length
    ensures var k := Kernel(Queue([], length, 0, 0, [], []), map[t := Locked(Receive)], Some(t), {}, {}, []);
            Legal(k, steps) && Final(k, steps) == Idle(length, [t], map[t := Sleeping(Receive)])
  {
    JoinsList<T>(length, t);
    UnlocksAndSleeps<T>(length, t);
    var a, b := [Check(t, false)] + ([PlaceOnList(t, 0)] + []), [StepUnlockTx(t)] + ([StepUnlockRx(t, false)] + []);
    Append(Kernel(Queue([], length, 0, 0, [], []), map[t := Locked(Receive)], Some(t), {}, {}, []), a, b);
    steps := a + b;
  }

  /** Posts from interrupts to a locked queue are only counted. */
  lemma {:induction false} Posts<T>(k: Kernel<T>, x: T, n: nat) returns (steps: seq<Step<T>>)
    requires 0 <= k.q.txLock && k.q.txLock + n <= LOCK_MAX && |k.q.items| + n <= k.q.length
    ensures Legal(k, steps)
    ensures var r := Final(k, steps);
            |r.q.items| == |k.q.items| + n && r == k.(q := k.q.(items := r.q.items, txLock := k.q.txLock + n))
    decreases n
  {
    if n == 0 {
      steps := [];
    } else {
      var s := IsrSend(x, SendToBack);
      var next := k.(q := k.q.(items := k.q.items + [x], txLock := k.q.txLock + 1));
      assert k.wokenRx + Elements([]) == k.wokenRx;
      assert Apply(k, s) == next;
      var rest := Posts(next, x, n - 1);
      Prepend(k, s, rest);
      steps := [s] + rest;
    }
  }

  /** A run within the bound after which one more post from an interrupt makes the
      unlock wake nobody: a receiver stays blocked on a queue that holds 128
      messages, with no task woken and no count left to wake one. */
  lemma {:induction false} OneMorePostLosesWakeUps<T>(length: nat, x: T) returns (steps: seq<Step<T>>)
    requires LOCK_MAX < length
    ensures Legal(Initial(length), steps)
    ensures var k := Final(Initial(length), steps);
            && k.suspendedBy.Some? && k.q.txLock == LOCK_MAX && k.q.waitingToReceive == [1]
            && var o := UnlockTx(SendFromIsr(k.q, x, SendToBack).queue);
               && o.woken == [] && k.wokenRx == {}
               && o.queue.waitingToReceive == [1] && |o.queue.items| == LOCK_MAX + 1 && o.queue.txLock == UNLOCKED
  {
    var k0: Kernel<T> := Initial(length);
    assert k0 == Idle(length, [], map[]);
    var first := TriesAndLocks(length, [], map[], 1, x);
    var asleep := FallsAsleep(length, 1);
    Append(k0, first, asleep);
    var k1 := Final(k0, first + asleep);
    var second := TriesAndLocks(length, [1], k1.pc, 2, x);
    Append(k0, first + asleep, second);
    var k2 := Final(k0, first + asleep + second);
    var posts := Posts(k2, x, LOCK_MAX);
    Append(k0, first + asleep + second, posts);
    steps := first + asleep + second + posts;
  }
}
