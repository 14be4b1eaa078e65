/** Recursive mutexes of queue.c, with the unguarded reads and writes of the
    holder and the call count interleaved one by one. */
module RecursiveMutex {
  import opened Options
  import opened QueueModel

  // One more than the largest UBaseType_t.
  const COUNT_RANGE: nat := 0x1_0000_0000

  /** Where a task is in xQueueTakeMutexRecursive or xQueueGiveMutexRecursive. */
  datatype Pc =
    | Idle
    | Taking                 // in xQueueSemaphoreTake, possibly blocked
    | Incrementing           // holds the mutex, about to load the count
    | StoringUp(v: nat)      // has loaded v, about to store v + 1
    | Decrementing
    | StoringDown(v: nat)
    | Testing                // has decremented, about to compare with zero
    | Giving                 // about to give the mutex back to the queue

  /** `depth` counts each task's completed takes minus its begun gives. */
  datatype Mutex = Mutex(
    messages: nat,
    holder: Option<TaskId>,
    count: nat,
    pc: map<TaskId, Pc>,
    depth: map<TaskId, nat>)

  datatype Step =
    | BeginTake(t: TaskId)               // reads the holder
    | SemaphoreTake(t: TaskId)           // one try of the critical section
    | GiveUp(t: TaskId)                  // the take times out
    | LoadUp(t: TaskId)
    | StoreUp(t: TaskId)
    | BeginGive(t: TaskId)               // reads the holder
    | LoadDown(t: TaskId)
    | StoreDown(t: TaskId)
    | Test(t: TaskId)
    | SendBack(t: TaskId)                // the critical section of xQueueGenericSend

  function PcOf(m: Mutex, t: TaskId): Pc { if t in m.pc then m.pc[t] else Idle }

  function Depth(m: Mutex, t: TaskId): nat { if t in m.depth then m.depth[t] else 0 }

  predicate Enabled(m: Mutex, s: Step) {
    match s
    case BeginTake(t) => PcOf(m, t).Idle?
    case SemaphoreTake(t) => PcOf(m, t).Taking?
    case GiveUp(t) => PcOf(m, t).Taking?
    case LoadUp(t) => PcOf(m, t).Incrementing? && m.count + 1 < COUNT_RANGE
    case StoreUp(t) => PcOf(m, t).StoringUp?
    case BeginGive(t) => PcOf(m, t).Idle?
    case LoadDown(t) => PcOf(m, t).Decrementing?
    case StoreDown(t) => PcOf(m, t).StoringDown?
    case Test(t) => PcOf(m, t).Testing?
    case SendBack(t) => PcOf(m, t).Giving?
  }

  function Goto(m: Mutex, t: TaskId, pc: Pc): Mutex {
    m.(pc := m.pc[t := pc])
  }

  function Apply(m: Mutex, s: Step): Mutex
    requires Enabled(m, s)
  {
    match s
    case BeginTake(t) => Goto(m, t, if m.holder == Some(t) then Incrementing else Taking)
    case SemaphoreTake(t) =>
      if m.messages > 0 then Goto(m.(messages := m.messages - 1, holder := Some(t)), t, Incrementing) else m
    case GiveUp(t) => Goto(m, t, Idle)
    case LoadUp(t) => Goto(m, t, StoringUp(m.count))
    case StoreUp(t) =>
      Goto(m.(count := (PcOf(m, t).v + 1) % COUNT_RANGE, depth := m.depth[t := Depth(m, t) + 1]), t, Idle)
    case BeginGive(t) => Goto(m, t, if m.holder == Some(t) then Decrementing else Idle)
    case LoadDown(t) => Goto(m, t, StoringDown(m.count))
    case StoreDown(t) =>
      Goto(m.(count := (PcOf(m, t).v - 1) % COUNT_RANGE,
              depth := m.depth[t := if Depth(m, t) > 0 then Depth(m, t) - 1 else 0]), t, Testing)
    case Test(t) => Goto(m, t, if m.count == 0 then Giving else Idle)
    case SendBack(t) =>
      if m.messages < 1 then Goto(m.(messages := m.messages + 1, holder := None), t, Idle) else Goto(m, t, Idle)
  }

  /** What is known of the call count and of the holder's depth at each point of
      the holder's code. */
  predicate HolderOk(m: Mutex, t: TaskId) {
    match PcOf(m, t)
    case Idle => m.count == Depth(m, t) > 0
    case Taking => false
    case Incrementing => m.count == Depth(m, t)
    case StoringUp(v) => v == m.count == Depth(m, t) && v + 1 < COUNT_RANGE
    case Decrementing => m.count == Depth(m, t) > 0
    case StoringDown(v) => v == m.count == Depth(m, t) > 0
    case Testing => m.count == Depth(m, t)
    case Giving => m.count == Depth(m, t) == 0
  }

  ghost predicate Inv(m: Mutex) {
    && m.count < COUNT_RANGE
    && m.messages == (if m.holder == None then 1 else 0)
    && (m.holder == None ==> m.count == 0)
    && (m.holder.Some? ==> HolderOk(m, m.holder.value))
    && forall t: TaskId :: (t in m.pc || t in m.depth) && m.holder != Some(t) ==>
         (PcOf(m, t).Idle? || PcOf(m, t).Taking?) && Depth(m, t) == 0
  }

  lemma {:induction false} TakingKeeps(m: Mutex, s: Step)
    requires Inv(m) && Enabled(m, s) && (s.BeginTake? || s.SemaphoreTake? || s.GiveUp?)
    ensures Inv(Apply(m, s))
  {
  }

  lemma {:induction false} CountingKeeps(m: Mutex, s: Step)
    requires Inv(m) && Enabled(m, s) && (s.LoadUp? || s.StoreUp? || s.LoadDown? || s.StoreDown?)
    ensures Inv(Apply(m, s))
  {
  }

  lemma {:induction false} GivingKeeps(m: Mutex, s: Step)
    requires Inv(m) && Enabled(m, s) && (s.BeginGive? || s.Test? || s.SendBack?)
    ensures Inv(Apply(m, s))
  {
  }

  lemma {:induction false} ApplyKeeps(m: Mutex, s: Step)
    requires Inv(m) && Enabled(m, s)
    ensures Inv(Apply(m, s))
  {
    match s
    case BeginTake(_) | SemaphoreTake(_) | GiveUp(_) => TakingKeeps(m, s);
    case LoadUp(_) | StoreUp(_) | LoadDown(_) | StoreDown(_) => CountingKeeps(m, s);
    case BeginGive(_) | Test(_) | SendBack(_) => GivingKeeps(m, s);
  }

  ghost predicate Legal(m: Mutex, steps: seq<Step>)
    decreases |steps|
  {
    steps == [] || (Enabled(m, steps[0]) && Legal(Apply(m, steps[0]), steps[1..]))
  }

  ghost function Final(m: Mutex, steps: seq<Step>): Mutex
    requires Legal(m, steps)
    decreases |steps|
  {
    if steps == [] then m else Final(Apply(m, steps[0]), steps[1..])
  }

  /** prvInitialiseMutex: created free. */
  const CREATED: Mutex := Mutex(1, None, 0, map[], map[])

  lemma {:induction false} RunKeeps(m: Mutex, steps: seq<Step>)
    requires Inv(m) && Legal(m, steps)
    ensures Inv(Final(m, steps))
    decreases |steps|
  {
    if steps != [] {
      ApplyKeeps(m, steps[0]);
      RunKeeps(Apply(m, steps[0]), steps[1..]);
    }
  }

  /** Over all interleavings: only the holder has takes outstanding, a holder at
      rest has as many as the count says and at least one, and the mutex is
      available exactly when nobody holds it. */
  lemma {:induction false} MutualExclusion(steps: seq<Step>, t: TaskId)
    requires Legal(CREATED, steps)
    ensures var m := Final(CREATED, steps);
            && (Depth(m, t) > 0 ==> m.holder == Some(t))
            && (m.holder == Some(t) && PcOf(m, t).Idle? ==> m.count == Depth(m, t) > 0)
            && (m.messages == 1 <==> m.holder == None) && m.messages <= 1
  {
    RunKeeps(CREATED, steps);
  }

  /** The decrement never underflows, and the send that gives the mutex back,
      whose result the code ignores, always succeeds. */
  lemma {:induction false} GiveNeverFails(steps: seq<Step>, t: TaskId)
    requires Legal(CREATED, steps)
    ensures var m := Final(CREATED, steps);
            && (PcOf(m, t).StoringDown? ==> PcOf(m, t).v > 0)
            && (PcOf(m, t).Giving? ==> m.messages == 0 && m.holder == Some(t))
  {
    RunKeeps(CREATED, steps);
  }

  /** A give by the holder at rest releases the mutex exactly when it matches
      the last outstanding take; whatever other tasks do in between, nothing else
      releases it. */
  lemma {:induction false} OnlyTheLastGiveReleases(m: Mutex, s: Step, t: TaskId)
    requires Inv(m) && Enabled(m, s) && m.holder == Some(t)
    ensures Apply(m, s).holder != Some(t) <==> s == SendBack(t)
    ensures s == Test(t) ==> (PcOf(Apply(m, s), t).Giving? <==> Depth(m, t) == 0)
    ensures Apply(m, s).holder == Some(t) || Apply(m, s).holder == None
  {
  }

  /** The steps of one call that runs without interruption. */
  ghost function Steps(m: Mutex, steps: seq<Step>): (r: Mutex)
    requires Inv(m)
    ensures Inv(r)
    decreases |steps|
  {
    if steps == [] || !Enabled(m, steps[0]) then m
    else
      ApplyKeeps(m, steps[0]);
      Steps(Apply(m, steps[0]), steps[1..])
  }

  function TakeSteps(m: Mutex, t: TaskId): seq<Step> {
    if m.holder == Some(t) then [BeginTake(t), LoadUp(t), StoreUp(t)]
    else if m.messages > 0 then [BeginTake(t), SemaphoreTake(t), LoadUp(t), StoreUp(t)]
    else [BeginTake(t), SemaphoreTake(t), GiveUp(t)]
  }

  function GiveSteps(m: Mutex, t: TaskId): seq<Step> {
    if m.holder != Some(t) then [BeginGive(t)]
    else if m.count == 1 then [BeginGive(t), LoadDown(t), StoreDown(t), Test(t), SendBack(t)]
    else [BeginGive(t), LoadDown(t), StoreDown(t), Test(t)]
  }

  lemma {:induction false} StepOnce(m: Mutex, s: Step, rest: seq<Step>)
    requires Inv(m) && Enabled(m, s)
    ensures Inv(Apply(m, s)) && Steps(m, [s] + rest) == Steps(Apply(m, s), rest)
  {
    ApplyKeeps(m, s);
    assert ([s] + rest)[1..] == rest;
  }

  /** The mutex after a take by t that succeeded. */
  function Taken(m: Mutex, t: TaskId): Mutex {
    Goto(m.(messages := 0, holder := Some(t), count := m.count + 1, depth := m.depth[t := Depth(m, t) + 1]), t, Idle)
  }

  /** Where t was in its code does not show once it is somewhere else. */
  lemma {:induction false} TakenFrom(m: Mutex, t: TaskId, pc: Pc)
    ensures Taken(Goto(m, t, pc), t) == Taken(m, t)
    ensures Goto(Goto(m, t, pc), t, Idle) == Goto(m, t, Idle)
  {
    assert m.pc[t := pc][t := Idle] == m.pc[t := Idle];
  }

  lemma {:induction false} FinishTake(m: Mutex, t: TaskId)
    requires Inv(m) && PcOf(m, t).Incrementing? && m.count + 1 < COUNT_RANGE
    ensures Steps(m, [LoadUp(t), StoreUp(t)]) == Taken(m, t)
  {
    StepOnce(m, LoadUp(t), [StoreUp(t)]);
    StepOnce(Apply(m, LoadUp(t)), StoreUp(t), []);
    TakenFrom(m, t, StoringUp(m.count));
  }

  lemma {:induction false} TrySemaphore(m: Mutex, t: TaskId)
    requires Inv(m) && PcOf(m, t).Taking? && m.count + 1 < COUNT_RANGE
    ensures Steps(m, [SemaphoreTake(t)] + if m.messages > 0 then [LoadUp(t), StoreUp(t)] else [GiveUp(t)]) ==
            if m.messages > 0 then Taken(m, t) else Goto(m, t, Idle)
  {
    var tried := Apply(m, SemaphoreTake(t));
    if m.messages > 0 {
      StepOnce(m, SemaphoreTake(t), [LoadUp(t), StoreUp(t)]);
      FinishTake(tried, t);
      TakenFrom(m, t, Incrementing);
    } else {
      StepOnce(m, SemaphoreTake(t), [GiveUp(t)]);
      StepOnce(tried, GiveUp(t), []);
    }
  }

  lemma {:induction false} TakeFromQueue(m: Mutex, t: TaskId)
    requires Inv(m) && PcOf(m, t).Idle? && m.count + 1 < COUNT_RANGE && m.holder != Some(t)
    ensures Steps(m, TakeSteps(m, t)) == if m.holder == None then Taken(m, t) else Goto(m, t, Idle)
  {
    var rest := [SemaphoreTake(t)] + if m.messages > 0 then [LoadUp(t), StoreUp(t)] else [GiveUp(t)];
    assert TakeSteps(m, t) == [BeginTake(t)] + rest;
    StepOnce(m, BeginTake(t), rest);
    TrySemaphore(Goto(m, t, Taking), t);
    TakenFrom(m, t, Taking);
  }

  /** An uninterrupted take succeeds exactly if the mutex is free or the caller's
      own, and adds one to the caller's depth. */
  lemma {:induction false} TakeAlone(m: Mutex, t: TaskId)
    requires Inv(m) && PcOf(m, t).Idle? && m.count + 1 < COUNT_RANGE
    ensures Steps(m, TakeSteps(m, t)) ==
            if m.holder == None || m.holder == Some(t)
            then m.(messages := 0, holder := Some(t), count := m.count + 1,
                    depth := m.depth[t := Depth(m, t) + 1], pc := m.pc[t := Idle])
            else m.(pc := m.pc[t := Idle])
  {
    if m.holder == Some(t) {
      StepOnce(m, BeginTake(t), [LoadUp(t), StoreUp(t)]);
      FinishTake(Goto(m, t, Incrementing), t);
      TakenFrom(m, t, Incrementing);
    } else {
      TakeFromQueue(m, t);
    }
  }

  lemma {:induction false} FinishGive(m: Mutex, t: TaskId)
    requires Inv(m) && PcOf(m, t).Testing? && m.holder == Some(t)
    ensures Steps(m, [Test(t)] + if m.count == 0 then [SendBack(t)] else []) ==
            if m.count == 0 then m.(messages := 1, holder := None, pc := m.pc[t := Idle])
            else m.(pc := m.pc[t := Idle])
  {
    if m.count == 0 {
      StepOnce(m, Test(t), [SendBack(t)]);
      StepOnce(Goto(m, t, Giving), SendBack(t), []);
    } else {
      StepOnce(m, Test(t), []);
    }
  }

  /** The mutex of holder t just before a give tests the count. */
  function Tested(m: Mutex, t: TaskId): Mutex
    requires m.count > 0
  {
    Goto(m.(count := m.count - 1, depth := m.depth[t := m.count - 1]), t, Testing)
  }

  lemma {:induction false} TestedFrom(m: Mutex, t: TaskId, pc: Pc)
    requires m.count > 0
    ensures Tested(Goto(m, t, pc), t) == Tested(m, t)
  {
    assert m.pc[t := pc][t := Testing] == m.pc[t := Testing];
  }

  lemma {:induction false} Decrement(m: Mutex, t: TaskId, rest: seq<Step>)
    requires Inv(m) && PcOf(m, t).Decrementing? && m.holder == Some(t)
    ensures Inv(Tested(m, t)) && Steps(m, [LoadDown(t)] + ([StoreDown(t)] + rest)) == Steps(Tested(m, t), rest)
  {
    StepOnce(m, LoadDown(t), [StoreDown(t)] + rest);
    var loaded := Goto(m, t, StoringDown(m.count));
    StepOnce(loaded, StoreDown(t), rest);
    assert Apply(loaded, StoreDown(t)) == Tested(loaded, t);
    TestedFrom(m, t, StoringDown(m.count));
  }

  lemma {:induction false} EnterGive(m: Mutex, t: TaskId, rest: seq<Step>)
    requires Inv(m) && PcOf(m, t).Idle? && m.holder == Some(t)
    ensures var begun := Goto(m, t, Decrementing);
            m.count > 0 && Inv(begun) && Steps(m, [BeginGive(t)] + rest) == Steps(begun, rest)
  {
    StepOnce(m, BeginGive(t), rest);
    assert Apply(m, BeginGive(t)) == Goto(m, t, Decrementing);
  }

  lemma {:induction false} GiveUpToTest(m: Mutex, t: TaskId, last: seq<Step>)
    requires Inv(m) && PcOf(m, t).Idle? && m.holder == Some(t)
    ensures m.count > 0 && Inv(Tested(m, t))
    ensures Steps(m, [BeginGive(t)] + ([LoadDown(t)] + ([StoreDown(t)] + last))) == Steps(Tested(m, t), last)
  {
    var begun := Goto(m, t, Decrementing);
    EnterGive(m, t, [LoadDown(t)] + ([StoreDown(t)] + last));
    Decrement(begun, t, last);
    TestedFrom(m, t, Decrementing);
  }

  lemma {:induction false} GiveHeld(m: Mutex, t: TaskId, last: seq<Step>)
    requires Inv(m) && PcOf(m, t).Idle? && m.holder == Some(t)
    requires last == [Test(t)] + if m.count == 1 then [SendBack(t)] else []
    ensures m.count > 0
    ensures Steps(m, [BeginGive(t)] + ([LoadDown(t)] + ([StoreDown(t)] + last))) ==
            m.(messages := if m.count == 1 then 1 else 0, holder := if m.count == 1 then None else Some(t),
               count := m.count - 1, depth := m.depth[t := m.count - 1], pc := m.pc[t := Idle])
  {
    GiveUpToTest(m, t, last);
    FinishGive(Tested(m, t), t);
    assert Tested(m, t).pc[t := Idle] == m.pc[t := Idle];
  }

  /** An uninterrupted give succeeds exactly for the holder, takes one off its
      depth, and releases the mutex exactly when that leaves zero. */
  lemma {:induction false} GiveAlone(m: Mutex, t: TaskId)
    requires Inv(m) && PcOf(m, t).Idle?
    ensures Steps(m, GiveSteps(m, t)) ==
            if m.holder != Some(t) then m.(pc := m.pc[t := Idle])
            else m.(messages := if m.count == 1 then 1 else 0, holder := if m.count == 1 then None else Some(t),
                    count := m.count - 1, depth := m.depth[t := m.count - 1], pc := m.pc[t := Idle])
  {
    if m.holder != Some(t) {
      StepOnce(m, BeginGive(t), []);
      assert GiveSteps(m, t) == [BeginGive(t)] + [];
    } else {
      var last := [Test(t)] + if m.count == 1 then [SendBack(t)] else [];
      assert GiveSteps(m, t) == [BeginGive(t)] + ([LoadDown(t)] + ([StoreDown(t)] + last));
      GiveHeld(m, t, last);
    }
  }

  /** The queue fields of a recursive mutex, and its two functions run without
      interruption: each is the corresponding sequence of steps. */
  class MutexQueue {
    var messagesWaiting: nat
    var mutexHolder: Option<TaskId>
    var recursiveCallCount: nat
    ghost var pc: map<TaskId, Pc>
    ghost var depth: map<TaskId, nat>

    ghost function State(): Mutex
      reads this
    {
      Mutex(messagesWaiting, mutexHolder, recursiveCallCount, pc, depth)
    }

    /** xQueueCreateMutex. */
    constructor ()
      ensures State() == CREATED
    {
      messagesWaiting, mutexHolder, recursiveCallCount := 1, None, 0;
      pc, depth := map[], map[];
    }

    /** xQueueTakeMutexRecursive by task t with no block time. */
    method TakeMutexRecursive(t: TaskId) returns (ok: bool)
      requires Inv(State()) && PcOf(State(), t).Idle? && recursiveCallCount + 1 < COUNT_RANGE
      modifies this
      ensures Inv(State()) && State() == Steps(old(State()), TakeSteps(old(State()), t))
      ensures ok <==> mutexHolder == Some(t)
      ensures ok ==> Depth(State(), t) == Depth(old(State()), t) + 1
    {
      TakeAlone(State(), t);
      pc := pc[t := Idle];
      ok := mutexHolder == Some(t);
      if ok {
        recursiveCallCount := recursiveCallCount + 1;
        depth := depth[t := Depth(State(), t) + 1];
      } else {
        if messagesWaiting > 0 {
          messagesWaiting := messagesWaiting - 1;
          mutexHolder := Some(t);
          ok := true;
        }
        if ok {
          recursiveCallCount := recursiveCallCount + 1;
          depth := depth[t := Depth(State(), t) + 1];
        }
      }
    }

    /** xQueueGiveMutexRecursive by task t. */
    method GiveMutexRecursive(t: TaskId) returns (ok: bool)
      requires Inv(State()) && PcOf(State(), t).Idle?
      modifies this
      ensures Inv(State()) && State() == Steps(old(State()), GiveSteps(old(State()), t))
      ensures ok <==> old(mutexHolder) == Some(t)
      ensures ok ==> Depth(State(), t) == Depth(old(State()), t) - 1
      ensures ok ==> mutexHolder == if Depth(State(), t) == 0 then None else Some(t)
    {
      GiveAlone(State(), t);
      pc := pc[t := Idle];
      if mutexHolder == Some(t) {
        recursiveCallCount := recursiveCallCount - 1;
        depth := depth[t := Depth(State(), t) - 1];
        if recursiveCallCount == 0 {
          if messagesWaiting < 1 {
            mutexHolder := None;
            messagesWaiting := messagesWaiting + 1;
          }
        }
        ok := true;
      } else {
        ok := false;
      }
    }
  }
}
