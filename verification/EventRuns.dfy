/** Event groups under every interleaving of their users. */
module EventRuns {
  import opened ListOrder
  import opened EventModel

  /** The group, the tasks unblocked by a set that have not returned yet, and
      the tasks that timed out and have not run their critical section yet. */
  datatype State = State(g: Group, released: seq<Woken>, timedOut: seq<Waiter>)

  datatype Step =
    | Set(bits: Bits)
    | Clear(bits: Bits)
    | Wait(t: TaskId, r: Request, mayBlock: bool)
    | Synchronise(t: TaskId, bits: Bits, wanted: Bits, mayBlock: bool)
    | Timeout(i: nat)            // the i-th waiter's block time expires
    | AfterTimeoutOf(i: nat)     // and it runs its critical section
    | Return(i: nat)             // a released task returns

  predicate Enabled(s: State, st: Step) {
    match st
    case Timeout(i) => i < |s.g.waiters|
    case AfterTimeoutOf(i) => i < |s.timedOut|
    case Return(i) => i < |s.released|
    case _ => true
  }

  function Apply(s: State, st: Step): State
    requires Enabled(s, st)
  {
    match st
    case Set(b) => var (g, woken) := SetBits(s.g, b); s.(g := g, released := s.released + woken)
    case Clear(b) => s.(g := ClearBits(s.g, b))
    case Wait(t, r, mayBlock) => s.(g := WaitBits(s.g, t, r, mayBlock).0)
    case Synchronise(t, b, wanted, mayBlock) =>
      var (g, _, woken) := Sync(s.g, t, b, wanted, mayBlock);
      s.(g := g, released := s.released + woken)
    case Timeout(i) =>
      State(s.g.(waiters := Removed(s.g.waiters, i)), s.released, s.timedOut + [s.g.waiters[i]])
    case AfterTimeoutOf(i) =>
      s.(g := AfterTimeout(s.g, s.timedOut[i].request).0, timedOut := Removed(s.timedOut, i))
    case Return(i) => s.(released := Removed(s.released, i))
  }

  /** No task waits for what is already there, and what every released task is
      about to return satisfies its request. */
  ghost predicate Inv(s: State) {
    && (forall w :: w in s.g.waiters ==> !Satisfied(s.g.bits, w.request))
    && (forall u :: u in s.released ==> Satisfied(u.delivered, u.asked))
  }

  lemma {:induction false} ClearKeeps(s: State, b: Bits)
    requires Inv(s)
    ensures Inv(s.(g := ClearBits(s.g, b)))
  {
    forall w | w in s.g.waiters && Satisfied(s.g.bits - b, w.request)
      ensures false
    {
      FewerBitsMeetLess(s.g.bits - b, s.g.bits, w.request);
    }
  }

  lemma {:induction false} SetKeeps(s: State, b: Bits)
    requires Inv(s)
    ensures var (g, woken) := SetBits(s.g, b);
            Inv(s.(g := g, released := s.released + woken))
  {
    var raised := s.g.bits + b;
    SetBitsWakesExactly(s.g.waiters, raised);
    var kept := raised - ClearMask(s.g.waiters, raised);
    forall w | w in StillWaiting(s.g.waiters, raised) && Satisfied(kept, w.request)
      ensures false
    {
      FewerBitsMeetLess(kept, raised, w.request);
    }
  }

  lemma {:induction false} SyncKeeps(s: State, t: TaskId, b: Bits, wanted: Bits, mayBlock: bool)
    requires Inv(s)
    ensures Inv(Apply(s, Synchronise(t, b, wanted, mayBlock)))
  {
    var (g, woken) := SetBits(s.g, b);
    var after := s.(g := g, released := s.released + woken);
    SetKeeps(s, b);
    if wanted <= s.g.bits + b {
      ClearKeeps(after, wanted);
    }
  }

  lemma {:induction false} ApplyKeeps(s: State, st: Step)
    requires Inv(s) && Enabled(s, st)
    ensures Inv(Apply(s, st))
  {
    match st
    case Set(b) => SetKeeps(s, b);
    case Clear(b) => ClearKeeps(s, b);
    case Wait(t, r, mayBlock) => ClearKeeps(s, r.wanted);
    case Synchronise(t, b, wanted, mayBlock) => SyncKeeps(s, t, b, wanted, mayBlock);
    case Timeout(i) => assert forall w :: w in Removed(s.g.waiters, i) ==> w in s.g.waiters;
    case AfterTimeoutOf(i) => ClearKeeps(s, s.timedOut[i].request.wanted);
    case Return(i) => assert forall u :: u in Removed(s.released, i) ==> u in s.released;
  }

  ghost predicate Legal(s: State, steps: seq<Step>)
    decreases |steps|
  {
    steps == [] || (Enabled(s, steps[0]) && Legal(Apply(s, steps[0]), steps[1..]))
  }

  ghost function Final(s: State, steps: seq<Step>): State
    requires Legal(s, steps)
    decreases |steps|
  {
    if steps == [] then s else Final(Apply(s, steps[0]), steps[1..])
  }

  /** xEventGroupCreate. */
  const CREATED: State := State(Group({}, []), [], [])

  lemma {:induction false} RunKeeps(s: State, steps: seq<Step>)
    requires Inv(s) && Legal(s, steps)
    ensures Inv(Final(s, steps))
    decreases |steps|
  {
    if steps != [] {
      ApplyKeeps(s, steps[0]);
      RunKeeps(Apply(s, steps[0]), steps[1..]);
    }
  }

  /** In every reachable state no blocked task's wait condition holds of the
      current bits, and every unblocked task returns a value that satisfies the
      condition it waited for. */
  lemma {:induction false} NeverStranded(steps: seq<Step>)
    requires Legal(CREATED, steps)
    ensures var s := Final(CREATED, steps);
            && (forall w :: w in s.g.waiters ==> !Satisfied(s.g.bits, w.request))
            && (forall u :: u in s.released ==> Satisfied(u.delivered, u.asked))
  {
    RunKeeps(CREATED, steps);
  }
}
