/** A reusable rendezvous: tasks that repeatedly call xEventGroupSync, each with
    bits of its own, waiting for the bits of all without a time-out. */
module Barrier {
  import opened EventModel
  import opened Sequences

  /** Each event bit of the rendezvous belongs to one task; own[i] is one of
      task i's bits. */
  datatype Party = Party(owner: map<nat, TaskId>, own: seq<nat>)

  ghost predicate ValidParty(p: Party) {
    && p.own != []
    && (forall i | 0 <= i < |p.own| :: p.own[i] in p.owner && p.owner[p.own[i]] == i)
    && (forall b | b in p.owner :: p.owner[b] < |p.own|)
  }

  /** The bits task i sets, and those everyone waits for. */
  function Mask(p: Party, i: TaskId): Bits {
    set b | b in p.owner && p.owner[b] == i
  }

  function Full(p: Party): Bits {
    p.owner.Keys
  }

  /** released holds the tasks whose sync is over but that have not returned yet. */
  datatype State = State(g: Group, released: set<TaskId>, arrivals: seq<nat>, departures: seq<nat>)

  datatype Step = Arrive(i: TaskId) | Return(i: TaskId)

  function Tasks(woken: seq<Woken>): set<TaskId> {
    set u | u in woken :: u.task
  }

  predicate Sized(p: Party, s: State) {
    |s.arrivals| == |p.own| && |s.departures| == |p.own|
  }

  /** A task calls xEventGroupSync again as soon as its last call returned,
      whether or not the tasks released with it have run. */
  predicate Enabled(p: Party, s: State, st: Step) {
    && Sized(p, s)
    && st.i < |p.own|
    && match st
       case Arrive(i) => s.arrivals[i] == s.departures[i]
       case Return(i) => i in s.released
  }

  function Apply(p: Party, s: State, st: Step): State
    requires Enabled(p, s, st)
  {
    match st
    case Arrive(i) =>
      var (g, out, woken) := Sync(s.g, i, Mask(p, i), Full(p), true);
      State(g, s.released + Tasks(woken) + (if out == Blocked then {} else {i}),
            s.arrivals[i := s.arrivals[i] + 1], s.departures)
    case Return(i) =>
      s.(released := s.released - {i}, departures := s.departures[i := s.departures[i] + 1])
  }

  // ----------------------------------------------------------------- invariant

  /** Task i has arrived at the round r that is being assembled. */
  predicate In(s: State, i: TaskId, r: nat) {
    i < |s.arrivals| && s.arrivals[i] == r + 1
  }

  ghost predicate TaskOk(s: State, i: TaskId, r: nat)
    requires i < |s.arrivals| && i < |s.departures|
  {
    if s.arrivals[i] == r + 1 then s.departures[i] == r && i !in s.released
    else s.arrivals[i] == r && s.departures[i] == (if i in s.released then r - 1 else r)
  }

  function All(p: Party): Request { Request(Full(p), true, true) }

  /** The bits are those of the tasks in the round, all of these wait, and
      someone is missing. */
  ghost predicate Round(p: Party, s: State, r: nat) {
    && Sized(p, s)
    && (forall i :: 0 <= i < |p.own| ==> TaskOk(s, i, r))
    && s.g.bits <= Full(p)
    && (forall b | b in p.owner :: b in s.g.bits <==> In(s, p.owner[b], r))
    && (forall w | w in s.g.waiters :: In(s, w.task, r) && w.request == All(p))
    && (forall i | In(s, i, r) :: Waiter(i, All(p)) in s.g.waiters)
    && (exists i :: 0 <= i < |p.own| && !In(s, i, r))
  }

  // -------------------------------------------------------- waiters of one kind

  lemma {:induction false} NoneMet(ws: seq<Waiter>, raised: Bits, r: Request)
    requires forall w | w in ws :: w.request == r
    requires !Satisfied(raised, r)
    ensures StillWaiting(ws, raised) == ws && Unblocked(ws, raised) == [] && ClearMask(ws, raised) == {}
  {
    if ws != [] { NoneMet(ws[1..], raised, r); }
  }

  lemma {:induction false} AllMet(ws: seq<Waiter>, raised: Bits, r: Request)
    requires forall w | w in ws :: w.request == r
    requires Satisfied(raised, r)
    ensures StillWaiting(ws, raised) == []
    ensures forall t :: t in Tasks(Unblocked(ws, raised)) <==> Waiter(t, r) in ws
    ensures ClearMask(ws, raised) <= r.wanted
  {
    SetBitsWakesExactly(ws, raised);
    Nothing(StillWaiting(ws, raised));
    forall t | Waiter(t, r) in ws ensures t in Tasks(Unblocked(ws, raised)) {
      assert Woken(t, r, raised) in Unblocked(ws, raised);
    }
    forall b | b in ClearMask(ws, raised) ensures b in r.wanted {
      ClearMaskExactly(ws, raised, b);
    }
  }

  // -------------------------------------------------------------------- arrival

  predicate LastIn(p: Party, s: State, i: TaskId, r: nat) {
    forall j :: 0 <= j < |p.own| && j != i ==> In(s, j, r)
  }

  /** The full mask is up exactly if everyone else has arrived. */
  lemma {:induction false} FullWhenAllIn(p: Party, s: State, i: TaskId, r: nat)
    requires ValidParty(p) && Round(p, s, r) && i < |p.own|
    ensures Full(p) <= s.g.bits + Mask(p, i) <==> LastIn(p, s, i, r)
  {
    if LastIn(p, s, i, r) {
      forall b | b in p.owner ensures b in s.g.bits + Mask(p, i) {
        assert p.owner[b] != i ==> In(s, p.owner[b], r);
      }
    } else {
      var j :| 0 <= j < |p.own| && j != i && !In(s, j, r);
      var b := p.own[j];
      assert b in Full(p) && b !in s.g.bits && b !in Mask(p, i);
    }
  }

  lemma {:induction false} JoinsWaiters(p: Party, s: State, after: State, i: TaskId, r: nat)
    requires Round(p, s, r) && after.g.waiters == s.g.waiters + [Waiter(i, All(p))]
    requires forall j | 0 <= j < |p.own| :: In(after, j, r) <==> j == i || In(s, j, r)
    requires |after.arrivals| == |p.own| && i < |p.own|
    ensures forall w | w in after.g.waiters :: In(after, w.task, r) && w.request == All(p)
    ensures forall j | In(after, j, r) :: Waiter(j, All(p)) in after.g.waiters
  {
    forall j | In(after, j, r) ensures Waiter(j, All(p)) in after.g.waiters {
      assert j == i || Waiter(j, All(p)) in s.g.waiters;
    }
    forall w | w in after.g.waiters ensures In(after, w.task, r) && w.request == All(p) {
      assert w in s.g.waiters || w == Waiter(i, All(p));
    }
  }

  /** Someone else is missing: the task blocks and nobody is released. */
  lemma {:induction false} ArrivesEarly(p: Party, s: State, i: TaskId, r: nat)
    requires ValidParty(p) && Round(p, s, r) && Enabled(p, s, Arrive(i))
    requires !LastIn(p, s, i, r)
    ensures var after := Apply(p, s, Arrive(i));
            && after.g == Group(s.g.bits + Mask(p, i), s.g.waiters + [Waiter(i, All(p))])
            && after.released == s.released
  {
    FullWhenAllIn(p, s, i, r);
    NoneMet(s.g.waiters, s.g.bits + Mask(p, i), All(p));
  }

  lemma {:induction false} JoinKeeps(p: Party, s: State, i: TaskId, r: nat)
    requires ValidParty(p) && Round(p, s, r) && Enabled(p, s, Arrive(i))
    requires !LastIn(p, s, i, r)
    ensures Round(p, Apply(p, s, Arrive(i)), r)
  {
    ArrivesEarly(p, s, i, r);
    FullWhenAllIn(p, s, i, r);
    var raised := s.g.bits + Mask(p, i);
    var after := Apply(p, s, Arrive(i));
    assert TaskOk(s, i, r);
    forall j | 0 <= j < |p.own| ensures TaskOk(after, j, r) && (In(after, j, r) <==> j == i || In(s, j, r)) {
      assert TaskOk(s, j, r);
    }
    forall b | b in p.owner ensures b in raised <==> In(after, p.owner[b], r) {
      assert b in s.g.bits <==> In(s, p.owner[b], r);
    }
    JoinsWaiters(p, s, after, i, r);
    var j :| 0 <= j < |p.own| && j != i && !In(s, j, r);
    assert !In(after, j, r);
  }

  /** The last task arrives: all are released, the bits are cleared and the next
      round begins. */
  lemma {:induction false} CompleteKeeps(p: Party, s: State, i: TaskId, r: nat)
    requires ValidParty(p) && Round(p, s, r) && Enabled(p, s, Arrive(i))
    requires LastIn(p, s, i, r)
    ensures Round(p, Apply(p, s, Arrive(i)), r + 1)
  {
    FullWhenAllIn(p, s, i, r);
    var raised := s.g.bits + Mask(p, i);
    AllMet(s.g.waiters, raised, All(p));
    var after := Apply(p, s, Arrive(i));
    assert TaskOk(s, i, r);
    assert after.g.waiters == [];
    assert after.g.bits == {};
    var q := r + 1;
    forall j | 0 <= j < |p.own| ensures TaskOk(after, j, q) && !In(after, j, q) {
      assert TaskOk(s, j, r);
      assert j == i || In(s, j, r);
      assert j in after.released;
    }
    assert !In(after, i, q);
  }

  lemma {:induction false} ReturnKeeps(p: Party, s: State, i: TaskId, r: nat)
    requires ValidParty(p) && Round(p, s, r) && Enabled(p, s, Return(i))
    ensures Round(p, Apply(p, s, Return(i)), r)
  {
    var after := Apply(p, s, Return(i));
    forall j | 0 <= j < |p.own| ensures TaskOk(after, j, r) {
      assert TaskOk(s, j, r);
    }
    assert forall j :: In(after, j, r) <==> In(s, j, r);
  }

  // ----------------------------------------------------------------------- runs

  ghost predicate Legal(p: Party, s: State, steps: seq<Step>)
    decreases |steps|
  {
    steps == [] || (Enabled(p, s, steps[0]) && Legal(p, Apply(p, s, steps[0]), steps[1..]))
  }

  ghost function Final(p: Party, s: State, steps: seq<Step>): State
    requires Legal(p, s, steps)
    decreases |steps|
  {
    if steps == [] then s else Final(p, Apply(p, s, steps[0]), steps[1..])
  }

  function Start(p: Party): State {
    State(Group({}, []), {}, seq(|p.own|, i => 0), seq(|p.own|, i => 0))
  }

  lemma {:induction false} RunKeeps(p: Party, s: State, steps: seq<Step>, r: nat) returns (q: nat)
    requires ValidParty(p) && Round(p, s, r) && Legal(p, s, steps)
    ensures Round(p, Final(p, s, steps), q)
    decreases |steps|
  {
    if steps == [] { return r; }
    var mid := Apply(p, s, steps[0]);
    var next := r;
    match steps[0] {
      case Return(i) => ReturnKeeps(p, s, i, r);
      case Arrive(i) =>
        if LastIn(p, s, i, r) { CompleteKeeps(p, s, i, r); next := r + 1; } else { JoinKeeps(p, s, i, r); }
    }
    q := RunKeeps(p, mid, steps[1..], next);
  }

  lemma {:induction false} Reach(p: Party, steps: seq<Step>) returns (q: nat)
    requires ValidParty(p) && Legal(p, Start(p), steps)
    ensures Round(p, Final(p, Start(p), steps), q)
  {
    var s := Start(p);
    assert forall i :: 0 <= i < |p.own| ==> TaskOk(s, i, 0);
    assert !In(s, 0, 0);
    q := RunKeeps(p, s, steps, 0);
  }

  /** No task returns from its k-th sync before every task has made its k-th
      call, and arrivals never drift apart by more than one. */
  lemma {:induction false} Rendezvous(p: Party, steps: seq<Step>, i: TaskId, j: TaskId)
    requires ValidParty(p) && Legal(p, Start(p), steps)
    requires i < |p.own| && j < |p.own|
    ensures var s := Final(p, Start(p), steps);
            && Sized(p, s)
            && s.departures[i] <= s.arrivals[j]
            && s.arrivals[i] <= s.arrivals[j] + 1
  {
    var r := Reach(p, steps);
    var s := Final(p, Start(p), steps);
    assert TaskOk(s, i, r) && TaskOk(s, j, r);
  }

  /** Nobody is left behind: once all have called equally often, no task is
      blocked and no bit is left over for the next round. */
  lemma {:induction false} NobodyLeftBehind(p: Party, steps: seq<Step>)
    requires ValidParty(p) && Legal(p, Start(p), steps)
    ensures var s := Final(p, Start(p), steps);
            && Sized(p, s)
            && ((forall i, j | 0 <= i < j < |p.own| :: s.arrivals[i] == s.arrivals[j])
                <==> s.g == Group({}, []))
  {
    var r := Reach(p, steps);
    var s := Final(p, Start(p), steps);
    var k :| 0 <= k < |p.own| && !In(s, k, r);
    assert TaskOk(s, k, r);
    if forall i, j | 0 <= i < j < |p.own| :: s.arrivals[i] == s.arrivals[j] {
      forall i | 0 <= i < |p.own| ensures !In(s, i, r) {
        assert i < k ==> s.arrivals[i] == s.arrivals[k];
        assert k < i ==> s.arrivals[k] == s.arrivals[i];
      }
      NoBits(p, s, r);
    } else if s.g == Group({}, []) {
      forall i | 0 <= i < |p.own| ensures s.arrivals[i] == r {
        assert TaskOk(s, i, r);
        assert Waiter(i, All(p)) !in s.g.waiters;
      }
    }
  }

  lemma {:induction false} NoBits(p: Party, s: State, r: nat)
    requires ValidParty(p) && Round(p, s, r)
    requires forall i | 0 <= i < |p.own| :: !In(s, i, r)
    ensures s.g == Group({}, [])
  {
    assert forall b :: b !in s.g.bits;
    Nothing(s.g.waiters);
  }
}
