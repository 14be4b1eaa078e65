/** Event groups of event_groups.c on sets of bit numbers; EventGroups relates
    the 32-bit words of the code to them. */
module EventModel {
  type TaskId = nat
  type Bits = set<nat>

  /** What a blocked task waits for; in the code, one list item value. */
  datatype Request = Request(wanted: Bits, clear: bool, all: bool)

  /** An item of xTasksWaitingForBits. */
  datatype Waiter = Waiter(task: TaskId, request: Request)

  datatype Group = Group(bits: Bits, waiters: seq<Waiter>)

  /** A task that was unblocked by a set: what it asked for, what it was handed. */
  datatype Woken = Woken(task: TaskId, asked: Request, delivered: Bits)

  /** prvTestWaitCondition. */
  predicate Satisfied(current: Bits, r: Request) {
    if r.all then r.wanted <= current else r.wanted * current != {}
  }

  // ------------------------------------------------------------------ set bits

  function StillWaiting(waiters: seq<Waiter>, raised: Bits): seq<Waiter> {
    if waiters == [] then []
    else (if Satisfied(raised, waiters[0].request) then [] else [waiters[0]]) + StillWaiting(waiters[1..], raised)
  }

  function Unblocked(waiters: seq<Waiter>, raised: Bits): seq<Woken> {
    if waiters == [] then []
    else (if Satisfied(raised, waiters[0].request) then [Woken(waiters[0].task, waiters[0].request, raised)] else [])
         + Unblocked(waiters[1..], raised)
  }

  /** The bits the unblocked tasks want cleared. */
  function ClearMask(waiters: seq<Waiter>, raised: Bits): Bits {
    if waiters == [] then {}
    else (if Satisfied(raised, waiters[0].request) && waiters[0].request.clear then waiters[0].request.wanted else {})
         + ClearMask(waiters[1..], raised)
  }

  /** xEventGroupSetBits: the new group and the tasks unblocked. */
  function SetBits(g: Group, x: Bits): (Group, seq<Woken>) {
    var raised := g.bits + x;
    (Group(raised - ClearMask(g.waiters, raised), StillWaiting(g.waiters, raised)), Unblocked(g.waiters, raised))
  }

  /** xEventGroupClearBits. */
  function ClearBits(g: Group, x: Bits): Group {
    g.(bits := g.bits - x)
  }

  /** What a wait or a sync does at once: return a value, or block. */
  datatype Outcome = Done(value: Bits) | Blocked

  function Block(g: Group, t: TaskId, r: Request): Group {
    g.(waiters := g.waiters + [Waiter(t, r)])
  }

  /** The first half of xEventGroupWaitBits. */
  function WaitBits(g: Group, t: TaskId, r: Request, mayBlock: bool): (Group, Outcome) {
    if Satisfied(g.bits, r) then (if r.clear then ClearBits(g, r.wanted) else g, Done(g.bits))
    else if mayBlock then (Block(g, t, r), Blocked)
    else (g, Done(g.bits))
  }

  /** The first half of xEventGroupSync. */
  function Sync(g: Group, t: TaskId, x: Bits, wanted: Bits, mayBlock: bool): (Group, Outcome, seq<Woken>) {
    var (after, woken) := SetBits(g, x);
    if wanted <= g.bits + x then (ClearBits(after, wanted), Done(g.bits + x), woken)
    else if mayBlock then (Block(after, t, Request(wanted, true, true)), Blocked, woken)
    else (after, Done(after.bits), woken)
  }

  /** The critical section a wait or a sync runs after a time-out. */
  function AfterTimeout(g: Group, r: Request): (Group, Bits) {
    (if Satisfied(g.bits, r) && r.clear then ClearBits(g, r.wanted) else g, g.bits)
  }

  // ------------------------------------------------------------ what SetBits does

  /** The tasks unblocked are exactly the waiting tasks whose request the raised
      value satisfies; each is handed that same value, taken before any clearing;
      the others stay. */
  lemma {:induction false} SetBitsWakesExactly(waiters: seq<Waiter>, raised: Bits)
    ensures forall w :: w in StillWaiting(waiters, raised) <==> w in waiters && !Satisfied(raised, w.request)
    ensures forall u :: u in Unblocked(waiters, raised) <==>
              u.delivered == raised && Waiter(u.task, u.asked) in waiters && Satisfied(raised, u.asked)
    ensures |StillWaiting(waiters, raised)| + |Unblocked(waiters, raised)| == |waiters|
  {
    if waiters != [] {
      SetBitsWakesExactly(waiters[1..], raised);
      assert forall w :: w in waiters <==> w == waiters[0] || w in waiters[1..];
    }
  }

  /** A bit is cleared exactly if an unblocked task asked for it to be cleared. */
  lemma {:induction false} ClearMaskExactly(waiters: seq<Waiter>, raised: Bits, b: nat)
    ensures b in ClearMask(waiters, raised) <==>
            exists u :: u in Unblocked(waiters, raised) && u.asked.clear && b in u.asked.wanted
  {
    if waiters != [] {
      var w, rest := waiters[0], waiters[1..];
      ClearMaskExactly(rest, raised, b);
      var first: seq<Woken> := if Satisfied(raised, w.request) then [Woken(w.task, w.request, raised)] else [];
      assert Unblocked(waiters, raised) == first + Unblocked(rest, raised);
      assert forall u :: u in Unblocked(waiters, raised) <==> u in first || u in Unblocked(rest, raised);
      if Satisfied(raised, w.request) {
        assert Woken(w.task, w.request, raised) in first;
      }
    }
  }

  /** What a request asks of a value, bit by bit. */
  ghost predicate Meets(value: Bits, wanted: Bits, all: bool) {
    if all then forall b :: b in wanted ==> b in value else exists b :: b in wanted && b in value
  }

  lemma SatisfiedMeans(value: Bits, r: Request)
    ensures Satisfied(value, r) <==> Meets(value, r.wanted, r.all)
  {
    if !r.all {
      if b :| b in r.wanted && b in value { assert b in r.wanted * value; }
      if b :| b in r.wanted * value { assert b in r.wanted && b in value; }
    }
  }

  /** A set leaves a bit that was there or is set, unless a task that waits for what
      the raised value has asked for the bit to be cleared. */
  ghost predicate LeftBySet(g: Group, x: Bits, b: nat) {
    b in g.bits + x
    && !exists w :: w in g.waiters && Meets(g.bits + x, w.request.wanted, w.request.all)
                    && w.request.clear && b in w.request.wanted
  }

  lemma {:induction false} SetLeaves(g: Group, x: Bits, b: nat)
    ensures b in SetBits(g, x).0.bits <==> LeftBySet(g, x, b)
  {
    var raised := g.bits + x;
    ClearMaskExactly(g.waiters, raised, b);
    SetBitsWakesExactly(g.waiters, raised);
    forall w: Waiter ensures Satisfied(raised, w.request) <==> Meets(raised, w.request.wanted, w.request.all) {
      SatisfiedMeans(raised, w.request);
    }
    if w :| w in g.waiters && Satisfied(raised, w.request) && w.request.clear && b in w.request.wanted {
      assert Woken(w.task, w.request, raised) in Unblocked(g.waiters, raised);
    }
  }

  /** A set takes out exactly the tasks that wait for what the raised value has, and
      hands each that value. */
  lemma {:induction false} SetWakes(g: Group, x: Bits)
    ensures var (after, woken) := SetBits(g, x);
            && (forall w :: w in after.waiters <==>
                  w in g.waiters && !Meets(g.bits + x, w.request.wanted, w.request.all))
            && (forall u :: u in woken <==>
                  u.delivered == g.bits + x && Waiter(u.task, u.asked) in g.waiters
                  && Meets(g.bits + x, u.asked.wanted, u.asked.all))
            && |after.waiters| + |woken| == |g.waiters|
  {
    SetBitsWakesExactly(g.waiters, g.bits + x);
    forall r: Request ensures Satisfied(g.bits + x, r) <==> Meets(g.bits + x, r.wanted, r.all) {
      SatisfiedMeans(g.bits + x, r);
    }
  }

  /** A wait that finds what it waits for, or may not block, returns the value it
      found and clears its bits exactly if it found them and was asked to; any
      other joins the waiting tasks and leaves the bits alone. */
  lemma {:induction false} WaitDoes(g: Group, t: TaskId, r: Request, mayBlock: bool)
    ensures var (after, o) := WaitBits(g, t, r, mayBlock);
            var met := Meets(g.bits, r.wanted, r.all);
            && (o == Blocked <==> !met && mayBlock) && (o.Done? ==> o.value == g.bits)
            && (forall b :: b in after.bits <==> b in g.bits && !(met && r.clear && b in r.wanted))
            && after.waiters == g.waiters + if o == Blocked then [Waiter(t, r)] else []
  {
    SatisfiedMeans(g.bits, r);
  }

  /** After a time-out a wait returns what it finds, and clears its bits exactly if
      they have come meanwhile and it was asked to. */
  lemma {:induction false} TimeoutDoes(g: Group, r: Request)
    ensures var (after, value) := AfterTimeout(g, r);
            && value == g.bits && after.waiters == g.waiters
            && forall b :: b in after.bits <==>
                 b in g.bits && !(Meets(g.bits, r.wanted, r.all) && r.clear && b in r.wanted)
  {
    SatisfiedMeans(g.bits, r);
  }

  /** A sync sets its bits as a set does; it is done, and clears the bits it waits
      for, exactly if they are all there then, and returns them before clearing. */
  lemma {:induction false} SyncDoes(g: Group, t: TaskId, x: Bits, wanted: Bits, mayBlock: bool)
    ensures var (after, o, woken) := Sync(g, t, x, wanted, mayBlock);
            var (set_, others) := SetBits(g, x);
            var met := Meets(g.bits + x, wanted, true);
            && woken == others && (o == Blocked <==> !met && mayBlock)
            && (met ==> o.value == g.bits + x) && (!met && !mayBlock ==> o.value == set_.bits)
            && (forall b :: b in after.bits <==> b in set_.bits && !(met && b in wanted))
            && after.waiters == set_.waiters + if o == Blocked then [Waiter(t, Request(wanted, true, true))] else []
  {
  }

  /** Clearing bits makes no condition true. */
  lemma FewerBitsMeetLess(fewer: Bits, current: Bits, r: Request)
    requires fewer <= current && Satisfied(fewer, r)
    ensures Satisfied(current, r)
  {
    if !r.all {
      var b :| b in r.wanted * fewer;
      assert b in r.wanted * current;
    }
  }
}
