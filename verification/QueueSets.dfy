/** Queue sets of queue.c: a set is a queue of handles of its members, one handle
    for each message a member was given.  Selecting takes a handle; the receive
    that must follow takes the message. */
module QueueSets {
  import opened QueueModel
  import opened Sequences

  type QueueId = nat

  /** A queue that may be in the set, reduced to its counts; `selected` counts
      the handles taken from the set whose receive is still to come, `leaving`
      the calls of xQueueRemoveFromSet that have found the queue empty and are yet
      to take it out. */
  datatype Member = Member(messages: nat, length: nat, txLock: int, inSet: bool, selected: nat, leaving: nat)

  /** `asserted` records that the space assertion of prvNotifyQueueSetContainer
      failed, `chosen` the handles that selects have handed out. */
  datatype SetState = SetState(members: seq<Member>, handles: seq<QueueId>, capacity: nat, asserted: bool,
                               chosen: seq<QueueId>)

  datatype Step =
    | TaskSend(m: QueueId, pos: Position)
    | IsrSend(m: QueueId, pos: Position)
    | LockMember(m: QueueId)
    | UnlockMember(m: QueueId)
    | Select
    | ReceiveSelected(m: QueueId)
    | ReceiveDirect(m: QueueId)
    | AddToSet(m: QueueId)
    | TestRemoval(m: QueueId)
    | CommitRemoval(m: QueueId)

  function Set(s: SetState, m: QueueId, member: Member): SetState
    requires m < |s.members|
  {
    s.(members := s.members[m := member])
  }

  /** prvNotifyQueueSetContainer. */
  function Notify(s: SetState, m: QueueId, pos: Position): SetState {
    if |s.handles| < s.capacity then s.(handles := Push(s.handles, m, pos)) else s.(asserted := true)
  }

  /** The loop of prvUnlockQueue over a member's count. */
  function NotifyTimes(s: SetState, m: QueueId, n: nat): SetState
    decreases n
  {
    if n == 0 then s else NotifyTimes(Notify(s, m, SendToBack), m, n - 1)
  }

  /** A message enters the member; the set is told unless an interrupt finds the
      member locked. */
  function Send(s: SetState, m: QueueId, pos: Position): SetState
    requires m < |s.members|
  {
    var q := s.members[m];
    if q.messages >= q.length then s
    else
      var sent := Set(s, m, q.(messages := q.messages + 1));
      if q.txLock != UNLOCKED then Set(s, m, q.(messages := q.messages + 1, txLock := Increment(q.txLock)))
      else if q.inSet then Notify(sent, m, pos)
      else sent
  }

  function LengthSum(members: seq<Member>): nat {
    if members == [] then 0
    else LengthSum(members[..|members| - 1]) + if members[|members| - 1].inSet then members[|members| - 1].length else 0
  }

  /** Tasks find a member unlocked, no overwriting sends, a queue joins a set
      only if the set stays as long as its members together, and a member's
      messages are received only after its handle was selected. */
  predicate Enabled(s: SetState, st: Step) {
    (st.Select? || st.m < |s.members|) &&
    match st
    case TaskSend(m, pos) => pos != Overwrite && s.members[m].txLock == UNLOCKED
    case IsrSend(m, pos) => pos != Overwrite && s.members[m].txLock < LOCK_MAX
    case LockMember(m) => s.members[m].txLock == UNLOCKED
    case UnlockMember(m) => s.members[m].txLock != UNLOCKED
    case Select => s.handles != [] && s.handles[0] < |s.members|
    case ReceiveSelected(m) => s.members[m].selected > 0
    case ReceiveDirect(m) => !s.members[m].inSet
    case AddToSet(m) =>
      s.members[m].txLock == UNLOCKED
      && (!s.members[m].inSet ==> LengthSum(s.members) + s.members[m].length <= s.capacity)
    case TestRemoval(m) => s.members[m].txLock == UNLOCKED
    case CommitRemoval(m) => s.members[m].txLock == UNLOCKED && s.members[m].leaving > 0
  }

  function Apply(s: SetState, st: Step): SetState
    requires Enabled(s, st)
  {
    match st
    case TaskSend(m, pos) => Send(s, m, pos)
    case IsrSend(m, pos) => Send(s, m, pos)
    case LockMember(m) => Set(s, m, s.members[m].(txLock := 0))
    case UnlockMember(m) =>
      var q := s.members[m];
      var unlocked := Set(s, m, q.(txLock := UNLOCKED));
      if q.inSet && q.txLock > 0 then NotifyTimes(unlocked, m, q.txLock) else unlocked
    case Select =>
      var m := s.handles[0];
      Set(s.(handles := s.handles[1..], chosen := s.chosen + [m]), m,
          s.members[m].(selected := s.members[m].selected + 1))
    case ReceiveSelected(m) =>
      var q := s.members[m];
      Set(s, m, q.(selected := q.selected - 1, messages := if q.messages > 0 then q.messages - 1 else 0))
    case ReceiveDirect(m) =>
      var q := s.members[m];
      Set(s, m, q.(messages := if q.messages > 0 then q.messages - 1 else 0))
    case AddToSet(m) =>
      var q := s.members[m];
      if q.inSet || q.messages != 0 then s else Set(s, m, q.(inSet := true))
    case TestRemoval(m) =>
      var q := s.members[m];
      if !q.inSet || q.messages != 0 then s else Set(s, m, q.(leaving := q.leaving + 1))
    case CommitRemoval(m) => TakeOut(s, m)
  }

  /** The critical section of xQueueRemoveFromSet, which does not test again. */
  function TakeOut(s: SetState, m: QueueId): SetState
    requires m < |s.members| && s.members[m].leaving > 0
  {
    Set(s, m, s.members[m].(inSet := false, leaving := s.members[m].leaving - 1))
  }

  /** A removal that takes effect finds the queue still empty. */
  predicate Clean(s: SetState, st: Step)
    requires Enabled(s, st)
  {
    st.CommitRemoval? && s.members[st.m].inSet ==> s.members[st.m].messages == 0
  }

  /** Nothing is posted to a queue between the test and the critical section of
      its removal. */
  predicate Quiet(s: SetState, st: Step)
    requires Enabled(s, st)
  {
    st.TaskSend? || st.IsrSend? ==> s.members[st.m].leaving == 0
  }

  // ------------------------------------------------------------- conservation

  function Count(handles: seq<QueueId>, m: QueueId): nat {
    multiset(handles)[m]
  }

  /** Every message of a member is accounted for once: by its handle in the set,
      by a selection whose receive is to come, by the lock count, or, in the
      middle of a step, by one of the notifications the step still owes for m. */
  predicate Conserves(s: SetState, i: QueueId, m: QueueId, owed: nat)
    requires i < |s.members|
  {
    var q := s.members[i];
    && q.messages <= q.length && q.txLock >= UNLOCKED
    && if q.inSet then Count(s.handles, i) + q.selected + Counted(q.txLock) + (if i == m then owed else 0) == q.messages
       else Count(s.handles, i) == 0 && q.selected == 0
  }

  ghost predicate Owing(s: SetState, m: QueueId, owed: nat) {
    && (forall i :: 0 <= i < |s.members| ==> Conserves(s, i, m, owed))
    && (forall h :: h in s.handles ==> h < |s.members|)
    && LengthSum(s.members) <= s.capacity
    && !s.asserted
  }

  ghost predicate Inv(s: SetState) {
    Owing(s, 0, 0)
  }

  /** The handles of the first n queues. */
  function CountBelow(handles: seq<QueueId>, n: nat): nat {
    if n == 0 then 0 else CountBelow(handles, n - 1) + Count(handles, n - 1)
  }

  lemma {:induction false} CountBelowStep(handles: seq<QueueId>, h: QueueId, n: nat)
    ensures CountBelow(handles + [h], n) == CountBelow(handles, n) + if h < n then 1 else 0
  {
    if n > 0 {
      CountBelowStep(handles, h, n - 1);
    }
  }

  /** Every handle belongs to some queue. */
  lemma {:induction false} CountAll(handles: seq<QueueId>, n: nat)
    requires forall h :: h in handles ==> h < n
    ensures CountBelow(handles, n) == |handles|
    decreases |handles|
  {
    if handles == [] {
      CountNone(n);
    } else {
      var last := |handles| - 1;
      assert handles == handles[..last] + [handles[last]];
      assert handles[last] in handles;
      assert forall h :: h in handles[..last] ==> h in handles;
      CountAll(handles[..last], n);
      CountBelowStep(handles[..last], handles[last], n);
    }
  }

  lemma {:induction false} CountNone(n: nat)
    ensures CountBelow([], n) == 0
  {
    if n > 0 {
      CountNone(n - 1);
    }
  }

  /** The set never holds more handles than its members hold messages. */
  lemma {:induction false} HandlesFit(s: SetState, n: nat, spare: QueueId)
    requires n <= |s.members| && spare < |s.members|
    requires forall m :: 0 <= m < |s.members| ==> s.members[m].messages <= s.members[m].length
    requires forall m :: 0 <= m < |s.members| ==>
               Count(s.handles, m) + (if m == spare then 1 else 0)
               <= if s.members[m].inSet then s.members[m].messages else 0
    ensures CountBelow(s.handles, n) + (if spare < n then 1 else 0) <= LengthSum(s.members[..n])
  {
    if n > 0 {
      HandlesFit(s, n - 1, spare);
      assert s.members[..n][..n - 1] == s.members[..n - 1];
    }
  }

  /** A message that is not accounted for yet leaves room for its handle. */
  lemma {:induction false} RoomForHandle(s: SetState, m: QueueId)
    requires m < |s.members| && LengthSum(s.members) <= s.capacity
    requires forall h :: h in s.handles ==> h < |s.members|
    requires forall i :: 0 <= i < |s.members| ==> s.members[i].messages <= s.members[i].length
    requires forall i :: 0 <= i < |s.members| ==>
               Count(s.handles, i) + (if i == m then 1 else 0)
               <= if s.members[i].inSet then s.members[i].messages else 0
    ensures |s.handles| < s.capacity
  {
    CountAll(s.handles, |s.members|);
    HandlesFit(s, |s.members|, m);
    assert s.members[..|s.members|] == s.members;
  }

  lemma {:induction false} LengthSumUpdate(members: seq<Member>, m: nat, q: Member)
    requires m < |members|
    ensures LengthSum(members[m := q]) + (if members[m].inSet then members[m].length else 0) ==
            LengthSum(members) + (if q.inSet then q.length else 0)
  {
    var last := |members| - 1;
    if m < last {
      LengthSumUpdate(members[..last], m, q);
      assert members[m := q][..last] == members[..last][m := q];
    } else {
      assert members[m := q][..last] == members[..last];
    }
  }

  lemma {:induction false} NothingOwed(s: SetState, m: QueueId)
    ensures Owing(s, m, 0) <==> Inv(s)
  {
    forall i | 0 <= i < |s.members|
      ensures Conserves(s, i, m, 0) <==> Conserves(s, i, 0, 0)
    {
    }
  }

  /** An owed notification finds room, and pays one off. */
  lemma {:induction false} NotifyPays(s: SetState, m: QueueId, pos: Position, owed: nat)
    requires Owing(s, m, owed) && m < |s.members| && s.members[m].inSet && 0 < owed && pos != Overwrite
    ensures |s.handles| < s.capacity && Owing(Notify(s, m, pos), m, owed - 1)
  {
    forall i | 0 <= i < |s.members|
      ensures s.members[i].messages <= s.members[i].length
      ensures Count(s.handles, i) + (if i == m then 1 else 0) <= if s.members[i].inSet then s.members[i].messages else 0
    {
      assert Conserves(s, i, m, owed);
    }
    RoomForHandle(s, m);
    var r, left := Notify(s, m, pos), owed - 1;
    forall i | 0 <= i < |r.members|
      ensures Conserves(r, i, m, left)
    {
      assert Conserves(s, i, m, owed);
    }
  }

  lemma {:induction false} NotifyTimesPays(s: SetState, m: QueueId, n: nat)
    requires Owing(s, m, n) && m < |s.members| && s.members[m].inSet
    ensures Inv(NotifyTimes(s, m, n))
    decreases n
  {
    NothingOwed(s, m);
    if n > 0 {
      NotifyPays(s, m, SendToBack, n);
      NotifyTimesPays(Notify(s, m, SendToBack), m, n - 1);
    }
  }

  /** Changing one member, and the handles of that member only. */
  lemma {:induction false} SetKeeps(s: SetState, r: SetState, m: QueueId, q: Member, owed: nat)
    requires Inv(s) && m < |s.members| && q.length == s.members[m].length
    requires r.members == s.members[m := q] && r.capacity == s.capacity && !r.asserted
    requires forall h :: h in r.handles ==> h in s.handles
    requires forall i: nat :: i != m ==> Count(r.handles, i) == Count(s.handles, i)
    requires Conserves(r, m, m, owed)
    requires q.inSet ==> s.members[m].inSet || LengthSum(s.members) + q.length <= s.capacity
    ensures Owing(r, m, owed) && (owed == 0 ==> Inv(r))
  {
    NothingOwed(r, m);
    LengthSumUpdate(s.members, m, q);
    forall i | 0 <= i < |r.members|
      ensures Conserves(r, i, m, owed)
    {
      assert Conserves(s, i, 0, 0);
    }
  }

  lemma {:induction false} SendKeeps(s: SetState, m: QueueId, pos: Position)
    requires Inv(s) && m < |s.members| && pos != Overwrite && s.members[m].txLock < LOCK_MAX
    ensures Inv(Send(s, m, pos))
  {
    var q := s.members[m];
    assert Conserves(s, m, 0, 0);
    if q.messages < q.length {
      var more := q.(messages := q.messages + 1);
      var sent := Set(s, m, more);
      if q.txLock != UNLOCKED {
        var counted := more.(txLock := q.txLock + 1);
        SetKeeps(s, Set(s, m, counted), m, counted, 0);
      } else if q.inSet {
        SetKeeps(s, sent, m, more, 1);
        NotifyPays(sent, m, pos, 1);
        NothingOwed(Notify(sent, m, pos), m);
      } else {
        SetKeeps(s, sent, m, more, 0);
      }
    }
  }

  lemma {:induction false} UnlockKeeps(s: SetState, m: QueueId)
    requires Inv(s) && Enabled(s, UnlockMember(m))
    ensures Inv(Apply(s, UnlockMember(m)))
  {
    var q := s.members[m].(txLock := UNLOCKED);
    var unlocked := Set(s, m, q);
    var owed := if q.inSet then Counted(s.members[m].txLock) else 0;
    assert Conserves(s, m, 0, 0);
    SetKeeps(s, unlocked, m, q, owed);
    if q.inSet {
      NotifyTimesPays(unlocked, m, owed);
    }
  }

  lemma {:induction false} SelectKeeps(s: SetState)
    requires Inv(s) && Enabled(s, Select)
    ensures Inv(Apply(s, Select))
  {
    var m := s.handles[0];
    var q := s.members[m].(selected := s.members[m].selected + 1);
    assert s.handles == [m] + s.handles[1..];
    assert Conserves(s, m, 0, 0);
    SetKeeps(s, Apply(s, Select), m, q, 0);
  }

  lemma {:induction false} ApplyKeeps(s: SetState, st: Step)
    requires Inv(s) && Enabled(s, st) && Clean(s, st)
    ensures Inv(Apply(s, st))
  {
    match st
    case TaskSend(m, pos) => SendKeeps(s, m, pos);
    case IsrSend(m, pos) => SendKeeps(s, m, pos);
    case UnlockMember(m) => UnlockKeeps(s, m);
    case Select => SelectKeeps(s);
    case _ =>
      assert Conserves(s, st.m, 0, 0);
      if Apply(s, st) != s {
        SetKeeps(s, Apply(s, st), st.m, Apply(s, st).members[st.m], 0);
      }
  }

  // --------------------------------------------------------------------- runs

  ghost predicate Legal(s: SetState, steps: seq<Step>)
    decreases |steps|
  {
    steps == [] || (Enabled(s, steps[0]) && Legal(Apply(s, steps[0]), steps[1..]))
  }

  ghost predicate CleanRun(s: SetState, steps: seq<Step>)
    requires Legal(s, steps)
    decreases |steps|
  {
    steps == [] || (Clean(s, steps[0]) && CleanRun(Apply(s, steps[0]), steps[1..]))
  }

  ghost predicate QuietRun(s: SetState, steps: seq<Step>)
    requires Legal(s, steps)
    decreases |steps|
  {
    steps == [] || (Quiet(s, steps[0]) && QuietRun(Apply(s, steps[0]), steps[1..]))
  }

  ghost function Final(s: SetState, steps: seq<Step>): SetState
    requires Legal(s, steps)
    decreases |steps|
  {
    if steps == [] then s else Final(Apply(s, steps[0]), steps[1..])
  }

  lemma {:induction false} RunKeeps(s: SetState, steps: seq<Step>)
    requires Inv(s) && Legal(s, steps) && CleanRun(s, steps)
    ensures Inv(Final(s, steps))
    decreases |steps|
  {
    if steps != [] {
      ApplyKeeps(s, steps[0]);
      RunKeeps(Apply(s, steps[0]), steps[1..]);
    }
  }

  /** Queues that are empty and in no set, and an empty set. */
  predicate Fresh(s: SetState) {
    && (forall q :: q in s.members ==>
          q.messages == 0 && q.txLock == UNLOCKED && !q.inSet && q.selected == 0 && q.leaving == 0)
    && s.handles == [] && !s.asserted
  }

  lemma {:induction false} FreshLengths(members: seq<Member>)
    requires forall q :: q in members ==> !q.inSet
    ensures LengthSum(members) == 0
    decreases |members|
  {
    if members != [] {
      FreshLengths(members[..|members| - 1]);
    }
  }

  lemma {:induction false} FreshInv(s: SetState)
    requires Fresh(s)
    ensures Inv(s)
  {
    FreshLengths(s.members);
    forall m | 0 <= m < |s.members|
      ensures Conserves(s, m, 0, 0)
    {
      assert s.members[m] in s.members;
    }
  }

  /** As long as every removal that takes effect finds its queue empty, the space
      assertion never fails, and each message of each member of the set is
      announced, selected or counted, exactly once; a queue outside the set has
      left no handle in it. */
  lemma {:induction false} SetConservation(s: SetState, steps: seq<Step>)
    requires Fresh(s) && Legal(s, steps) && CleanRun(s, steps)
    ensures var r := Final(s, steps);
            && !r.asserted
            && forall m :: 0 <= m < |r.members| ==>
                 var q := r.members[m];
                 if q.inSet then multiset(r.handles)[m] + q.selected + Counted(q.txLock) == q.messages
                 else m !in r.handles
  {
    FreshInv(s);
    RunKeeps(s, steps);
    var r := Final(s, steps);
    forall m | 0 <= m < |r.members|
      ensures var q := r.members[m];
              if q.inSet then multiset(r.handles)[m] + q.selected + Counted(q.txLock) == q.messages
              else m !in r.handles
    {
      assert Conserves(r, m, 0, 0);
    }
  }

  predicate LeavingEmpty(s: SetState) {
    forall m :: 0 <= m < |s.members| && s.members[m].leaving > 0 ==> s.members[m].messages == 0
  }

  lemma {:induction false} NotifyTimesMembers(s: SetState, m: QueueId, n: nat)
    ensures NotifyTimes(s, m, n).members == s.members
    decreases n
  {
    if n > 0 { NotifyTimesMembers(Notify(s, m, SendToBack), m, n - 1); }
  }

  lemma {:induction false} QuietKeepsLeaving(s: SetState, st: Step)
    requires LeavingEmpty(s) && Enabled(s, st) && Quiet(s, st)
    ensures Clean(s, st) && LeavingEmpty(Apply(s, st))
  {
    if st.UnlockMember? {
      NotifyTimesMembers(Set(s, st.m, s.members[st.m].(txLock := UNLOCKED)), st.m, Counted(s.members[st.m].txLock));
    }
  }

  /** It is enough that nobody posts to a queue that is being removed: then every
      removal that takes effect finds its queue empty. */
  lemma {:induction false} QuietIsClean(s: SetState, steps: seq<Step>)
    requires LeavingEmpty(s) && Legal(s, steps) && QuietRun(s, steps)
    ensures CleanRun(s, steps)
    decreases |steps|
  {
    if steps != [] {
      QuietKeepsLeaving(s, steps[0]);
      QuietIsClean(Apply(s, steps[0]), steps[1..]);
    }
  }

  // ----------------------------------------------------------- what a step does

  /** The message a step brings to member m, and the one it takes from it. */
  function Brought(s: SetState, st: Step, m: QueueId): nat
    requires m < |s.members|
  {
    if (st.TaskSend? || st.IsrSend?) && st.m == m && s.members[m].messages < s.members[m].length then 1 else 0
  }

  function Taken(s: SetState, st: Step, m: QueueId): nat
    requires m < |s.members|
  {
    if (st.ReceiveSelected? || st.ReceiveDirect?) && st.m == m && s.members[m].messages > 0 then 1 else 0
  }

  lemma {:induction false} StepCounts(s: SetState, st: Step, m: QueueId)
    requires Enabled(s, st) && m < |s.members|
    ensures var r := Apply(s, st);
            && |r.members| == |s.members| && r.members[m].length == s.members[m].length
            && r.members[m].messages + Taken(s, st, m) == s.members[m].messages + Brought(s, st, m)
  {
    if st.UnlockMember? {
      var unlocked := Set(s, st.m, s.members[st.m].(txLock := UNLOCKED));
      NotifyTimesMembers(unlocked, st.m, Counted(s.members[st.m].txLock));
    }
  }

  ghost function AllBrought(s: SetState, steps: seq<Step>, m: QueueId): int
    requires Legal(s, steps) && m < |s.members|
    decreases |steps|
  {
    if steps == [] then 0
    else
      StepCounts(s, steps[0], m);
      Brought(s, steps[0], m) - Taken(s, steps[0], m) + AllBrought(Apply(s, steps[0]), steps[1..], m)
  }

  /** Over every run, whatever happens to the set: a member holds the messages it
      held, those sent to it while it had room, and not those received. */
  lemma {:induction false} MessagesAccounted(s: SetState, steps: seq<Step>, m: QueueId)
    requires Legal(s, steps) && m < |s.members|
    ensures |Final(s, steps).members| == |s.members|
    ensures Final(s, steps).members[m].messages == s.members[m].messages + AllBrought(s, steps, m)
    decreases |steps|
  {
    if steps != [] {
      StepCounts(s, steps[0], m);
      MessagesAccounted(Apply(s, steps[0]), steps[1..], m);
    }
  }

  /** The handles a step posts to the set. */
  function Told(s: SetState, st: Step): seq<QueueId>
    requires Enabled(s, st)
  {
    match st
    case TaskSend(m, _) => if s.members[m].inSet && s.members[m].messages < s.members[m].length then [m] else []
    case IsrSend(m, _) =>
      var q := s.members[m];
      if q.inSet && q.messages < q.length && q.txLock == UNLOCKED then [m] else []
    case UnlockMember(m) => if s.members[m].inSet then seq(Counted(s.members[m].txLock), _ => m) else []
    case _ => []
  }

  ghost function AllTold(s: SetState, steps: seq<Step>): seq<QueueId>
    requires Legal(s, steps)
    decreases |steps|
  {
    if steps == [] then [] else Told(s, steps[0]) + AllTold(Apply(s, steps[0]), steps[1..])
  }

  predicate ToBack(st: Step) {
    st.TaskSend? || st.IsrSend? ==> st.pos == SendToBack
  }

  lemma {:induction false} TimesTold(s: SetState, m: QueueId, n: nat)
    requires Owing(s, m, n) && m < |s.members| && s.members[m].inSet
    ensures NotifyTimes(s, m, n).handles == s.handles + seq(n, _ => m)
    ensures NotifyTimes(s, m, n).chosen == s.chosen
    decreases n
  {
    if n > 0 {
      NotifyPays(s, m, SendToBack, n);
      var next := Notify(s, m, SendToBack);
      assert next.handles == s.handles + [m] && next.chosen == s.chosen;
      TimesTold(next, m, n - 1);
      assert [m] + seq(n - 1, _ => m) == seq(n, _ => m);
      Regroup(s.handles, [m], seq(n - 1, _ => m));
    }
  }

  lemma {:induction false} UnlockTells(s: SetState, m: QueueId)
    requires Inv(s) && Enabled(s, UnlockMember(m))
    ensures var r := Apply(s, UnlockMember(m));
            r.handles == s.handles + Told(s, UnlockMember(m)) && r.chosen == s.chosen
  {
    var q := s.members[m].(txLock := UNLOCKED);
    var unlocked := Set(s, m, q);
    var owed := if q.inSet then Counted(s.members[m].txLock) else 0;
    assert Conserves(s, m, 0, 0);
    SetKeeps(s, unlocked, m, q, owed);
    if q.inSet {
      TimesTold(unlocked, m, owed);
    }
  }

  lemma {:induction false} SendTells(s: SetState, st: Step)
    requires Inv(s) && Enabled(s, st) && (st.TaskSend? || st.IsrSend?) && st.pos == SendToBack
    ensures Apply(s, st).handles == s.handles + Told(s, st) && Apply(s, st).chosen == s.chosen
  {
    var m := st.m;
    var q := s.members[m];
    assert Conserves(s, m, 0, 0);
    if q.messages < q.length && q.txLock == UNLOCKED && q.inSet {
      var more := q.(messages := q.messages + 1);
      SetKeeps(s, Set(s, m, more), m, more, 1);
      NotifyPays(Set(s, m, more), m, SendToBack, 1);
    }
  }

  lemma {:induction false} StepTells(s: SetState, st: Step)
    requires Inv(s) && Enabled(s, st) && ToBack(st)
    ensures Apply(s, st).chosen + Apply(s, st).handles == s.chosen + s.handles + Told(s, st)
  {
    if st.TaskSend? || st.IsrSend? {
      SendTells(s, st);
    } else if st.UnlockMember? {
      UnlockTells(s, st.m);
    }
  }

  /** First told, first selected: over every run whose removals are clean and whose
      sends go to the back, the handles that selects handed out and those still in
      the set are the handles posted, in order. */
  lemma {:induction false} SelectedInOrder(s: SetState, steps: seq<Step>)
    requires Inv(s) && Legal(s, steps) && CleanRun(s, steps) && forall st :: st in steps ==> ToBack(st)
    ensures var r := Final(s, steps);
            r.chosen + r.handles == s.chosen + s.handles + AllTold(s, steps)
    decreases |steps|
  {
    if steps != [] {
      var next := Apply(s, steps[0]);
      StepTells(s, steps[0]);
      ApplyKeeps(s, steps[0]);
      SelectedInOrder(next, steps[1..]);
      Regroup(s.chosen + s.handles, Told(s, steps[0]), AllTold(next, steps[1..]));
    }
  }

  /** A queue joins the set exactly if it is empty and in no set. */
  lemma AddedIff(s: SetState, m: QueueId)
    requires Enabled(s, AddToSet(m)) && !s.members[m].inSet
    ensures Apply(s, AddToSet(m)).members[m].inSet <==> s.members[m].messages == 0
  {
  }

  /** A selected handle is good for a message: the receive that follows a select
      always finds one. */
  lemma {:induction false} SelectedHasMessage(s: SetState, m: QueueId)
    requires Inv(s) && Enabled(s, ReceiveSelected(m))
    ensures s.members[m].messages > 0
  {
    assert Conserves(s, m, 0, 0);
  }

  // ------------------------------------------------------------------- removal

  /** In every state reached by clean removals, whatever was posted since the test:
      taking the queue out leaves no handle of it behind exactly when each of its
      messages has been selected already, and keeps every message accounted for
      exactly when there are none. */
  lemma {:induction false} RemovalIsCleanIff(s: SetState, steps: seq<Step>, m: QueueId)
    requires Fresh(s) && Legal(s, steps) && CleanRun(s, steps)
    requires var r := Final(s, steps);
             m < |r.members| && r.members[m].inSet && Enabled(r, CommitRemoval(m))
    ensures var r := Final(s, steps);
            && (m !in TakeOut(r, m).handles <==> r.members[m].messages == r.members[m].selected)
            && (Inv(TakeOut(r, m)) <==> r.members[m].messages == 0)
  {
    var r := Final(s, steps);
    var t := TakeOut(r, m);
    FreshInv(s);
    RunKeeps(s, steps);
    assert Conserves(r, m, 0, 0);
    assert m in r.handles <==> multiset(r.handles)[m] > 0;
    if r.members[m].messages == 0 {
      SetKeeps(r, t, m, t.members[m], 0);
    } else {
      assert !Conserves(t, m, 0, 0);
    }
  }

  /** One run that is neither clean nor quiet, from an empty queue and an empty set: the queue
      joins, the test passes, an interrupt posts, the removal commits; the set is
      left with the handle of a queue that is not its member. */
  lemma {:induction false} RemovalRace()
    ensures var s := SetState([Member(0, 1, UNLOCKED, false, 0, 0)], [], 1, false, []);
            var steps := [AddToSet(0), TestRemoval(0), IsrSend(0, SendToBack), CommitRemoval(0)];
            && Fresh(s) && Legal(s, steps) && !QuietRun(s, steps) && !CleanRun(s, steps)
            && var r := Final(s, steps);
               r.handles == [0] && !r.members[0].inSet && r.members[0].messages == 1
  {
    var s := SetState([Member(0, 1, UNLOCKED, false, 0, 0)], [], 1, false, []);
    var s1 := SetState([Member(0, 1, UNLOCKED, true, 0, 0)], [], 1, false, []);
    RaceSteps(s1);
    assert LengthSum(s.members) == 0 by { assert s.members[..0] == []; }
    assert Apply(s, AddToSet(0)) == s1;
    OneStep(s, AddToSet(0), [TestRemoval(0), IsrSend(0, SendToBack), CommitRemoval(0)]);
  }

  lemma {:induction false} RaceSteps(s1: SetState)
    requires s1 == SetState([Member(0, 1, UNLOCKED, true, 0, 0)], [], 1, false, [])
    ensures var steps := [TestRemoval(0), IsrSend(0, SendToBack), CommitRemoval(0)];
            Legal(s1, steps) && !QuietRun(s1, steps) && !CleanRun(s1, steps)
            && Final(s1, steps) == SetState([Member(1, 1, UNLOCKED, false, 0, 0)], [0], 1, false, [])
  {
    var s2 := SetState([Member(0, 1, UNLOCKED, true, 0, 1)], [], 1, false, []);
    var s3 := SetState([Member(1, 1, UNLOCKED, true, 0, 1)], [0], 1, false, []);
    var s4 := SetState([Member(1, 1, UNLOCKED, false, 0, 0)], [0], 1, false, []);
    assert Apply(s1, TestRemoval(0)) == s2 && Apply(s2, IsrSend(0, SendToBack)) == s3;
    assert Apply(s3, CommitRemoval(0)) == s4;
    OneStep(s3, CommitRemoval(0), []);
    OneStep(s2, IsrSend(0, SendToBack), [CommitRemoval(0)]);
    OneStep(s1, TestRemoval(0), [IsrSend(0, SendToBack), CommitRemoval(0)]);
  }

  lemma {:induction false} OneStep(s: SetState, st: Step, rest: seq<Step>)
    requires Enabled(s, st) && Legal(Apply(s, st), rest)
    ensures Legal(s, [st] + rest) && Final(s, [st] + rest) == Final(Apply(s, st), rest)
    ensures QuietRun(s, [st] + rest) <==> Quiet(s, st) && QuietRun(Apply(s, st), rest)
    ensures CleanRun(s, [st] + rest) <==> Clean(s, st) && CleanRun(Apply(s, st), rest)
  {
    assert ([st] + rest)[1..] == rest;
  }
}
