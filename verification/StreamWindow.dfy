/** What a careless send does to a message buffer while a receive whose buffer is
    too small has its tail moved. */
module StreamWindow {
  import opened StreamModel
  import opened StreamMessages

  lemma {:induction false} Append(s: State, a: seq<Step>, b: seq<Step>)
    requires Legal(s, a) && Legal(Final(s, a), b)
    ensures Legal(s, a + b) && Final(s, a + b) == Final(Final(s, a), b)
    decreases |a|
  {
    if a == [] {
      assert a + b == b;
    } else {
      assert (a + b)[1..] == a[1..] + b;
      Append(Apply(s, a[0]), a[1..], b);
    }
  }

  lemma {:induction false} OneStep(s: State, st: Step)
    requires Enabled(s, st)
    ensures Legal(s, [st]) && Final(s, [st]) == Apply(s, st)
  {
    assert [st][1..] == [];
  }

  /** The writer copies what it is about to publish. */
  lemma {:induction false} CopyAll(s: State) returns (steps: seq<Step>)
    requires Shaped(s) && !s.writer.Away? && Done(s.writer) <= |Pending(s.writer)|
    ensures Legal(s, steps) && forall st :: st in steps ==> !st.Send?
    ensures var t := Final(s, steps);
            |t.storage| == |s.storage| && t == s.(storage := t.storage, writer := s.writer.(k := |Pending(s.writer)|))
    decreases |Pending(s.writer)| - Done(s.writer)
  {
    if Done(s.writer) == |Pending(s.writer)| {
      steps := [];
    } else {
      var t := Apply(s, CopyByte);
      assert Pending(t.writer) == Pending(s.writer);
      var rest := CopyAll(t);
      steps := [CopyByte] + rest;
      OneStep(s, CopyByte);
      Append(s, [CopyByte], rest);
    }
  }

  /** The writer copies and publishes. */
  lemma {:induction false} PublishAll(s: State) returns (steps: seq<Step>)
    requires Shaped(s) && !s.writer.Away? && Done(s.writer) <= |Pending(s.writer)|
    ensures Legal(s, steps) && forall st :: st in steps ==> !st.Send?
    ensures var t, head := Final(s, steps), Slot(s.head, |Pending(s.writer)|, |s.storage|);
            && |t.storage| == |s.storage|
            && t == if s.writer.CopyHeader?
                    then s.(storage := t.storage, head := head, writer := CopyData(s.writer.m, 0))
                    else s.(storage := t.storage, head := head, writer := Away, sent := s.sent + [s.writer.m])
  {
    var copies := CopyAll(s);
    var t := Final(s, copies);
    assert Pending(t.writer) == Pending(s.writer);
    OneStep(t, Publish);
    Append(s, copies, [Publish]);
    steps := copies + [Publish];
  }

  /** The head once the whole frame of m is published. */
  function HeadAfter(s: State, m: seq<Byte>): nat {
    Slot(Slot(s.head, HEADER, |s.storage|), |m|, |s.storage|)
  }

  /** A send that finds space runs to its end. */
  lemma {:induction false} SendAll(s: State, m: seq<Byte>) returns (steps: seq<Step>)
    requires Enabled(s, Send(m)) && Required(m) <= Space(s.head, s.tail, |s.storage|)
    ensures Legal(s, [Send(m)] + steps) && forall st :: st in steps ==> !st.Send?
    ensures var t := Final(s, [Send(m)] + steps);
            |t.storage| == |s.storage| && t == s.(storage := t.storage, head := HeadAfter(s, m), sent := s.sent + [m])
  {
    var s1 := Apply(s, Send(m));
    var first := PublishAll(s1);
    var s2 := Final(s1, first);
    var second := PublishAll(s2);
    Append(s1, first, second);
    steps := first + second;
    OneStep(s, Send(m));
    Append(s, [Send(m)], steps);
  }

  lemma {:induction false} FramesLength(s: State)
    requires Inv(s) && s.reader.Undo? && s.writer.Away?
    ensures Frames(InFlight(s)) == Expected(s)
  {
    assert Expected(s) == Frames(InFlight(s)) + [];
  }

  /** Exactly the careless sends do harm: in a window of any careful run, a send
      that is accepted, run to its end before the tail is put back, leaves the
      buffer holding the messages sent and not taken iff it was careful. */
  lemma {:induction false} CarelessLosesData(s: State, m: seq<Byte>) returns (steps: seq<Step>)
    requires Inv(s) && s.reader.Undo? && Enabled(s, Send(m))
    requires Required(m) <= Space(s.head, s.tail, |s.storage|)
    ensures Legal(s, [Send(m)] + steps)
    ensures var t := Final(s, [Send(m)] + steps);
            && Shaped(t) && t.reader.Gone? && t.writer.Away? && t.sent == s.sent + [m] && t.taken == s.taken
            && (Careful(s, Send(m)) <==>
                View(t.storage, t.tail, Bytes(t.head, t.tail, |t.storage|)) == Frames(t.sent[|t.taken|..]))
  {
    var run := SendAll(s, m);
    var w := Final(s, [Send(m)] + run);
    OneStep(w, Restore);
    Append(s, [Send(m)] + run, [Restore]);
    steps := run + [Restore];
    assert [Send(m)] + run + [Restore] == [Send(m)] + steps;
    var t := Apply(w, Restore);
    assert t.sent[|t.taken|..] == InFlight(s) + [m];
    FramesAppend(InFlight(s), m);
    FramesLength(s);
    CountsAreExact(s);
    WindowOverstates(s);
    if Careful(s, Send(m)) {
      CarefulRunOf(s, m, run);
      RunKeeps(s, [Send(m)] + run);
      RestoreKeeps(w);
      CountsAreExact(t);
      assert Expected(t) == Frames(InFlight(t)) + [];
    }
  }

  /** Nothing after the first step of the send is a send. */
  lemma {:induction false} CarefulRunOf(s: State, m: seq<Byte>, run: seq<Step>)
    requires Legal(s, [Send(m)] + run) && Careful(s, Send(m))
    requires forall st :: st in run ==> !st.Send?
    ensures CarefulRun(s, [Send(m)] + run)
  {
    assert ([Send(m)] + run)[1..] == run;
    NoSends(Apply(s, Send(m)), run);
  }

  lemma {:induction false} NoSends(s: State, steps: seq<Step>)
    requires Legal(s, steps) && forall st :: st in steps ==> !st.Send?
    ensures CarefulRun(s, steps)
    decreases |steps|
  {
    if steps != [] {
      assert steps[0] in steps;
      NoSends(Apply(s, steps[0]), steps[1..]);
    }
  }

  // ---------------------------------------------------------------- a losing run

  lemma {:induction false} CarefulAppend(s: State, a: seq<Step>, b: seq<Step>)
    requires Legal(s, a) && CarefulRun(s, a) && Legal(Final(s, a), b) && CarefulRun(Final(s, a), b)
    ensures Legal(s, a + b) && CarefulRun(s, a + b)
    decreases |a|
  {
    Append(s, a, b);
    if a == [] {
      assert a + b == b;
    } else {
      assert (a + b)[1..] == a[1..] + b && (a + b)[0] == a[0];
      CarefulAppend(Apply(s, a[0]), a[1..], b);
    }
  }

  /** The reader copies out what it wants next. */
  lemma {:induction false} TakeAll(s: State) returns (steps: seq<Step>)
    requires Shaped(s) && Reading(s.reader) && |s.reader.got| <= Wanted(s.reader)
    ensures Legal(s, steps) && forall st :: st in steps ==> !st.Send?
    ensures var t := Final(s, steps);
            Reading(t.reader) && t == s.(reader := s.reader.(got := t.reader.got)) && |t.reader.got| == Wanted(s.reader)
    decreases Wanted(s.reader) - |s.reader.got|
  {
    if |s.reader.got| == Wanted(s.reader) {
      steps := [];
    } else {
      var t := Apply(s, TakeByte);
      var rest := TakeAll(t);
      steps := [TakeByte] + rest;
      OneStep(s, TakeByte);
      Append(s, [TakeByte], rest);
    }
  }

  /** The reader copies out the header of the next message. */
  lemma {:induction false} CopyHeaderOut(s: State, room: nat) returns (steps: seq<Step>)
    requires Inv(s) && s.reader.Gone? && s.writer.Away? && InFlight(s) != []
    ensures Legal(s, steps) && (forall st :: st in steps ==> !st.Send?) && Inv(Final(s, steps))
    ensures var t := Final(s, steps);
            && t == s.(reader := t.reader) && t.reader.ReadHeader? && t.reader.room == room
            && |t.reader.got| == Wanted(t.reader)
  {
    FrontFrame(s);
    CountsAreExact(s);
    NextSendable(s);
    var s1 := Apply(s, Receive(room));
    OneStep(s, Receive(room));
    ReceiveKeeps(s, room);
    var takes := TakeAll(s1);
    Append(s, [Receive(room)], takes);
    NoSends(s1, takes);
    RunKeeps(s1, takes);
    steps := [Receive(room)] + takes;
  }

  /** The reader reads the header of the next message and moves the tail. */
  lemma {:induction false} ReadHeaderAll(s: State, room: nat) returns (steps: seq<Step>)
    requires Inv(s) && s.reader.Gone? && s.writer.Away? && InFlight(s) != []
    ensures Legal(s, steps) && (forall st :: st in steps ==> !st.Send?) && Inv(Final(s, steps))
    ensures var t, m := Final(s, steps), InFlight(s)[0];
            && t.head == s.head && t.storage == s.storage && t.sent == s.sent && t.taken == s.taken
            && t.writer == s.writer
            && if |m| > room then t.reader == Undo(s.tail)
               else t.reader.ReadData? && t.reader.length == |m| && t.reader.got == []
  {
    var copied := CopyHeaderOut(s, room);
    var s2 := Final(s, copied);
    assert InFlight(s2) == InFlight(s);
    HeaderRead(s2);
    ReleaseHeaderKeeps(s2);
    OneStep(s2, Release);
    Append(s, copied, [Release]);
    steps := copied + [Release];
  }

  /** A receive with room for the next message takes it. */
  lemma {:induction false} ReceiveAll(s: State, room: nat) returns (steps: seq<Step>)
    requires Inv(s) && s.reader.Gone? && s.writer.Away? && InFlight(s) != [] && |InFlight(s)[0]| <= room
    ensures Legal(s, steps) && forall st :: st in steps ==> !st.Send?
    ensures var t := Final(s, steps);
            t.reader.Gone? && t.writer.Away? && t.sent == s.sent && t.taken == s.taken + [InFlight(s)[0]]
  {
    var header := ReadHeaderAll(s, room);
    var s1 := Final(s, header);
    assert InFlight(s1) == InFlight(s);
    var takes := TakeAll(s1);
    Append(s, header, takes);
    NoSends(s1, takes);
    RunKeeps(s1, takes);
    var s2 := Final(s1, takes);
    assert InFlight(s2) == InFlight(s);
    ReleaseDataDrops(s2);
    OneStep(s2, Release);
    Append(s, header + takes, [Release]);
    steps := header + takes + [Release];
  }

  /** The same state after other messages. */
  function After(s: State, sent: seq<seq<Byte>>, taken: seq<seq<Byte>>): State {
    s.(sent := sent + s.sent, taken := taken + s.taken)
  }

  /** What has gone before does not change what the code does. */
  lemma {:induction false} HistoryIsInert(s: State, steps: seq<Step>, sent: seq<seq<Byte>>, taken: seq<seq<Byte>>)
    requires Legal(s, steps)
    ensures Legal(After(s, sent, taken), steps)
    ensures Final(After(s, sent, taken), steps) == After(Final(s, steps), sent, taken)
    decreases |steps|
  {
    if steps != [] {
      var next := Apply(s, steps[0]);
      assert Apply(After(s, sent, taken), steps[0]) == After(next, sent, taken);
      HistoryIsInert(next, steps[1..], sent, taken);
    }
  }

  lemma {:induction false} EmptyInv(s: State)
    requires Shaped(s) && s.head == s.tail && s.writer.Away? && s.reader.Gone? && s.sent == [] && s.taken == []
    ensures Inv(s) && Expected(s) == []
  {
    assert Expected(s) == Frames([]) + [];
  }

  lemma {:induction false} CreatedInv(storage: seq<Byte>)
    requires storage != []
    ensures Inv(Created(storage))
  {
    EmptyInv(Created(storage));
  }

  /** A careful run into a window, with one message in the buffer. */
  lemma {:induction false} ReachWindow(storage: seq<Byte>, m: seq<Byte>) returns (steps: seq<Step>)
    requires Sendable(m) && Required(m) < |storage|
    ensures Legal(Created(storage), steps) && CarefulRun(Created(storage), steps)
    ensures var s := Final(Created(storage), steps);
            && Inv(s) && s.reader.Undo? && s.writer.Away? && s.sent == [m] && s.taken == []
            && |s.storage| == |storage| && |Expected(s)| == Required(m)
  {
    var s := Created(storage);
    CreatedInv(storage);
    CountsAreExact(s);
    EmptyInv(s);
    var send := SendAll(s, m);
    CarefulRunOf(s, m, send);
    RunKeeps(s, [Send(m)] + send);
    var s1 := Final(s, [Send(m)] + send);
    assert InFlight(s1) == [m];
    var read := ReadHeaderAll(s1, 0);
    NoSends(s1, read);
    Append(s, [Send(m)] + send, read);
    CarefulAppend(s, [Send(m)] + send, read);
    steps := [Send(m)] + send + read;
    var t := Final(s, steps);
    FramesLength(t);
    assert InFlight(t) == [m];
    assert Frames([m]) == Frame(m) + Frames([m][1..]);
  }

  /** The send that fills the ring exactly makes it look empty. */
  lemma {:induction false} LooksEmpty(s: State, m: seq<Byte>)
    requires Inv(s) && s.reader.Undo? && Sendable(m)
    requires |Expected(s)| + Required(m) == |s.storage|
    ensures HeadAfter(s, m) == Base(s)
    ensures Required(m) <= Space(s.head, s.tail, |s.storage|) && !Careful(s, Send(m))
  {
    CountsAreExact(s);
    WindowOverstates(s);
  }

  /** A run that is not careful and loses data: first is received with no room for
      it, second is sent in the window and fills the ring, third is sent after it;
      the next receive is given third, and first and second are gone. */
  lemma {:induction false} LosingRun(storage: seq<Byte>, first: seq<Byte>, second: seq<Byte>, third: seq<Byte>)
    returns (steps: seq<Step>)
    requires Sendable(first) && Sendable(second) && Sendable(third)
    requires Required(first) + Required(second) == |storage| && Required(third) < |storage|
    ensures Legal(Created(storage), steps)
    ensures var s := Final(Created(storage), steps);
            s.reader.Gone? && s.writer.Away? && s.sent == [first, second, third] && s.taken == [third]
  {
    var s0 := Created(storage);
    var window := ReachWindow(storage, first);
    var s1 := Final(s0, window);
    LooksEmpty(s1, second);
    var lose := SendAndRestore(s1, second);
    Append(s0, window, lose);
    var s2 := Final(s1, lose);
    var empty := s2.(sent := [], taken := []);
    var more := SendAndTake(empty, third);
    HistoryIsInert(empty, more, [first, second], []);
    assert After(empty, [first, second], []) == s2;
    Append(s0, window + lose, more);
    steps := window + lose + more;
  }

  lemma {:induction false} SendAndRestore(s: State, m: seq<Byte>) returns (steps: seq<Step>)
    requires Shaped(s) && s.reader.Undo? && s.writer.Away? && Sendable(m) && Base(s) < |s.storage|
    requires Required(m) <= Space(s.head, s.tail, |s.storage|) && HeadAfter(s, m) == Base(s)
    ensures Legal(s, steps)
    ensures var t := Final(s, steps);
            && t.head == t.tail && Shaped(t) && |t.storage| == |s.storage| && t.reader.Gone? && t.writer.Away?
            && t.sent == s.sent + [m] && t.taken == s.taken
  {
    var send := SendAll(s, m);
    var t := Final(s, [Send(m)] + send);
    OneStep(t, Restore);
    Append(s, [Send(m)] + send, [Restore]);
    steps := [Send(m)] + send + [Restore];
  }

  lemma {:induction false} SendAndTake(s: State, m: seq<Byte>) returns (steps: seq<Step>)
    requires Shaped(s) && s.head == s.tail && s.writer.Away? && s.reader.Gone? && s.sent == [] && s.taken == []
    requires Sendable(m) && Required(m) < |s.storage|
    ensures Legal(s, steps)
    ensures var t := Final(s, steps); t.reader.Gone? && t.writer.Away? && t.sent == [m] && t.taken == [m]
  {
    EmptyInv(s);
    CountsAreExact(s);
    var send := SendAll(s, m);
    CarefulRunOf(s, m, send);
    RunKeeps(s, [Send(m)] + send);
    var s1 := Final(s, [Send(m)] + send);
    assert InFlight(s1) == [m];
    var take := ReceiveAll(s1, |m|);
    Append(s, [Send(m)] + send, take);
    steps := [Send(m)] + send + take;
  }

  /** For instance: ten slots and three messages of one byte. */
  lemma {:induction false} LosingRunOfTenSlots() returns (steps: seq<Step>)
    ensures var storage := [0, 0, 0, 0, 0, 0, 0, 0, 0, 0];
            && Legal(Created(storage), steps)
            && var s := Final(Created(storage), steps);
               s.sent == [[7], [8], [9]] && s.taken == [[9]] && s.taken != s.sent[..|s.taken|]
  {
    steps := LosingRun([0, 0, 0, 0, 0, 0, 0, 0, 0, 0], [7], [8], [9]);
    var sent: seq<seq<Byte>> := [[7], [8], [9]];
    assert sent[..1][0] == [7] && [7] != [9];
  }
}
