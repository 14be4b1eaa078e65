/** The notification handshake between the writer and the reader of a stream or
    message buffer, at the grain of its critical sections and of each update of
    head and tail. */
module StreamHandshake {
  import opened Numbers
  import opened StreamModel

  /** hdr is the size of a message header, zero for a stream buffer; n is always
      the length the writer was asked to send, space what it last saw free. */
  datatype Writer =
    | WIdle
    | WCheck(n: nat)                                  // about to look at the space
    | WWaiting(n: nat, space: nat)                    // in xTaskNotifyWait
    | WWoken(n: nat, space: nat, timedOut: bool)      // about to clear xTaskWaitingToSend
    | WReady(n: nat, space: nat)
    | WMid(n: nat)                                    // the header is published, the data is not
    | WTest                                           // about to compare with the trigger level
    | WNotify                                         // in sbSEND_COMPLETED

  datatype Reader =
    | RIdle
    | RCheck                                          // about to look for data
    | RWaiting                                        // in xTaskNotifyWait
    | RWoken                                          // about to clear xTaskWaitingToReceive
    | RLook                                           // about to look (again), not waiting
    | RReady(avail: nat)
    | RMid                                            // the header is consumed, the data is not
    | RNotify                                         // in sbRECEIVE_COMPLETED

  /** frames are the lengths of the whole messages held (message buffers only);
      rReg and wReg say that a task is registered as waiting, rPending and
      wPending that its notification is pending. */
  datatype State = State(hdr: nat, capacity: nat, bytes: nat, frames: seq<nat>, trigger: nat,
                         rReg: bool, rPending: bool, wReg: bool, wPending: bool,
                         writer: Writer, reader: Reader)

  datatype Step =
    | Send(n: nat, block: bool) | SpaceCheck | WriterWakes | WriterTimesOut | WriterClears
    | Begin | Data | Test | NotifyReader
    | Receive(block: bool) | DataCheck | ReaderWakes | ReaderTimesOut | ReaderClears
    | Look | Take(room: nat) | Finish | NotifyWriter
    | StrayToReader | StrayToWriter                   // notifications from anywhere else
    | SendCompletedFromISR | ReceiveCompletedFromISR
    | SetTrigger(level: nat)

  predicate Enabled(s: State, st: Step) {
    match st
    case Send(n, _) => s.writer.WIdle? && 0 < n
    case SpaceCheck => s.writer.WCheck?
    case WriterWakes => s.writer.WWaiting? && s.wPending
    case WriterTimesOut => s.writer.WWaiting?
    case WriterClears => s.writer.WWoken?
    case Begin => s.writer.WReady?
    case Data => s.writer.WMid?
    case Test => s.writer.WTest?
    case NotifyReader => s.writer.WNotify?
    case Receive(_) => s.reader.RIdle?
    case DataCheck => s.reader.RCheck?
    case ReaderWakes => s.reader.RWaiting? && s.rPending
    case ReaderTimesOut => s.reader.RWaiting?
    case ReaderClears => s.reader.RWoken?
    case Look => s.reader.RLook?
    case Take(_) => s.reader.RReady? && (s.hdr == 0 || s.frames != [])
    case Finish => s.reader.RMid? && s.frames != []
    case NotifyWriter => s.reader.RNotify?
    case SetTrigger(level) => 1 <= level && (ReaderStuck(s) && !Sending(s.writer) ==> s.bytes < level)
    case _ => true
  }

  function Free(s: State): nat {
    if s.bytes <= s.capacity then s.capacity - s.bytes else 0
  }

  /** A completion notifies whoever is registered and takes it off the record. */
  function TellReader(s: State): State {
    if s.rReg then s.(rReg := false, rPending := true) else s
  }

  function TellWriter(s: State): State {
    if s.wReg then s.(wReg := false, wPending := true) else s
  }

  function ApplyWriter(s: State, st: Step): State
    requires Enabled(s, st)
  {
    match st
    case Send(n, block) => s.(writer := if block then WCheck(n) else WReady(n, 0))
    case SpaceCheck =>
      if Free(s) < s.writer.n + s.hdr
      then s.(wPending := false, wReg := true, writer := WWaiting(s.writer.n, Free(s)))
      else s.(writer := WReady(s.writer.n, Free(s)))
    case WriterWakes => s.(wPending := false, writer := WWoken(s.writer.n, s.writer.space, false))
    case WriterTimesOut => s.(writer := WWoken(s.writer.n, s.writer.space, true))
    case WriterClears =>
      s.(wReg := false,
         writer := if s.writer.timedOut then WReady(s.writer.n, s.writer.space) else WCheck(s.writer.n))
    case Begin =>
      var n, space := s.writer.n, if s.writer.space == 0 then Free(s) else s.writer.space;
      if space == 0 || (s.hdr != 0 && space < n + s.hdr) then s.(writer := WIdle)
      else if s.hdr == 0 then s.(bytes := s.bytes + Min(n, space), writer := WTest)
      else s.(bytes := s.bytes + s.hdr, writer := WMid(n))
    case Data => s.(bytes := s.bytes + s.writer.n, frames := s.frames + [s.writer.n], writer := WTest)
    case Test => s.(writer := if s.bytes >= s.trigger then WNotify else WIdle)
    case NotifyReader => TellReader(s).(writer := WIdle)
    case _ => s
  }

  function ApplyReader(s: State, st: Step): State
    requires Enabled(s, st)
  {
    match st
    case Receive(block) => s.(reader := if block then RCheck else RLook)
    case DataCheck =>
      if s.bytes <= s.hdr then s.(rPending := false, rReg := true, reader := RWaiting)
      else s.(reader := RReady(s.bytes))
    case ReaderWakes => s.(rPending := false, reader := RWoken)
    case ReaderTimesOut => s.(reader := RWoken)
    case ReaderClears => s.(rReg := false, reader := RLook)
    case Look => s.(reader := if s.bytes > s.hdr then RReady(s.bytes) else RIdle)
    case Take(room) =>
      if s.hdr == 0 then
        var k := Min(Min(s.reader.avail, room), s.bytes);
        s.(bytes := s.bytes - k, reader := if k > 0 then RNotify else RIdle)
      else if s.frames[0] > room then s.(reader := RIdle)     // does not fit: left in place
      else s.(bytes := if s.bytes >= s.hdr then s.bytes - s.hdr else 0, reader := RMid)
    case Finish =>
      s.(bytes := if s.bytes >= s.frames[0] then s.bytes - s.frames[0] else 0,
         frames := s.frames[1..], reader := RNotify)
    case NotifyWriter => TellWriter(s).(reader := RIdle)
    case _ => s
  }

  function ApplyOther(s: State, st: Step): State
    requires Enabled(s, st)
  {
    match st
    case StrayToReader => s.(rPending := true)
    case StrayToWriter => s.(wPending := true)
    case SendCompletedFromISR => TellReader(s)
    case ReceiveCompletedFromISR => TellWriter(s)
    case SetTrigger(level) => s.(trigger := level)
    case _ => s
  }

  predicate IsWriters(st: Step) {
    st.Send? || st.SpaceCheck? || st.WriterWakes? || st.WriterTimesOut? || st.WriterClears?
    || st.Begin? || st.Data? || st.Test? || st.NotifyReader?
  }

  predicate IsReaders(st: Step) {
    st.Receive? || st.DataCheck? || st.ReaderWakes? || st.ReaderTimesOut? || st.ReaderClears?
    || st.Look? || st.Take? || st.Finish? || st.NotifyWriter?
  }

  function Apply(s: State, st: Step): State
    requires Enabled(s, st)
  {
    if IsWriters(st) then ApplyWriter(s, st) else if IsReaders(st) then ApplyReader(s, st) else ApplyOther(s, st)
  }

  // ----------------------------------------------------------------- invariant

  /** The bytes of whole messages with their headers. */
  function Total(frames: seq<nat>, hdr: nat): nat {
    if frames == [] then 0 else hdr + frames[0] + Total(frames[1..], hdr)
  }

  lemma {:induction false} TotalAppend(frames: seq<nat>, hdr: nat, n: nat)
    ensures Total(frames + [n], hdr) == Total(frames, hdr) + hdr + n
  {
    if frames == [] {
      assert frames + [n] == [n];
    } else {
      assert (frames + [n])[1..] == frames[1..] + [n];
      TotalAppend(frames[1..], hdr, n);
    }
  }

  predicate Asking(w: Writer) {
    w.WCheck? || w.WWaiting? || w.WWoken? || w.WReady? || w.WMid?
  }

  /** A message buffer holds whole frames, but for a header just published or
      just consumed. */
  predicate Framed(s: State) {
    s.hdr != 0 ==>
      && s.bytes + (if s.reader.RMid? then s.hdr else 0)
         == Total(s.frames, s.hdr) + (if s.writer.WMid? then s.hdr else 0)
      && (s.reader.RReady? || s.reader.RMid? ==> s.frames != [])
      && (forall i :: 0 <= i < |s.frames| ==> 0 < s.frames[i])
      && (Asking(s.writer) ==> 0 < s.writer.n)
  }

  /** A send is in flight: published bytes have not been answered for yet. */
  predicate Sending(w: Writer) { w.WMid? || w.WTest? || w.WNotify? }

  predicate Receiving(r: Reader) { r.RMid? || r.RNotify? }

  predicate ReaderStuck(s: State) { s.reader.RWaiting? && !s.rPending }

  predicate WriterStuck(s: State) { s.writer.WWaiting? && !s.wPending }

  predicate ReaderSide(s: State) {
    && 1 <= s.trigger
    && (s.rReg ==> s.reader.RWaiting? || s.reader.RWoken?)
    && (s.reader.RWaiting? ==> s.rReg || s.rPending)
    && (ReaderStuck(s) && !Sending(s.writer) ==> s.bytes < s.trigger)
  }

  predicate WriterSide(s: State) {
    && (s.wReg ==> s.writer.WWaiting? || s.writer.WWoken?)
    && (s.writer.WWaiting? ==> s.wReg || s.wPending)
    && (s.wReg && !Receiving(s.reader) ==> Free(s) < s.writer.n + s.hdr)
  }

  /** What the writer has seen free is still free, and what it has begun to publish
      has room; so the buffer never holds more than its capacity. */
  predicate Bounded(s: State) {
    && s.bytes <= s.capacity
    && (s.writer.WWaiting? || s.writer.WWoken? || s.writer.WReady? ==> s.writer.space <= Free(s))
    && (s.writer.WMid? ==> s.bytes + s.writer.n <= s.capacity)
  }

  predicate Inv(s: State) {
    Framed(s) && ReaderSide(s) && WriterSide(s) && Bounded(s)
  }

  lemma {:induction false} DataKeepsFramed(s: State)
    requires Inv(s) && Enabled(s, Data)
    ensures Framed(ApplyWriter(s, Data)) && Bounded(ApplyWriter(s, Data))
  {
    TotalAppend(s.frames, s.hdr, s.writer.n);
  }

  lemma {:induction false} BeginKeepsFramed(s: State)
    requires Inv(s) && Enabled(s, Begin)
    ensures Framed(ApplyWriter(s, Begin))
  {
  }

  /** A step of the writer that publishes nothing leaves the frames alone. */
  lemma {:induction false} WriterSpares(s: State, st: Step)
    requires Enabled(s, st) && IsWriters(st) && !st.Begin? && !st.Data?
    ensures var r := ApplyWriter(s, st);
            && r.hdr == s.hdr && r.bytes == s.bytes && r.frames == s.frames && r.reader == s.reader
            && r.capacity == s.capacity
            && !s.writer.WMid? && !r.writer.WMid?
            && (Asking(r.writer) ==> if st.Send? then r.writer.n > 0 else Asking(s.writer) && r.writer.n == s.writer.n)
  {
  }

  lemma {:induction false} WriterKeepsFramed(s: State, st: Step)
    requires Inv(s) && Enabled(s, st) && IsWriters(st)
    ensures Framed(ApplyWriter(s, st))
  {
    if st.Data? {
      DataKeepsFramed(s);
    } else if st.Begin? {
      BeginKeepsFramed(s);
    } else {
      WriterSpares(s, st);
    }
  }

  lemma {:induction false} WriterKeepsBounded(s: State, st: Step)
    requires Inv(s) && Enabled(s, st) && IsWriters(st)
    ensures Bounded(ApplyWriter(s, st))
  {
  }

  lemma {:induction false} WriterKeeps(s: State, st: Step)
    requires Inv(s) && Enabled(s, st) && IsWriters(st)
    ensures ReaderSide(ApplyWriter(s, st)) && WriterSide(ApplyWriter(s, st))
  {
  }

  /** A reader of a message buffer that finds no more than a header with no send
      in flight finds nothing. */
  lemma {:induction false} NoFrameIfShort(s: State)
    requires Framed(s) && s.hdr != 0 && s.frames != []
    ensures s.hdr < Total(s.frames, s.hdr)
  {
    assert 0 < s.frames[0];
  }

  lemma {:induction false} TakeKeepsFramed(s: State, room: nat)
    requires Inv(s) && Enabled(s, Take(room))
    ensures Framed(ApplyReader(s, Take(room)))
  {
  }

  lemma {:induction false} FinishKeepsFramed(s: State)
    requires Inv(s) && Enabled(s, Finish)
    ensures Framed(ApplyReader(s, Finish))
  {
  }

  /** A step of the reader that consumes nothing leaves the frames alone. */
  lemma {:induction false} ReaderSpares(s: State, st: Step)
    requires Enabled(s, st) && IsReaders(st) && !st.Take? && !st.Finish?
    ensures var r := ApplyReader(s, st);
            && r.hdr == s.hdr && r.bytes == s.bytes && r.frames == s.frames && r.writer == s.writer
            && r.capacity == s.capacity
            && !s.reader.RMid? && !r.reader.RMid? && (r.reader.RReady? ==> s.bytes > s.hdr)
  {
  }

  lemma {:induction false} ReaderKeepsFramed(s: State, st: Step)
    requires Inv(s) && Enabled(s, st) && IsReaders(st)
    ensures Framed(ApplyReader(s, st))
  {
    match st
    case Take(room) => TakeKeepsFramed(s, room);
    case Finish => FinishKeepsFramed(s);
    case _ => ReaderSpares(s, st);
  }

  lemma {:induction false} ReaderKeepsBounded(s: State, st: Step)
    requires Inv(s) && Enabled(s, st) && IsReaders(st)
    ensures Bounded(ApplyReader(s, st))
  {
  }

  lemma {:induction false} ReaderKeeps(s: State, st: Step)
    requires Inv(s) && Enabled(s, st) && IsReaders(st)
    ensures ReaderSide(ApplyReader(s, st)) && WriterSide(ApplyReader(s, st))
  {
    if s.hdr != 0 && s.frames != [] {
      NoFrameIfShort(s);
    }
  }

  lemma {:induction false} OtherKeeps(s: State, st: Step)
    requires Inv(s) && Enabled(s, st)
    ensures Inv(ApplyOther(s, st))
  {
  }

  lemma {:induction false} ApplyKeeps(s: State, st: Step)
    requires Inv(s) && Enabled(s, st)
    ensures Inv(Apply(s, st))
  {
    if IsWriters(st) {
      WriterKeepsFramed(s, st);
      WriterKeepsBounded(s, st);
      WriterKeeps(s, st);
    } else if IsReaders(st) {
      ReaderKeepsFramed(s, st);
      ReaderKeepsBounded(s, st);
      ReaderKeeps(s, st);
    } else {
      OtherKeeps(s, st);
    }
  }

  ghost predicate Legal(s: State, steps: seq<Step>)
    decreases |steps|
  {
    steps == [] || (Enabled(s, steps[0]) && Legal(Apply(s, steps[0]), steps[1..]))
  }

  ghost function Final(s: State, steps: seq<Step>): State
    requires Legal(s, steps)
    decreases |steps|
  {
    if steps == [] then s else Final(Apply(s, steps[0]), steps[1..])
  }

  lemma {:induction false} RunKeeps(s: State, steps: seq<Step>)
    requires Inv(s) && Legal(s, steps)
    ensures Inv(Final(s, steps))
    decreases |steps|
  {
    if steps != [] {
      ApplyKeeps(s, steps[0]);
      RunKeeps(Apply(s, steps[0]), steps[1..]);
    }
  }

  function Created(hdr: nat, capacity: nat, trigger: nat): State {
    State(hdr, capacity, 0, [], if trigger == 0 then 1 else trigger, false, false, false, false, WIdle, RIdle)
  }

  /** Whatever stray or stale notifications there were: a reader that waits
      without a notification while no send is in flight waits for good reason,
      and so does a writer while no receive is in flight. */
  lemma {:induction false} NoLostWakeUp(hdr: nat, capacity: nat, trigger: nat, steps: seq<Step>)
    requires Legal(Created(hdr, capacity, trigger), steps)
    ensures var s := Final(Created(hdr, capacity, trigger), steps);
            && (ReaderStuck(s) && !Sending(s.writer) ==> s.rReg && s.bytes < s.trigger)
            && (WriterStuck(s) && !Receiving(s.reader) ==> s.wReg && Free(s) < s.writer.n + s.hdr)
  {
    RunKeeps(Created(hdr, capacity, trigger), steps);
  }

  /** Both wait for each other only if the message could not fit beside the
      bytes the reader is content to leave unread. */
  lemma {:induction false} BothStuckOnlyIfTooBig(hdr: nat, capacity: nat, trigger: nat, steps: seq<Step>)
    requires Legal(Created(hdr, capacity, trigger), steps)
    requires var s := Final(Created(hdr, capacity, trigger), steps);
             ReaderStuck(s) && WriterStuck(s)
    ensures var s := Final(Created(hdr, capacity, trigger), steps);
            s.capacity < (s.trigger - 1) + s.writer.n + s.hdr
  {
    RunKeeps(Created(hdr, capacity, trigger), steps);
  }

  /** A reader and a writer never register over one already registered, as the
      code asserts. */
  lemma {:induction false} RegistersOnce(hdr: nat, capacity: nat, trigger: nat, steps: seq<Step>)
    requires Legal(Created(hdr, capacity, trigger), steps)
    ensures var s := Final(Created(hdr, capacity, trigger), steps);
            (s.reader.RCheck? ==> !s.rReg) && (s.writer.WCheck? ==> !s.wReg)
  {
    RunKeeps(Created(hdr, capacity, trigger), steps);
  }

  // -------------------------------------------------------------- trigger levels

  /** A reader that waits without a notification, with no send in flight, has less
      to read than the trigger level; and a writer that does, with no receive in
      flight, has too little space. */
  predicate WaitsForGoodReason(s: State) {
    && (ReaderStuck(s) && !Sending(s.writer) ==> s.bytes < s.trigger)
    && (WriterStuck(s) && !Receiving(s.reader) ==> Free(s) < s.writer.n + s.hdr)
  }

  /** So it stays in every run from here. */
  ghost predicate Harmless(s: State) {
    forall steps | Legal(s, steps) :: WaitsForGoodReason(Final(s, steps))
  }

  /** Changing the trigger level is harmless in every run from then on, exactly
      unless a reader is stuck on that many bytes with no send in flight. */
  lemma {:induction false} TriggerChange(s: State, level: nat)
    requires Inv(s) && 1 <= level
    ensures Harmless(s.(trigger := level)) <==> !(ReaderStuck(s) && !Sending(s.writer) && level <= s.bytes)
  {
    var r := s.(trigger := level);
    if ReaderStuck(s) && !Sending(s.writer) && level <= s.bytes {
      assert Legal(r, []) && Final(r, []) == r && !WaitsForGoodReason(r);
    } else {
      assert Inv(r);
      forall steps | Legal(r, steps) ensures WaitsForGoodReason(Final(r, steps)) {
        RunKeeps(r, steps);
      }
    }
  }

  lemma {:induction false} Step1(s: State, st: Step, rest: seq<Step>)
    requires Enabled(s, st) && Legal(Apply(s, st), rest)
    ensures Legal(s, [st] + rest) && Final(s, [st] + rest) == Final(Apply(s, st), rest)
  {
    assert ([st] + rest)[1..] == rest;
  }

  /** A level is reached in some run exactly if the capacity, one less than the
      length of the buffer, allows it. */
  lemma {:induction false} LevelReachedIff(hdr: nat, capacity: nat, trigger: nat, level: nat)
    requires hdr < capacity && trigger <= capacity
    ensures (exists steps :: Legal(Created(hdr, capacity, trigger), steps)
                             && level <= Final(Created(hdr, capacity, trigger), steps).bytes)
            <==> level <= capacity
  {
    var s := Created(hdr, capacity, trigger);
    if level <= capacity {
      var steps := FillBuffer(s);
      assert Legal(s, steps) && level <= Final(s, steps).bytes;
    }
    forall steps | Legal(s, steps) ensures Final(s, steps).bytes <= capacity {
      RunKeeps(s, steps);
      RunKeepsCapacity(s, steps);
    }
  }

  lemma {:induction false} WriterKeepsCapacity(s: State, st: Step)
    requires Enabled(s, st)
    ensures ApplyWriter(s, st).capacity == s.capacity
  {
  }

  lemma {:induction false} ReaderKeepsCapacity(s: State, st: Step)
    requires Enabled(s, st)
    ensures ApplyReader(s, st).capacity == s.capacity
  {
  }

  lemma {:induction false} ApplyKeepsCapacity(s: State, st: Step)
    requires Enabled(s, st)
    ensures Apply(s, st).capacity == s.capacity
  {
    if IsWriters(st) { WriterKeepsCapacity(s, st); } else if IsReaders(st) { ReaderKeepsCapacity(s, st); }
  }

  lemma {:induction false} RunKeepsCapacity(s: State, steps: seq<Step>)
    requires Legal(s, steps)
    ensures Final(s, steps).capacity == s.capacity
    decreases |steps|
  {
    if steps != [] {
      ApplyKeepsCapacity(s, steps[0]);
      RunKeepsCapacity(Apply(s, steps[0]), steps[1..]);
    }
  }

  lemma {:induction false} FillStream(s: State) returns (steps: seq<Step>)
    requires s.hdr == 0 < s.capacity && s.bytes == 0 && s.writer == WReady(s.capacity, 0)
    ensures Legal(s, steps) && Final(s, steps) == s.(bytes := s.capacity, writer := WTest)
  {
    assert Apply(s, Begin) == s.(bytes := s.capacity, writer := WTest);
    steps := [Begin] + [];
    Step1(s, Begin, []);
  }

  lemma {:induction false} FillFrame(s: State) returns (steps: seq<Step>)
    requires 0 < s.hdr < s.capacity && s.bytes == 0 && s.frames == [] && s.writer == WReady(s.capacity - s.hdr, 0)
    ensures Legal(s, steps)
    ensures Final(s, steps) == s.(bytes := s.capacity, writer := WTest, frames := [s.capacity - s.hdr])
  {
    var n := s.capacity - s.hdr;
    var s2 := s.(bytes := s.hdr, writer := WMid(n));
    assert Apply(s, Begin) == s2;
    assert Apply(s2, Data) == s.(bytes := s.capacity, frames := [n], writer := WTest);
    steps := [Begin] + ([Data] + []);
    Step1(s2, Data, []);
    Step1(s, Begin, [Data] + []);
  }

  /** A send that fills an empty buffer, up to the comparison with the trigger level. */
  lemma {:induction false} FillBuffer(s: State) returns (steps: seq<Step>)
    requires s.hdr < s.capacity && s.bytes == 0 && s.frames == [] && s.writer.WIdle?
    ensures Legal(s, steps)
    ensures var frames := if s.hdr == 0 then [] else [s.capacity - s.hdr];
            Final(s, steps) == s.(bytes := s.capacity, writer := WTest, frames := frames)
  {
    var n := s.capacity - s.hdr;
    var s1 := s.(writer := WReady(n, 0));
    assert Apply(s, Send(n, false)) == s1;
    var rest: seq<Step>;
    if s.hdr == 0 { rest := FillStream(s1); } else { rest := FillFrame(s1); }
    Step1(s, Send(n, false), rest);
    steps := [Send(n, false)] + rest;
  }

  lemma {:induction false} Append(s: State, a: seq<Step>, b: seq<Step>)
    requires Legal(s, a) && Legal(Final(s, a), b)
    ensures Legal(s, a + b) && Final(s, a + b) == Final(Final(s, a), b)
    decreases |a|
  {
    if a == [] {
      assert a + b == b;
    } else {
      assert (a + b)[1..] == a[1..] + b && (a + b)[0] == a[0];
      Append(Apply(s, a[0]), a[1..], b);
    }
  }

  /** The step does not notify the reader from outside, end its wait or change the
      trigger level. */
  predicate LeavesReader(st: Step) {
    !st.StrayToReader? && !st.SendCompletedFromISR? && !st.ReaderTimesOut? && !st.SetTrigger?
  }

  predicate LeaveReader(steps: seq<Step>) {
    forall i :: 0 <= i < |steps| ==> LeavesReader(steps[i])
  }

  /** With a level above the capacity no send notifies the reader. */
  lemma {:induction false} StaysStuck(s: State, st: Step)
    requires Inv(s) && s.capacity < s.trigger && ReaderStuck(s) && !s.writer.WNotify?
    requires Enabled(s, st) && LeavesReader(st)
    ensures ReaderStuck(Apply(s, st)) && !Apply(s, st).writer.WNotify? && Apply(s, st).trigger == s.trigger
  {}

  /** So it waits for ever: in every run in which nothing else notifies it and its
      wait has no end, whatever is sent. */
  lemma {:induction false} TooHighNeverNotifies(s: State, steps: seq<Step>)
    requires Inv(s) && s.capacity < s.trigger && ReaderStuck(s) && !s.writer.WNotify?
    requires Legal(s, steps) && LeaveReader(steps)
    ensures ReaderStuck(Final(s, steps))
    decreases |steps|
  {
    if steps != [] {
      var next := Apply(s, steps[0]);
      StaysStuck(s, steps[0]);
      ApplyKeeps(s, steps[0]);
      ApplyKeepsCapacity(s, steps[0]);
      TooHighNeverNotifies(next, steps[1..]);
    }
  }

  /** A send that fills the buffer without reaching the level. */
  lemma {:induction false} FillUnnoticed(s: State) returns (steps: seq<Step>)
    requires s.hdr < s.capacity < s.trigger && s.bytes == 0 && s.frames == [] && s.writer.WIdle?
    ensures Legal(s, steps)
    ensures var n := s.capacity - s.hdr;
            Final(s, steps) == s.(bytes := s.capacity, frames := if s.hdr == 0 then [] else [n])
  {
    var fill := FillBuffer(s);
    var full := Final(s, fill);
    assert Apply(full, Test) == full.(writer := WIdle);
    Step1(full, Test, []);
    Append(s, fill, [Test] + []);
    steps := fill + ([Test] + []);
  }

  /** xStreamBufferSetTriggerLevel accepts one level too many: with the level at
      the length of the buffer, a reader waits on a buffer that is full, with no
      notification and no send in flight, and goes on to wait. */
  lemma {:induction false} StuckOnFullBuffer(hdr: nat, capacity: nat) returns (steps: seq<Step>)
    requires hdr < capacity
    ensures Legal(Created(hdr, capacity, 1), steps)
    ensures var s := Final(Created(hdr, capacity, 1), steps);
            ReaderStuck(s) && s.writer.WIdle? && s.trigger == capacity + 1 && Free(s) == 0
            && forall more | Legal(s, more) && LeaveReader(more) :: ReaderStuck(Final(s, more))
  {
    var s := Created(hdr, capacity, 1);
    var s1 := s.(trigger := capacity + 1);
    var s2 := s1.(reader := RCheck);
    var s3 := s1.(reader := RWaiting, rReg := true);
    assert Apply(s, SetTrigger(capacity + 1)) == s1 && Apply(s1, Receive(true)) == s2 && Apply(s2, DataCheck) == s3;
    var fill := FillUnnoticed(s3);
    Step1(s2, DataCheck, fill);
    Step1(s1, Receive(true), [DataCheck] + fill);
    Step1(s, SetTrigger(capacity + 1), [Receive(true)] + ([DataCheck] + fill));
    steps := [SetTrigger(capacity + 1)] + ([Receive(true)] + ([DataCheck] + fill));
    RunKeeps(s, steps);
    var full := Final(s, steps);
    forall more | Legal(full, more) && LeaveReader(more) ensures ReaderStuck(Final(full, more)) {
      TooHighNeverNotifies(full, more);
    }
  }
}
