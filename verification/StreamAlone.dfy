/** What a blocking send or receive does in the handshake if nothing comes between
    its steps, and how a send that had to wait goes on. */
module StreamAlone {
  import opened Numbers
  import opened StreamModel
  import opened StreamHandshake

  /** The reader after data has come: told if it is registered and the trigger
      level is reached. */
  function Answered(s: State): State {
    if s.bytes >= s.trigger then TellReader(s) else s
  }

  /** A whole message, or a stretch of a stream, stored. */
  function Stored(s: State, n: nat): State {
    s.(bytes := s.bytes + n + s.hdr, frames := if s.hdr == 0 then s.frames else s.frames + [n], writer := WIdle)
  }

  /** From the comparison with the trigger level to the end of a send. */
  lemma {:induction false} AnswersAlone(s: State) returns (steps: seq<Step>)
    requires s.writer.WTest?
    ensures Legal(s, steps) && Final(s, steps) == Answered(s.(writer := WIdle))
  {
    if s.bytes >= s.trigger {
      var told := s.(writer := WNotify);
      assert Apply(s, Test) == told && Apply(told, NotifyReader) == Answered(s.(writer := WIdle));
      Step1(told, NotifyReader, []);
      Step1(s, Test, [NotifyReader] + []);
      steps := [Test] + ([NotifyReader] + []);
    } else {
      assert Apply(s, Test) == s.(writer := WIdle);
      Step1(s, Test, []);
      steps := [Test] + [];
    }
  }

  /** A send that has seen enough space. */
  lemma {:induction false} StoresAlone(s: State, n: nat) returns (steps: seq<Step>)
    requires s.writer == WReady(n, Free(s)) && 0 < n && n + s.hdr <= Free(s)
    ensures Legal(s, steps) && Final(s, steps) == Answered(Stored(s, n))
  {
    if s.hdr == 0 {
      var stored := s.(bytes := s.bytes + n, writer := WTest);
      assert Apply(s, Begin) == stored && stored.(writer := WIdle) == Stored(s, n);
      var rest := AnswersAlone(stored);
      Step1(s, Begin, rest);
      steps := [Begin] + rest;
    } else {
      var mid := s.(bytes := s.bytes + s.hdr, writer := WMid(n));
      var stored := s.(bytes := s.bytes + s.hdr + n, frames := s.frames + [n], writer := WTest);
      assert Apply(s, Begin) == mid && Apply(mid, Data) == stored && stored.(writer := WIdle) == Stored(s, n);
      var rest := AnswersAlone(stored);
      Step1(mid, Data, rest);
      Step1(s, Begin, [Data] + rest);
      steps := [Begin] + ([Data] + rest);
    }
  }

  /** A look at the space, and what follows from it. */
  lemma {:induction false} ChecksAlone(s: State, n: nat) returns (steps: seq<Step>)
    requires s.writer == WCheck(n) && 0 < n
    ensures Legal(s, steps)
    ensures Final(s, steps) ==
            if n + s.hdr <= Free(s) then Answered(Stored(s, n))
            else s.(wPending := false, wReg := true, writer := WWaiting(n, Free(s)))
  {
    if n + s.hdr <= Free(s) {
      var ready := s.(writer := WReady(n, Free(s)));
      assert Apply(s, SpaceCheck) == ready && Stored(ready, n) == Stored(s, n);
      var rest := StoresAlone(ready, n);
      Step1(s, SpaceCheck, rest);
      steps := [SpaceCheck] + rest;
    } else {
      assert Apply(s, SpaceCheck) == s.(wPending := false, wReg := true, writer := WWaiting(n, Free(s)));
      Step1(s, SpaceCheck, []);
      steps := [SpaceCheck] + [];
    }
  }

  /** A send with time to wait stores all its data and notifies a registered reader
      if the trigger level is reached, exactly if there is room; if not it waits,
      registered, and has stored nothing. */
  lemma {:induction false} SendAlone(s: State, n: nat) returns (steps: seq<Step>)
    requires s.writer.WIdle? && 0 < n
    ensures Legal(s, steps)
    ensures var r := Final(s, steps);
            if n + s.hdr <= Free(s) then r == Answered(Stored(s, n))
            else WriterStuck(r) && r == s.(wPending := false, wReg := true, writer := WWaiting(n, Free(s)))
  {
    var checking := s.(writer := WCheck(n));
    assert Apply(s, Send(n, true)) == checking && Stored(checking, n) == Stored(s, n);
    var rest := ChecksAlone(checking, n);
    Step1(s, Send(n, true), rest);
    steps := [Send(n, true)] + rest;
  }

  /** A waiting send that has been notified looks again: it stores its data exactly
      if there is room now. */
  lemma {:induction false} ResumesAlone(s: State) returns (steps: seq<Step>)
    requires s.writer.WWaiting? && s.wPending && 0 < s.writer.n
    ensures Legal(s, steps)
    ensures var n, r := s.writer.n, Final(s, steps);
            r == if n + s.hdr <= Free(s) then Answered(Stored(s.(wReg := false, wPending := false), n))
                 else s.(wPending := false, wReg := true, writer := WWaiting(n, Free(s)))
  {
    var n := s.writer.n;
    var woken := s.(wPending := false, writer := WWoken(n, s.writer.space, false));
    var checking := s.(wReg := false, wPending := false, writer := WCheck(n));
    assert Apply(s, WriterWakes) == woken && Apply(woken, WriterClears) == checking;
    assert Stored(checking, n) == Stored(s.(wReg := false, wPending := false), n);
    var rest := ChecksAlone(checking, n);
    Step1(woken, WriterClears, rest);
    Step1(s, WriterWakes, [WriterClears] + rest);
    steps := [WriterWakes] + ([WriterClears] + rest);
  }

  /** How many bytes a receive with so much room takes. */
  function Fits(s: State, room: nat): nat
    requires s.hdr == 0 || s.frames != []
  {
    if s.hdr == 0 then Min(s.bytes, room) else if s.frames[0] <= room then s.hdr + s.frames[0] else 0
  }

  function WithoutFrame(s: State, room: nat): seq<nat>
    requires s.hdr == 0 || s.frames != []
  {
    if s.hdr == 0 || s.frames[0] > room then s.frames else s.frames[1..]
  }

  /** What a receive leaves, the reader being in a given place. */
  function Left(s: State, room: nat, reader: Reader): State
    requires s.hdr == 0 || s.frames != []
  {
    s.(bytes := if Fits(s, room) <= s.bytes then s.bytes - Fits(s, room) else 0, frames := WithoutFrame(s, room),
       reader := reader)
  }

  /** It notifies a registered writer exactly if it took anything. */
  function Received(s: State, room: nat): State
    requires s.hdr == 0 || s.frames != []
  {
    if Fits(s, room) > 0 then TellWriter(Left(s, room, RIdle)) else Left(s, room, RIdle)
  }

  lemma {:induction false} TellsWriter(s: State, room: nat)
    requires s.hdr == 0 || s.frames != []
    requires Fits(s, room) > 0
    ensures var telling := Left(s, room, RNotify);
            Legal(telling, [NotifyWriter] + []) && Final(telling, [NotifyWriter] + []) == Received(s, room)
  {
    var telling := Left(s, room, RNotify);
    assert Apply(telling, NotifyWriter) == Received(s, room);
    Step1(telling, NotifyWriter, []);
  }

  lemma {:induction false} TakesStretch(s: State, room: nat)
    requires s.hdr == 0 && s.reader == RReady(s.bytes)
    ensures Apply(s, Take(room)) == Left(s, room, if Fits(s, room) > 0 then RNotify else RIdle)
  {
  }

  lemma {:induction false} TakesFrame(s: State, room: nat)
    requires s.hdr != 0 && s.reader.RReady? && s.frames != [] && s.hdr + s.frames[0] <= s.bytes
    ensures if s.frames[0] > room then Apply(s, Take(room)) == Left(s, room, RIdle)
            else
              var mid := Apply(s, Take(room));
              Enabled(mid, Finish) && Apply(mid, Finish) == Left(s, room, RNotify)
  {
  }

  /** A receive that has found data takes what fits. */
  lemma {:induction false} TakesAlone(s: State, room: nat) returns (steps: seq<Step>)
    requires s.reader == RReady(s.bytes) && s.hdr < s.bytes && (s.hdr != 0 ==> s.frames != [])
    requires s.hdr != 0 ==> s.hdr + s.frames[0] <= s.bytes && 0 < s.frames[0]
    ensures Legal(s, steps) && Final(s, steps) == Received(s, room)
  {
    if Fits(s, room) > 0 { TellsWriter(s, room); }
    if s.hdr == 0 {
      TakesStretch(s, room);
      steps := if Fits(s, room) > 0 then [NotifyWriter] + [] else [];
      Step1(s, Take(room), steps);
      steps := [Take(room)] + steps;
    } else {
      TakesFrame(s, room);
      if s.frames[0] > room {
        Step1(s, Take(room), []);
        steps := [Take(room)] + [];
      } else {
        Step1(Apply(s, Take(room)), Finish, [NotifyWriter] + []);
        Step1(s, Take(room), [Finish] + ([NotifyWriter] + []));
        steps := [Take(room)] + ([Finish] + ([NotifyWriter] + []));
      }
    }
  }

  lemma {:induction false} FindsData(s: State, room: nat) returns (steps: seq<Step>)
    requires Inv(s) && s.reader.RCheck? && !s.writer.WMid? && s.hdr < s.bytes
    ensures s.hdr != 0 ==> s.frames != []
    ensures Legal(s, steps) && Final(s, steps) == Received(s, room)
  {
    if s.hdr != 0 { assert s.bytes == s.hdr + s.frames[0] + Total(s.frames[1..], s.hdr); }
    var ready := s.(reader := RReady(s.bytes));
    assert Apply(s, DataCheck) == ready && Received(ready, room) == Received(s, room);
    var rest := TakesAlone(ready, room);
    Step1(s, DataCheck, rest);
    steps := [DataCheck] + rest;
  }

  /** A receive with time to wait, from a reachable state with no send in flight,
      waits exactly if there is nothing to receive. */
  lemma {:induction false} ReceiveAlone(s: State, room: nat) returns (steps: seq<Step>)
    requires Inv(s) && s.reader.RIdle? && !s.writer.WMid?
    ensures Legal(s, steps)
    ensures s.hdr < s.bytes && s.hdr != 0 ==> s.frames != []
    ensures var r := Final(s, steps);
            if s.bytes <= s.hdr then ReaderStuck(r) && r == s.(rPending := false, rReg := true, reader := RWaiting)
            else r == Received(s, room)
  {
    var checking := s.(reader := RCheck);
    assert Apply(s, Receive(true)) == checking;
    ApplyKeeps(s, Receive(true));
    if s.bytes <= s.hdr {
      assert Apply(checking, DataCheck) == s.(rPending := false, rReg := true, reader := RWaiting);
      Step1(checking, DataCheck, []);
      steps := [DataCheck] + [];
    } else {
      steps := FindsData(checking, room);
      assert Received(checking, room) == Received(s, room);
    }
    Step1(s, Receive(true), steps);
    steps := [Receive(true)] + steps;
  }
}
