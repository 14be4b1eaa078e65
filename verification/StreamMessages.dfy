/** A message buffer with one writer and one reader, interleaved byte by byte
    and at each update of head and tail. */
module StreamMessages {
  import opened StreamModel
  import opened Sequences

  /** Where the writer is in xStreamBufferSend: copying the header or the data of
      m, of which the first k bytes are in place past the head. */
  datatype Writer =
    | Away
    | CopyHeader(m: seq<Byte>, k: nat)
    | CopyData(m: seq<Byte>, k: nat)

  /** Where the reader is in xStreamBufferReceive: room is the size of its
      buffer, avail the data bytes it counts on, got what it has copied out. */
  datatype Reader =
    | Gone
    | ReadHeader(room: nat, avail: nat, got: seq<Byte>)
    | ReadData(length: nat, avail: nat, got: seq<Byte>)
    | Undo(originalTail: nat)       // the message does not fit: the tail must go back

  datatype State = State(
    storage: seq<Byte>,
    head: nat,
    tail: nat,
    writer: Writer,
    reader: Reader,
    sent: seq<seq<Byte>>,           // the messages sent, in order
    taken: seq<seq<Byte>>)          // what the reader was given

  datatype Step = Send(m: seq<Byte>) | CopyByte | Publish | Receive(room: nat) | TakeByte | Release | Restore

  function Pending(w: Writer): seq<Byte> {
    match w
    case Away => []
    case CopyHeader(m, _) => Header(|m|)
    case CopyData(m, _) => m
  }

  function Done(w: Writer): nat {
    if w.Away? then 0 else w.k
  }

  /** How much the reader copies out before it moves the tail. */
  function Wanted(r: Reader): nat {
    match r
    case ReadHeader(_, _, _) => HEADER
    case ReadData(length, avail, _) => if avail < length then avail else length
    case _ => 0
  }

  predicate Shaped(s: State) {
    s.head < |s.storage| && s.tail < |s.storage|
  }

  function Required(m: seq<Byte>): nat { |m| + HEADER }

  predicate Sendable(m: seq<Byte>) { m != [] && Required(m) < SIZE_RANGE }

  predicate Reading(r: Reader) { r.ReadHeader? || r.ReadData? }

  predicate Enabled(s: State, st: Step) {
    && Shaped(s)
    && match st
       case Send(m) => s.writer.Away? && Sendable(m)
       case CopyByte => Done(s.writer) < |Pending(s.writer)|
       case Publish => !s.writer.Away? && Done(s.writer) == |Pending(s.writer)|
       case Receive(_) => s.reader.Gone?
       case TakeByte => Reading(s.reader) && |s.reader.got| < Wanted(s.reader)
       case Release => Reading(s.reader) && |s.reader.got| == Wanted(s.reader)
       case Restore => s.reader.Undo?
  }

  function BeginSend(s: State, m: seq<Byte>): State
    requires Shaped(s)
  {
    if Space(s.head, s.tail, |s.storage|) < Required(m) then s else s.(writer := CopyHeader(m, 0))
  }

  function CopyOne(s: State): State
    requires Enabled(s, CopyByte)
  {
    var k := s.writer.k;
    s.(storage := s.storage[Slot(s.head, k, |s.storage|) := Pending(s.writer)[k]],
       writer := s.writer.(k := k + 1))
  }

  function PublishHead(s: State): State
    requires Enabled(s, Publish)
  {
    var head := Slot(s.head, s.writer.k, |s.storage|);
    if s.writer.CopyHeader? then s.(head := head, writer := CopyData(s.writer.m, 0))
    else s.(head := head, writer := Away, sent := s.sent + [s.writer.m])
  }

  function BeginReceive(s: State, room: nat): State
    requires Shaped(s)
  {
    var avail := Bytes(s.head, s.tail, |s.storage|);
    if avail <= HEADER then s else s.(reader := ReadHeader(room, avail - HEADER, []))
  }

  function TakeOne(s: State): State
    requires Enabled(s, TakeByte)
  {
    s.(reader := s.reader.(got := s.reader.got + [s.storage[Slot(s.tail, |s.reader.got|, |s.storage|)]]))
  }

  function ReleaseTail(s: State): State
    requires Enabled(s, Release)
  {
    var got := s.reader.got;
    var tail := Slot(s.tail, |got|, |s.storage|);
    if s.reader.ReadData? then s.(tail := tail, reader := Gone, taken := s.taken + [got])
    else if Length(got) > s.reader.room then s.(tail := tail, reader := Undo(s.tail))
    else s.(tail := tail, reader := ReadData(Length(got), s.reader.avail, []))
  }

  function RestoreTail(s: State): State
    requires Enabled(s, Restore)
  {
    s.(tail := s.reader.originalTail, reader := Gone)
  }

  function Apply(s: State, st: Step): State
    requires Enabled(s, st)
  {
    match st
    case Send(m) => BeginSend(s, m)
    case CopyByte => CopyOne(s)
    case Publish => PublishHead(s)
    case Receive(room) => BeginReceive(s, room)
    case TakeByte => TakeOne(s)
    case Release => ReleaseTail(s)
    case Restore => RestoreTail(s)
  }

  // ------------------------------------------------------------- concatenations

  lemma DropFront(a: seq<Byte>, b: seq<Byte>)
    ensures (a + b)[|a|..] == b && (a + b)[..|a|] == a
  {}

  // ----------------------------------------------------------------- invariant

  /** The tail that bounds the data: in the undo window the published one has
      moved past a header that is still needed. */
  function Base(s: State): nat {
    if s.reader.Undo? then s.reader.originalTail else s.tail
  }

  function InFlight(s: State): seq<seq<Byte>> {
    if |s.taken| <= |s.sent| then s.sent[|s.taken|..] else []
  }

  /** What the published bytes from the base on must be. */
  function Expected(s: State): seq<Byte> {
    Whole(s) + Partial(s.writer)
  }

  function Whole(s: State): seq<Byte> {
    var ms := InFlight(s);
    if s.reader.ReadData? && ms != [] then ms[0] + Frames(ms[1..]) else Frames(ms)
  }

  function Partial(w: Writer): seq<Byte> {
    if w.CopyData? then Header(|w.m|) else []
  }

  /** The bytes the writer has still to publish. */
  function Reserve(w: Writer): nat {
    match w
    case Away => 0
    case CopyHeader(m, _) => Required(m)
    case CopyData(m, _) => |m|
  }

  function Copied(w: Writer): seq<Byte> {
    if Done(w) <= |Pending(w)| then Pending(w)[..Done(w)] else Pending(w)
  }

  ghost predicate RingOk(s: State) {
    && Shaped(s) && Done(s.writer) <= |Pending(s.writer)|
    && Holds(s.storage, s.head, Base(s), Expected(s), Copied(s.writer), Reserve(s.writer))
  }

  predicate Prefix(got: seq<Byte>, e: seq<Byte>) {
    |got| <= |e| && got == e[..|got|]
  }

  /** The reader's progress, against the messages in flight and the bytes e it
      can see. */
  predicate ReaderOk(r: Reader, ms: seq<seq<Byte>>, e: seq<Byte>) {
    match r
    case Gone => true
    case ReadHeader(_, avail, got) => ms != [] && avail >= |ms[0]| && |got| <= HEADER && Prefix(got, e)
    case ReadData(length, avail, got) =>
      ms != [] && length == |ms[0]| && avail >= length && |got| <= length && Prefix(got, e)
    case Undo(_) => ms != []
  }

  ghost predicate Inv(s: State) {
    && RingOk(s)
    && (s.reader.Undo? ==> s.tail == Slot(s.reader.originalTail, HEADER, |s.storage|))
    && (!s.writer.Away? ==> Sendable(s.writer.m))
    && (forall m :: m in s.sent ==> Sendable(m))
    && |s.taken| <= |s.sent| && s.taken == s.sent[..|s.taken|]
    && ReaderOk(s.reader, InFlight(s), Expected(s))
  }

  /** What the code counts is what is there. */
  lemma {:induction false} CountsAreExact(s: State)
    requires RingOk(s)
    ensures Bytes(s.head, Base(s), |s.storage|) == |Expected(s)|
    ensures View(s.storage, Base(s), |Expected(s)|) == Expected(s)
    ensures forall i :: 0 <= i < |Expected(s)| ==> s.storage[Slot(Base(s), i, |s.storage|)] == Expected(s)[i]
  {
    Counts(s.storage, s.head, Base(s), Expected(s), Copied(s.writer), Reserve(s.writer));
  }

  /** The next frame is at the front of the published bytes. */
  lemma {:induction false} FrontFrame(s: State)
    requires InFlight(s) != []
    ensures var m := InFlight(s)[0];
            if s.reader.ReadData? then |Expected(s)| >= |m| && Expected(s)[..|m|] == m
            else |Expected(s)| >= HEADER + |m| && Expected(s)[..HEADER] == Header(|m|)
  {}

  /** A step of the reader alone that leaves the data where it is. */
  lemma {:induction false} ReaderStep(s: State, after: State)
    requires Inv(s) && after == s.(reader := after.reader)
    requires !s.reader.Undo? && !after.reader.Undo?
    requires s.reader.ReadData? == after.reader.ReadData?
    requires ReaderOk(after.reader, InFlight(s), Expected(s))
    ensures Inv(after)
  {
    assert Expected(after) == Expected(s);
  }

  // --------------------------------------------------------------- writer steps

  /** What a send must not do while the tail is moved past a header that will be
      needed again: succeed only thanks to the four bytes of that header.  A caller
      who asks for four bytes more than it sends is always careful. */
  predicate Careful(s: State, st: Step)
    requires Shaped(s)
  {
    s.reader.Undo? && st.Send? ==>
      var space := Space(s.head, s.tail, |s.storage|);
      Required(st.m) <= space ==> Required(st.m) + HEADER <= space
  }

  /** In the window the code promises four bytes too many. */
  lemma {:induction false} WindowOverstates(s: State)
    requires Inv(s) && s.reader.Undo?
    ensures Space(s.head, s.tail, |s.storage|) == Space(s.head, Base(s), |s.storage|) + HEADER
  {
    CountsAreExact(s);
    FrontFrame(s);
  }

  lemma {:induction false} SendKeeps(s: State, m: seq<Byte>)
    requires Inv(s) && Enabled(s, Send(m)) && Careful(s, Send(m))
    ensures Inv(BeginSend(s, m))
  {
    CountsAreExact(s);
    if s.reader.Undo? { WindowOverstates(s); }
    var after := BeginSend(s, m);
    assert Expected(after) == Expected(s);
    assert Copied(after.writer) == [] == Copied(s.writer);
  }

  lemma CopyKeepsExpected(s: State)
    requires Enabled(s, CopyByte)
    ensures Expected(CopyOne(s)) == Expected(s) && Base(CopyOne(s)) == Base(s)
    ensures Reserve(CopyOne(s).writer) == Reserve(s.writer) && Pending(CopyOne(s).writer) == Pending(s.writer)
  {}

  lemma CopiedGrows(w: Writer)
    requires Done(w) < |Pending(w)|
    ensures var after := w.(k := w.k + 1);
            && Copied(after) == Copied(w) + [Pending(w)[w.k]] && Done(after) <= |Pending(after)|
            && |Copied(w)| == w.k && w.k < Reserve(w)
  {}

  lemma {:induction false} CopyKeepsRing(s: State)
    requires RingOk(s) && Enabled(s, CopyByte)
    ensures RingOk(CopyOne(s))
  {
    CopyKeepsExpected(s);
    CopiedGrows(s.writer);
    var after, c, b := CopyOne(s), Copied(s.writer), Pending(s.writer)[s.writer.k];
    CopyIn(s.storage, s.head, Base(s), Expected(s), c, Reserve(s.writer), b);
    assert after.storage == s.storage[Slot(s.head, |c|, |s.storage|) := b];
  }

  lemma {:induction false} CopyByteKeeps(s: State)
    requires Inv(s) && Enabled(s, CopyByte)
    ensures Inv(CopyOne(s))
  {
    CopyKeepsRing(s);
    CopyKeepsExpected(s);
    var after := CopyOne(s);
    assert InFlight(after) == InFlight(s) && after.reader == s.reader;
    assert ReaderOk(after.reader, InFlight(after), Expected(after));
  }

  /** Publishing appends to what the reader can see. */
  lemma {:induction false} PublishAppends(s: State)
    requires Inv(s) && Enabled(s, Publish)
    ensures InFlight(PublishHead(s)) == InFlight(s) + (if s.writer.CopyData? then [s.writer.m] else [])
    ensures Expected(PublishHead(s)) == Expected(s) + Pending(s.writer)
  {
    var after, ms, m := PublishHead(s), InFlight(s), s.writer.m;
    if s.writer.CopyData? {
      assert InFlight(after) == ms + [m];
      WholeGrows(s, after);
      assert Partial(after.writer) == [];
      Regroup(Whole(s), Header(|m|), m);
    } else {
      assert Whole(after) == Whole(s);
    }
  }

  lemma {:induction false} WholeGrows(s: State, after: State)
    requires s.writer.CopyData? && after.reader == s.reader
    requires InFlight(after) == InFlight(s) + [s.writer.m]
    requires s.reader.ReadData? ==> InFlight(s) != []
    ensures Whole(after) == Whole(s) + Frame(s.writer.m)
  {
    var ms, m := InFlight(s), s.writer.m;
    if s.reader.ReadData? {
      assert (ms + [m])[1..] == ms[1..] + [m];
      FramesAppend(ms[1..], m);
    } else {
      FramesAppend(ms, m);
    }
  }

  lemma {:induction false} PublishKeepsRing(s: State)
    requires RingOk(s) && Enabled(s, Publish)
    requires Expected(PublishHead(s)) == Expected(s) + Pending(s.writer)
    ensures RingOk(PublishHead(s))
  {
    var after, p := PublishHead(s), Pending(s.writer);
    assert Copied(s.writer) == p && Copied(after.writer) == [];
    MoveHead(s.storage, s.head, Base(s), Expected(s), p, Reserve(s.writer));
    assert Holds(s.storage, after.head, Base(s), Expected(s) + p, [], Reserve(after.writer));
  }

  lemma {:induction false} PublishKeeps(s: State)
    requires Inv(s) && Enabled(s, Publish)
    ensures Inv(PublishHead(s))
  {
    var after := PublishHead(s);
    PublishAppends(s);
    PublishKeepsRing(s);
    var more := if s.writer.CopyData? then [s.writer.m] else [];
    SeesMore(s.reader, InFlight(s), Expected(s), more, Pending(s.writer));
    assert ReaderOk(after.reader, InFlight(after), Expected(after));
    assert s.taken == after.sent[..|s.taken|];
  }

  // --------------------------------------------------------------- reader steps

  lemma {:induction false} ReceiveKeeps(s: State, room: nat)
    requires Inv(s) && Enabled(s, Receive(room))
    ensures Inv(BeginReceive(s, room))
  {
    CountsAreExact(s);
    var after := BeginReceive(s, room);
    assert Expected(after) == Expected(s);
    if |Expected(s)| > HEADER {
      assert InFlight(s) != [];
      FrontFrame(s);
    }
  }

  /** The byte the reader copies is the one meant. */
  lemma {:induction false} TakesNext(s: State)
    requires RingOk(s) && Enabled(s, TakeByte) && !s.reader.Undo? && |s.reader.got| < |Expected(s)|
    ensures TakeOne(s).reader == s.reader.(got := s.reader.got + [Expected(s)[|s.reader.got|]])
  {
    CountsAreExact(s);
    assert s.storage[Slot(s.tail, |s.reader.got|, |s.storage|)] == Expected(s)[|s.reader.got|];
  }

  lemma {:induction false} EnoughThere(s: State)
    requires ReaderOk(s.reader, InFlight(s), Expected(s)) && Reading(s.reader)
    ensures Wanted(s.reader) <= |Expected(s)|
  {
    FrontFrame(s);
  }

  lemma {:induction false} TakeByteKeeps(s: State)
    requires Inv(s) && Enabled(s, TakeByte)
    ensures Inv(TakeOne(s))
  {
    EnoughThere(s);
    TakesNext(s);
    Extends(s.reader, InFlight(s), Expected(s));
    ReaderStep(s, TakeOne(s));
  }

  lemma Extends(r: Reader, ms: seq<seq<Byte>>, e: seq<Byte>)
    requires ReaderOk(r, ms, e) && Reading(r) && |r.got| < |e| && |r.got| < Wanted(r)
    ensures ReaderOk(r.(got := r.got + [e[|r.got|]]), ms, e)
  {}

  /** More published bytes and messages do not disturb the reader. */
  lemma SeesMore(r: Reader, ms: seq<seq<Byte>>, e: seq<Byte>, ms': seq<seq<Byte>>, e': seq<Byte>)
    requires ReaderOk(r, ms, e)
    ensures ReaderOk(r, ms + ms', e + e')
  {}

  /** Moving the tail on drops the front of the published bytes. */
  lemma {:induction false} DropKeepsRing(s: State, after: State, k: nat)
    requires RingOk(s) && !s.reader.Undo? && !after.reader.Undo?
    requires k <= |Expected(s)| && Expected(after) == Expected(s)[k..]
    requires after.tail == Slot(s.tail, k, |s.storage|)
    requires after.storage == s.storage && after.head == s.head && after.writer == s.writer
    ensures RingOk(after)
  {
    MoveTail(s.storage, s.head, s.tail, Expected(s), Copied(s.writer), Reserve(s.writer), k);
  }

  lemma {:induction false} NextSendable(s: State)
    requires (forall m :: m in s.sent ==> Sendable(m)) && InFlight(s) != []
    ensures Sendable(InFlight(s)[0])
  {
    assert InFlight(s)[0] in s.sent;
  }

  lemma {:induction false} HeaderGot(s: State)
    requires ReaderOk(s.reader, InFlight(s), Expected(s)) && s.reader.ReadHeader? && |s.reader.got| == HEADER
    ensures s.reader.got == Header(|InFlight(s)[0]|)
  {
    FrontFrame(s);
  }

  /** The header the reader copied out is the length of the next message. */
  lemma {:induction false} HeaderRead(s: State)
    requires Inv(s) && Enabled(s, Release) && s.reader.ReadHeader?
    ensures InFlight(s) != [] && |InFlight(s)[0]| < SIZE_RANGE
    ensures |s.reader.got| == HEADER && Length(s.reader.got) == |InFlight(s)[0]|
  {
    NextSendable(s);
    HeaderGot(s);
    HeaderRoundTrip(|InFlight(s)[0]|);
  }

  /** After its header a frame is its message. */
  lemma {:induction false} AfterHeader(ms: seq<seq<Byte>>, rest: seq<Byte>)
    requires ms != []
    ensures Frames(ms) + rest == Header(|ms[0]|) + ((ms[0] + Frames(ms[1..])) + rest)
  {
    var h, m, f := Header(|ms[0]|), ms[0], Frames(ms[1..]);
    Regroup(h, m, f);
    Regroup(h, m + f, rest);
  }

  lemma {:induction false} ReleaseHeaderDrops(s: State)
    requires ReaderOk(s.reader, InFlight(s), Expected(s)) && Enabled(s, Release) && s.reader.ReadHeader?
    ensures var after := ReleaseTail(s);
            && HEADER <= |Expected(s)|
            && Expected(after) == (if after.reader.Undo? then Expected(s) else Expected(s)[HEADER..])
  {
    var ms := InFlight(s);
    var m, rest := ms[0], (ms[0] + Frames(ms[1..])) + Partial(s.writer);
    AfterHeader(ms, Partial(s.writer));
    DropFront(Header(|m|), rest);
    assert Expected(s) == Header(|m|) + rest;
  }

  lemma {:induction false} ReleaseHeaderKeeps(s: State)
    requires Inv(s) && Enabled(s, Release) && s.reader.ReadHeader?
    ensures Inv(ReleaseTail(s))
  {
    var after := ReleaseTail(s);
    HeaderRead(s);
    ReleaseHeaderDrops(s);
    if !after.reader.Undo? {
      DropKeepsRing(s, after, HEADER);
    }
    assert RingOk(after);
    assert InFlight(after) == InFlight(s);
    assert ReaderOk(after.reader, InFlight(s), Expected(after));
  }

  lemma TakenGrows(sent: seq<seq<Byte>>, taken: seq<seq<Byte>>)
    requires |taken| < |sent| && taken == sent[..|taken|]
    ensures taken + [sent[|taken|]] == sent[..|taken| + 1]
  {}

  lemma {:induction false} ReleaseDataDrops(s: State)
    requires ReaderOk(s.reader, InFlight(s), Expected(s)) && Enabled(s, Release) && s.reader.ReadData?
    requires |s.taken| < |s.sent|
    ensures var after, m := ReleaseTail(s), InFlight(s)[0];
            && s.reader.got == m && |m| <= |Expected(s)|
            && InFlight(after) == InFlight(s)[1..] && Expected(after) == Expected(s)[|m|..]
  {
    var after, ms := ReleaseTail(s), InFlight(s);
    var m, rest := ms[0], Frames(ms[1..]);
    Regroup(m, rest, Partial(s.writer));
    DropFront(m, rest + Partial(s.writer));
    assert Expected(s) == m + (rest + Partial(s.writer));
    assert InFlight(after) == ms[1..];
  }

  lemma {:induction false} ReleaseDataKeeps(s: State)
    requires Inv(s) && Enabled(s, Release) && s.reader.ReadData?
    ensures Inv(ReleaseTail(s))
  {
    var after, m := ReleaseTail(s), InFlight(s)[0];
    ReleaseDataDrops(s);
    TakenGrows(s.sent, s.taken);
    DropKeepsRing(s, after, |m|);
  }

  lemma {:induction false} RestoreKeeps(s: State)
    requires Inv(s) && Enabled(s, Restore)
    ensures Inv(RestoreTail(s))
  {
    assert Expected(RestoreTail(s)) == Expected(s);
  }

  // ----------------------------------------------------------------------- runs

  lemma {:induction false} ApplyKeeps(s: State, st: Step)
    requires Inv(s) && Enabled(s, st) && Careful(s, st)
    ensures Inv(Apply(s, st))
  {
    match st
    case Send(m) => SendKeeps(s, m);
    case CopyByte => CopyByteKeeps(s);
    case Publish => PublishKeeps(s);
    case Receive(room) => ReceiveKeeps(s, room);
    case TakeByte => TakeByteKeeps(s);
    case Release => if s.reader.ReadHeader? { ReleaseHeaderKeeps(s); } else { ReleaseDataKeeps(s); }
    case Restore => RestoreKeeps(s);
  }

  ghost predicate Legal(s: State, steps: seq<Step>)
    decreases |steps|
  {
    steps == [] || (Enabled(s, steps[0]) && Legal(Apply(s, steps[0]), steps[1..]))
  }

  ghost predicate CarefulRun(s: State, steps: seq<Step>)
    requires Legal(s, steps)
    decreases |steps|
  {
    steps == [] || (Careful(s, steps[0]) && CarefulRun(Apply(s, steps[0]), steps[1..]))
  }

  ghost function Final(s: State, steps: seq<Step>): State
    requires Legal(s, steps)
    decreases |steps|
  {
    if steps == [] then s else Final(Apply(s, steps[0]), steps[1..])
  }

  lemma {:induction false} RunKeeps(s: State, steps: seq<Step>)
    requires Inv(s) && Legal(s, steps) && CarefulRun(s, steps)
    ensures Inv(Final(s, steps))
    decreases |steps|
  {
    if steps != [] {
      ApplyKeeps(s, steps[0]);
      RunKeeps(Apply(s, steps[0]), steps[1..]);
    }
  }

  function Created(storage: seq<Byte>): State {
    State(storage, 0, 0, Away, Gone, [], [])
  }

  /** The reader is only ever given whole messages, in the order sent and byte
      for byte, none skipped; and the bytes published and not yet given back are
      exactly the frames in between, plus at most one header. */
  lemma {:induction false} WholeMessagesInOrder(storage: seq<Byte>, steps: seq<Step>)
    requires storage != [] && Legal(Created(storage), steps) && CarefulRun(Created(storage), steps)
    ensures var s := Final(Created(storage), steps);
            && Shaped(s) && |s.taken| <= |s.sent| && s.taken == s.sent[..|s.taken|]
            && (s.reader.Gone? && s.writer.Away? ==>
                  View(s.storage, s.tail, Bytes(s.head, s.tail, |s.storage|)) == Frames(s.sent[|s.taken|..]))
  {
    assert Expected(Created(storage)) == [];
    RunKeeps(Created(storage), steps);
    CountsAreExact(Final(Created(storage), steps));
  }

  /** The slots still to be read or being read, and those still to be written or
      being written, never overlap. */
  lemma {:induction false} NoOverlap(storage: seq<Byte>, steps: seq<Step>, i: nat, j: nat)
    requires storage != [] && Legal(Created(storage), steps) && CarefulRun(Created(storage), steps)
    requires var s := Final(Created(storage), steps);
             i < |Expected(s)| && j < Reserve(s.writer)
    ensures var s := Final(Created(storage), steps); Slot(Base(s), i, |s.storage|) != Slot(s.head, j, |s.storage|)
  {
    var s := Final(Created(storage), steps);
    assert Expected(Created(storage)) == [];
    RunKeeps(Created(storage), steps);
    SlotsDiffer(Base(s), i, |Expected(s)| + j, |s.storage|);
  }

  // ------------------------------------------------------ the undersized window

  /** A receive whose buffer is too small, with no send in the window, leaves
      tail, head and contents unchanged. */
  lemma {:induction false} TooSmallChangesNothing(s: State)
    requires Inv(s) && Enabled(s, Release) && s.reader.ReadHeader?
    requires InFlight(s) != [] && |InFlight(s)[0]| > s.reader.room
    ensures var w := Apply(s, Release);
            Enabled(w, Restore) && Apply(w, Restore) == s.(reader := Gone)
  {
    HeaderRead(s);
  }
}
