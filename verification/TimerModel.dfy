/** The timer daemon of timers.c as functions on values.  Beside the fields the
    code has, a state carries what the code cannot see: the true (unbounded)
    tick of the last sample, the true time each queued command refers to, and
    the log of callbacks with their true expiry times. */
module TimerModel {
  import opened ListOrder

  // One more than the largest TickType_t: the tick counter wraps here.
  const TICK_RANGE: nat := 0x1_0000_0000

  type TimerId = nat

  datatype Timer = Timer(period: nat, autoReload: bool)

  /** A timer's list item: its owner and its expiry tick. */
  datatype Entry = Entry(timer: TimerId, value: nat)

  /** Start stands for the START, RESET and START_DONT_TRACE commands and their
      FromISR forms; Pended for a pended function call. */
  datatype Command =
    | Start(timer: TimerId, value: nat)
    | Stop(timer: TimerId)
    | ChangePeriod(timer: TimerId, value: nat)
    | Delete(timer: TimerId)
    | Pended

  datatype Queued = Queued(command: Command, reference: nat)

  /** One callback: the true time it was due and the true time it was made. */
  datatype Fire = Fire(timer: TimerId, due: nat, at: nat)

  datatype Daemon = Daemon(
    current: seq<Entry>,
    overflow: seq<Entry>,
    lastTime: nat,
    queue: seq<Queued>,
    timers: map<TimerId, Timer>,
    now: nat,
    log: seq<Fire>)

  datatype Placement = ProcessNow | IntoCurrent | IntoOverflow

  datatype Wait = NoWait | WaitTicks(ticks: nat) | WaitForever

  // ---------------------------------------------------------------- lists

  function Values(l: seq<Entry>): (v: seq<nat>)
    ensures |v| == |l|
    ensures forall i :: 0 <= i < |l| ==> v[i] == l[i].value
  {
    seq(|l|, i requires 0 <= i < |l| => l[i].value)
  }

  function Insert(l: seq<Entry>, e: Entry): seq<Entry> {
    Inserted(l, InsertionPoint(Values(l), e.value), e)
  }

  /** uxListRemove of a timer's item, wherever it is. */
  function Without(l: seq<Entry>, t: TimerId): seq<Entry> {
    if l == [] then []
    else if l[0].timer == t then l[1..]
    else [l[0]] + Without(l[1..], t)
  }

  function Count(l: seq<Entry>, t: TimerId): nat {
    if l == [] then 0 else (if l[0].timer == t then 1 else 0) + Count(l[1..], t)
  }

  /** The work left for prvSwitchTimerLists: how far the values in the list are
      from wrapping, in all. */
  function Remaining(l: seq<Entry>): nat
    requires forall e :: e in l ==> e.value < TICK_RANGE
  {
    if l == [] then 0 else TICK_RANGE - l[0].value + Remaining(l[1..])
  }

  lemma {:induction false} InsertedAt(l: seq<Entry>, k: nat, e: Entry, t: TimerId)
    requires k <= |l|
    ensures Count(Inserted(l, k, e), t) == Count(l, t) + if e.timer == t then 1 else 0
    ensures forall x :: x in Inserted(l, k, e) <==> x == e || x in l
    ensures e.value < TICK_RANGE && (forall x :: x in l ==> x.value < TICK_RANGE) ==>
              Remaining(Inserted(l, k, e)) == Remaining(l) + TICK_RANGE - e.value
  {
    var r := Inserted(l, k, e);
    assert r == l[..k] + [e] + l[k..] && l == l[..k] + l[k..];
    if k == 0 {
      assert r[1..] == l;
    } else {
      InsertedAt(l[1..], k - 1, e, t);
      assert r[1..] == Inserted(l[1..], k - 1, e);
    }
  }

  lemma {:induction false} WithoutIt(l: seq<Entry>, t: TimerId, u: TimerId)
    ensures Count(Without(l, t), u) ==
            if u == t && Count(l, t) > 0 then Count(l, u) - 1 else Count(l, u)
    ensures forall x :: x in Without(l, t) ==> x in l
    ensures Sorted(Values(l)) ==> Sorted(Values(Without(l, t)))
    ensures |Without(l, t)| <= |l|
  {
    if l != [] {
      var rest := Without(l[1..], t);
      WithoutIt(l[1..], t, u);
      if Sorted(Values(l)) {
        assert forall i :: 0 <= i < |l| - 1 ==> Values(l[1..])[i] == Values(l)[i + 1];
        if l[0].timer != t {
          forall i | 0 <= i < |rest|
            ensures l[0].value <= rest[i].value
          {
            assert rest[i] in l[1..];
          }
          assert Without(l, t) == [l[0]] + rest;
          assert forall i :: 0 < i <= |rest| ==> Values(Without(l, t))[i] == Values(rest)[i - 1];
        }
      }
    }
  }

  lemma {:induction false} CountZero(l: seq<Entry>, t: TimerId)
    ensures Count(l, t) == 0 <==> forall x :: x in l ==> x.timer != t
  {
    if l != [] {
      CountZero(l[1..], t);
      assert forall x :: x in l <==> x == l[0] || x in l[1..];
    }
  }

  lemma InsertSorted(l: seq<Entry>, e: Entry)
    requires Sorted(Values(l))
    ensures Sorted(Values(Insert(l, e)))
  {
    InsertKeepsSorted(Values(l), e.value);
    assert Values(Insert(l, e)) == Inserted(Values(l), InsertionPoint(Values(l), e.value), e.value);
  }

  // ------------------------------------------------- the daemon, step by step

  function Epoch(t: nat): nat { t / TICK_RANGE }

  /** The true expiry of an entry of the current list, and of one of the
      overflow list: this epoch or the next. */
  function CurrentDue(s: Daemon, e: Entry): nat { Epoch(s.now) * TICK_RANGE + e.value }

  function OverflowDue(s: Daemon, e: Entry): nat { (Epoch(s.now) + 1) * TICK_RANGE + e.value }

  /** The decision of prvInsertTimerInActiveList. */
  function Classify(period: nat, expiry: nat, now: nat, command: nat): Placement {
    if expiry <= now then
      if (now - command) % TICK_RANGE >= period then ProcessNow else IntoOverflow
    else if now < command && expiry >= command then ProcessNow
    else IntoCurrent
  }

  function Place(s: Daemon, e: Entry, p: Placement): Daemon {
    match p
    case ProcessNow => s
    case IntoCurrent => s.(current := Insert(s.current, e))
    case IntoOverflow => s.(overflow := Insert(s.overflow, e))
  }

  /** xTimerGenericCommand with START_DONT_TRACE. */
  function SendReload(s: Daemon, t: TimerId, value: nat, reference: nat): Daemon {
    s.(queue := s.queue + [Queued(Start(t, value), reference)])
  }

  function Callback(s: Daemon, t: TimerId, due: nat, at: nat): Daemon {
    s.(log := s.log + [Fire(t, due, at)])
  }

  predicate Known(timers: map<TimerId, Timer>, l: seq<Entry>) {
    forall e :: e in l ==> e.value < TICK_RANGE && e.timer in timers && 0 < timers[e.timer].period < TICK_RANGE
  }

  /** The head of the current list leaves it and its callback is made. */
  function PopHead(s: Daemon, at: nat): Daemon
    requires s.current != []
  {
    var head := s.current[0];
    Callback(s.(current := s.current[1..]), head.timer, CurrentDue(s, head), at)
  }

  /** How prvSwitchTimerLists reloads a timer that expired at `value`: into the
      same list if the next expiry does not wrap, by a command otherwise. */
  function ReloadBeforeSwitch(s: Daemon, t: TimerId, value: nat, period: nat): (r: Daemon)
    requires Known(s.timers, s.current + [Entry(t, value)])
    ensures r == s.(current := r.current, queue := r.queue)
    ensures Known(r.timers, r.current)
    ensures Remaining(r.current) < Remaining(s.current) + TICK_RANGE - value
  {
    assert Entry(t, value) in s.current + [Entry(t, value)];
    var reload := (value + period) % TICK_RANGE;
    InsertedAt(s.current, InsertionPoint(Values(s.current), reload), Entry(t, reload), t);
    if reload > value then Place(s, Entry(t, reload), IntoCurrent)
    else SendReload(s, t, value, CurrentDue(s, Entry(t, value)))
  }

  /** One pass of the loop of prvSwitchTimerLists: it removes an entry or puts
      it back strictly later, so the work left shrinks. */
  function SwitchPass(s: Daemon, at: nat): (r: Daemon)
    requires s.current != [] && Known(s.timers, s.current)
    ensures Known(r.timers, r.current)
    ensures Remaining(r.current) < Remaining(s.current)
    ensures r == s.(current := r.current, queue := r.queue, log := r.log)
  {
    var head := s.current[0];
    var timer := s.timers[head.timer];
    var fired := PopHead(s, at);
    if timer.autoReload then ReloadBeforeSwitch(fired, head.timer, head.value, timer.period) else fired
  }

  function SwitchLists(s: Daemon, at: nat): (r: Daemon)
    requires Known(s.timers, s.current)
    ensures r == s.(current := s.overflow, overflow := [], queue := r.queue, log := r.log)
    decreases Remaining(s.current)
  {
    if s.current == [] then s.(current := s.overflow, overflow := [])
    else SwitchLists(SwitchPass(s, at), at)
  }

  /** prvSampleTimeNow at true tick n: the code sees n % TICK_RANGE. */
  function Sample(s: Daemon, n: nat): Daemon
    requires Known(s.timers, s.current)
  {
    var tick := n % TICK_RANGE;
    (if tick < s.lastTime then SwitchLists(s, n) else s).(lastTime := tick, now := n)
  }

  /** How prvProcessExpiredTimer reloads a timer that expired at `value`: a
      timer that has expired again already is reloaded by a command. */
  function ReloadExpired(s: Daemon, t: TimerId, value: nat, period: nat): Daemon {
    var expiry := (value + period) % TICK_RANGE;
    var p := Classify(period, expiry, s.lastTime, value);
    if p == ProcessNow then SendReload(s, t, value, CurrentDue(s, Entry(t, value)))
    else Place(s, Entry(t, expiry), p)
  }

  /** prvProcessExpiredTimer, with xTimeNow the last sample. */
  function ProcessExpired(s: Daemon): Daemon
    requires s.current != [] && s.current[0].timer in s.timers
  {
    var head := s.current[0];
    var timer := s.timers[head.timer];
    var removed := s.(current := s.current[1..]);
    var reloaded := if timer.autoReload then ReloadExpired(removed, head.timer, head.value, timer.period) else removed;
    Callback(reloaded, head.timer, CurrentDue(s, head), s.now)
  }

  /** prvGetNextExpireTime followed by prvProcessTimerOrBlockTask. */
  function LoopTop(s: Daemon, n: nat): (Daemon, Wait)
    requires Known(s.timers, s.current)
  {
    var tick := n % TICK_RANGE;
    var sampled := Sample(s, n);
    if tick < s.lastTime then (sampled, NoWait)
    else if s.current != [] && s.current[0].value <= tick then (ProcessExpired(sampled), NoWait)
    else
      var next := if s.current == [] then 0 else s.current[0].value;
      (sampled, if s.current == [] && s.overflow == [] then WaitForever
                else WaitTicks((next - tick) % TICK_RANGE))
  }

  /** The timer expired before its start was executed: call back, and reload an
      auto-reload timer by a command. */
  function FireStarted(s: Daemon, t: TimerId, expiry: nat, due: nat): Daemon
    requires t in s.timers
  {
    var fired := Callback(s, t, due, s.now);
    if s.timers[t].autoReload then SendReload(fired, t, expiry, due) else fired
  }

  /** START, RESET and START_DONT_TRACE of a timer that is in no list. */
  function ExecuteStart(s: Daemon, t: TimerId, value: nat, reference: nat): Daemon
    requires t in s.timers
  {
    var timer := s.timers[t];
    var expiry := (value + timer.period) % TICK_RANGE;
    var p := Classify(timer.period, expiry, s.lastTime, value);
    if p == ProcessNow then FireStarted(s, t, expiry, reference + timer.period)
    else Place(s, Entry(t, expiry), p)
  }

  /** CHANGE_PERIOD of a timer that is in no list. */
  function ExecuteChangePeriod(s: Daemon, t: TimerId, period: nat): Daemon
    requires t in s.timers
  {
    var changed := s.(timers := s.timers[t := s.timers[t].(period := period)]);
    var expiry := (s.lastTime + period) % TICK_RANGE;
    Place(changed, Entry(t, expiry), Classify(period, expiry, s.lastTime, s.lastTime))
  }

  /** A command takes effect, its timer being in no list. */
  function Execute(s: Daemon, q: Queued): Daemon
    requires !q.command.Pended? ==> q.command.timer in s.timers
  {
    match q.command
    case Start(t, value) => ExecuteStart(s, t, value, q.reference)
    case ChangePeriod(t, period) => ExecuteChangePeriod(s, t, period)
    case Stop(_) => s
    case Delete(_) => s
    case Pended => s
  }

  function Unlink(s: Daemon, t: TimerId): Daemon {
    if Count(s.current, t) > 0 then s.(current := Without(s.current, t))
    else s.(overflow := Without(s.overflow, t))
  }

  /** One pass of the loop of prvProcessReceivedCommands. */
  function Receive(s: Daemon, n: nat): Daemon
    requires s.queue != [] && Known(s.timers, s.current)
    requires !s.queue[0].command.Pended? ==> s.queue[0].command.timer in s.timers
  {
    var q := s.queue[0];
    var taken := s.(queue := s.queue[1..]);
    if q.command.Pended? then taken
    else
      WithoutIt(s.current, q.command.timer, q.command.timer);
      Execute(Sample(Unlink(taken, q.command.timer), n), q)
  }
}
