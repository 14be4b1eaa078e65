/** What the timer daemon guarantees: wrap-around classification is exact, and
    over every run it keeps each timer's expiry times without loss or drift. */
module TimerRuns {
  import opened ListOrder
  import opened Sequences
  import opened TimerModel

  // ------------------------------------------------ wrap-around classification

  /** A command referring to true time c, executed at true time n less than one
      tick range later, is classified by true times alone. */
  lemma {:induction false} ClassifyExact(c: nat, n: nat, p: nat)
    requires c <= n < c + TICK_RANGE && 0 < p < TICK_RANGE
    ensures var placement := Classify(p, (c + p) % TICK_RANGE, n % TICK_RANGE, c % TICK_RANGE);
            && (placement == ProcessNow <==> c + p <= n)
            && (placement == IntoCurrent <==> c + p > n && Epoch(c + p) == Epoch(n))
            && (placement == IntoOverflow <==> c + p > n && Epoch(c + p) == Epoch(n) + 1)
  {
    var ec, en := Epoch(c), Epoch(n);
    assert en == ec || en == ec + 1;
    assert Epoch(c + p) == ec || Epoch(c + p) == ec + 1;
  }

  /** The bound is tight: executed exactly one tick range late, every command is
      misjudged, although its timer has expired. */
  lemma {:induction false} ClassifyAtTheBound(c: nat, p: nat)
    requires 0 < p < TICK_RANGE
    ensures var n := c + TICK_RANGE;
            c + p <= n && Classify(p, (c + p) % TICK_RANGE, n % TICK_RANGE, c % TICK_RANGE) != ProcessNow
  {
  }

  /** A change of period takes effect now, so it never asks for a callback. */
  lemma {:induction false} ChangePeriodNeverNow(n: nat, p: nat)
    requires 0 < p < TICK_RANGE
    ensures Classify(p, (n % TICK_RANGE + p) % TICK_RANGE, n % TICK_RANGE, n % TICK_RANGE) != ProcessNow
  {
    ClassifyExact(n, n, p);
  }

  // --------------------------------------------------------- state invariant

  ghost predicate QueueOk(timers: map<TimerId, Timer>, queue: seq<Queued>) {
    forall q :: q in queue && !q.command.Pended? ==>
      && q.command.timer in timers
      && (q.command.Start? ==> q.command.value == q.reference % TICK_RANGE)
      && (q.command.ChangePeriod? ==> 0 < q.command.value < TICK_RANGE)
  }

  ghost predicate ListsOk(s: Daemon) {
    && Known(s.timers, s.current) && Known(s.timers, s.overflow)
    && Sorted(Values(s.current)) && Sorted(Values(s.overflow))
    && (forall t :: t in s.timers ==> 0 < s.timers[t].period < TICK_RANGE)
    && (forall t :: Count(s.current, t) + Count(s.overflow, t) <= 1)
    && QueueOk(s.timers, s.queue)
  }

  ghost predicate Inv(s: Daemon) {
    ListsOk(s) && s.lastTime == s.now % TICK_RANGE
  }

  lemma {:induction false} DropHead(l: seq<Entry>)
    requires l != [] && Sorted(Values(l))
    ensures Sorted(Values(l[1..]))
    ensures forall x :: x in l[1..] ==> x in l && l[0].value <= x.value
  {
    assert forall i :: 0 <= i < |l| - 1 ==> Values(l[1..])[i] == Values(l)[i + 1];
    forall x | x in l[1..]
      ensures l[0].value <= x.value
    {
      var i :| 0 <= i < |l| - 1 && l[1..][i] == x;
      assert Values(l)[0] <= Values(l)[i + 1];
    }
  }

  /** The true time at which the task wakes for prvGetNextExpireTime's answer: in
      this epoch for an entry, at the wrap of the tick if there is none. */
  ghost function NextWakeUp(s: Daemon, next: nat, listWasEmpty: bool): nat {
    (if listWasEmpty then Epoch(s.now) + 1 else Epoch(s.now)) * TICK_RANGE + next
  }

  ghost predicate NothingDueBefore(s: Daemon, at: nat) {
    && (forall e :: e in s.current ==> at <= CurrentDue(s, e))
    && (forall e :: e in s.overflow ==> at <= OverflowDue(s, e))
  }

  /** The head of the current list is the first expiry of both lists. */
  lemma {:induction false} HeadIsDueFirst(s: Daemon)
    requires Inv(s) && s.current != []
    ensures NothingDueBefore(s, CurrentDue(s, s.current[0]))
  {
    DropHead(s.current);
    assert forall e :: e in s.current ==> e == s.current[0] || e in s.current[1..];
  }

  lemma {:induction false} HeadRemovedOk(s: Daemon)
    requires ListsOk(s) && s.current != []
    ensures ListsOk(s.(current := s.current[1..]))
    ensures Count(s.current[1..], s.current[0].timer) == Count(s.overflow, s.current[0].timer) == 0
  {
    DropHead(s.current);
    forall t
      ensures Count(s.current[1..], t) <= Count(s.current, t)
    {
    }
  }

  lemma {:induction false} PlacedOk(s: Daemon, e: Entry, p: Placement)
    requires ListsOk(s) && e.timer in s.timers && e.value < TICK_RANGE
    requires Count(s.current, e.timer) == Count(s.overflow, e.timer) == 0
    ensures ListsOk(Place(s, e, p))
  {
    var r := Place(s, e, p);
    forall t
      ensures Count(r.current, t) + Count(r.overflow, t) <= 1
      ensures Known(s.timers, r.current) && Known(s.timers, r.overflow)
    {
      InsertedAt(s.current, InsertionPoint(Values(s.current), e.value), e, t);
      InsertedAt(s.overflow, InsertionPoint(Values(s.overflow), e.value), e, t);
    }
    InsertSorted(s.current, e);
    InsertSorted(s.overflow, e);
  }

  /** The tick the code sees of a true time in a given epoch. */
  lemma {:induction false} TickOf(epoch: nat, value: nat)
    requires value < TICK_RANGE
    ensures (epoch * TICK_RANGE + value) % TICK_RANGE == value
    ensures Epoch(epoch * TICK_RANGE + value) == epoch
  {
  }

  lemma {:induction false} QueuedOk(s: Daemon, t: TimerId, value: nat, reference: nat)
    requires ListsOk(s) && t in s.timers && value == reference % TICK_RANGE
    ensures ListsOk(SendReload(s, t, value, reference))
  {
  }

  lemma {:induction false} ReloadBeforeSwitchOk(s: Daemon, t: TimerId, value: nat, period: nat)
    requires ListsOk(s) && Known(s.timers, s.current + [Entry(t, value)])
    requires Count(s.current, t) == Count(s.overflow, t) == 0
    ensures ListsOk(ReloadBeforeSwitch(s, t, value, period))
  {
    var reload := (value + period) % TICK_RANGE;
    assert Entry(t, value) in s.current + [Entry(t, value)];
    if reload > value {
      PlacedOk(s, Entry(t, reload), IntoCurrent);
    } else {
      TickOf(Epoch(s.now), value);
      QueuedOk(s, t, value, CurrentDue(s, Entry(t, value)));
    }
  }

  lemma {:induction false} PlacedInv(s: Daemon, e: Entry, p: Placement)
    requires Inv(s) && e.timer in s.timers && e.value < TICK_RANGE
    requires Count(s.current, e.timer) == Count(s.overflow, e.timer) == 0
    ensures Inv(Place(s, e, p)) && Place(s, e, p).queue == s.queue
  {
    PlacedOk(s, e, p);
  }

  lemma {:induction false} SwitchPassOk(s: Daemon, at: nat)
    requires ListsOk(s) && s.current != []
    ensures ListsOk(SwitchPass(s, at))
  {
    var head := s.current[0];
    HeadRemovedOk(s);
    var fired := PopHead(s, at);
    assert ListsOk(fired);
    ReloadBeforeSwitchOk(fired, head.timer, head.value, s.timers[head.timer].period);
  }

  // ------------------------------------------------ one timer, left alone

  /** A timer, auto-reload or one-shot, started at true time `start` with the
      given period when the log was `from` long. */
  datatype Watch = Watch(timer: TimerId, start: nat, period: nat, from: nat, auto: bool)

  function DueOf(w: Watch, k: nat): nat { w.start + (k + 1) * w.period }

  lemma {:induction false} DueNext(w: Watch, k: nat)
    ensures DueOf(w, k + 1) == DueOf(w, k) + w.period
  {
    assert (k + 2) * w.period == (k + 1) * w.period + w.period;
  }

  function FiresOf(log: seq<Fire>, t: TimerId): seq<Fire> {
    if log == [] then []
    else FiresOf(log[..|log| - 1], t) + if log[|log| - 1].timer == t then [log[|log| - 1]] else []
  }

  function Fires(s: Daemon, w: Watch): seq<Fire>
    requires w.from <= |s.log|
  {
    FiresOf(s.log[w.from..], w.timer)
  }

  /** The timer's callbacks so far are for its first expiry times, each once, in
      order, and none was early. */
  ghost predicate History(s: Daemon, w: Watch) {
    && w.from <= |s.log|
    && w.timer in s.timers && s.timers[w.timer] == Timer(w.period, w.auto)
    && forall i :: 0 <= i < |Fires(s, w)| ==> Fires(s, w)[i].due == DueOf(w, i) <= Fires(s, w)[i].at
  }

  function Next(s: Daemon, w: Watch): nat
    requires w.from <= |s.log|
  {
    DueOf(w, |Fires(s, w)|)
  }

  predicate Targets(c: Command, t: TimerId) {
    !c.Pended? && c.timer == t
  }

  function Commands(queue: seq<Queued>, t: TimerId): nat {
    if queue == [] then 0 else (if Targets(queue[0].command, t) then 1 else 0) + Commands(queue[1..], t)
  }

  /** The timer is mentioned n times in the lists and the command queue, and
      every mention stands for the true expiry time `next`. */
  ghost predicate Tokens(s: Daemon, t: TimerId, period: nat, next: nat, n: nat) {
    && Count(s.current, t) + Count(s.overflow, t) + Commands(s.queue, t) == n
    && (forall e :: e in s.current && e.timer == t ==> CurrentDue(s, e) == next)
    && (forall e :: e in s.overflow && e.timer == t ==> OverflowDue(s, e) == next)
    && (forall q :: q in s.queue && Targets(q.command, t) ==> q.command.Start? && q.reference + period == next)
  }

  /** The timer is pending exactly once, for the expiry after its last callback;
      or nowhere, while its command is being executed. */
  ghost predicate Tracks(s: Daemon, w: Watch, n: nat) {
    History(s, w) && Tokens(s, w.timer, w.period, Next(s, w), n)
  }

  /** How often a timer mentioned n times is still mentioned after so many
      callbacks: an auto-reload timer as often, a one-shot timer no more. */
  function Left(w: Watch, fired: int, n: nat): nat {
    if w.auto || fired == 0 then n else 0
  }

  /** From s to r, in which the timer is mentioned n times unless it was a one-shot
      timer that has fired: only a timer that is mentioned fires, and a one-shot
      timer fires once. */
  ghost predicate Follows(s: Daemon, r: Daemon, w: Watch, n: nat) {
    && w.from <= |s.log| && w.from <= |r.log|
    && var fired := |Fires(r, w)| - |Fires(s, w)|;
       && fired >= 0 && (!w.auto ==> fired <= n)
       && (n == 0 ==> Fires(r, w) == Fires(s, w))
       && Tracks(r, w, Left(w, fired, n))
  }

  lemma {:induction false} FollowsOn(s: Daemon, r: Daemon, t: Daemon, w: Watch, n: nat)
    requires Follows(s, r, w, n) && n <= 1
    requires Follows(r, t, w, Left(w, |Fires(r, w)| - |Fires(s, w)|, n))
    ensures Follows(s, t, w, n)
  {
  }

  lemma {:induction false} Unfired(s: Daemon, r: Daemon, w: Watch, n: nat)
    requires w.from <= |s.log| && r.log == s.log && Tracks(r, w, n)
    ensures Follows(s, r, w, n)
  {
  }

  lemma {:induction false} Fired(s: Daemon, w: Watch, f: Fire)
    requires History(s, w)
    requires f.timer == w.timer ==> f.due == Next(s, w) <= f.at
    ensures var r := s.(log := s.log + [f]);
            && History(r, w) && Next(r, w) == Next(s, w) + (if f.timer == w.timer then w.period else 0)
            && Fires(r, w) == Fires(s, w) + if f.timer == w.timer then [f] else []
  {
    var log := (s.log + [f])[w.from..];
    assert log[..|log| - 1] == s.log[w.from..] && log[|log| - 1] == f;
    DueNext(w, |Fires(s, w)|);
  }

  lemma {:induction false} CommandsAppend(queue: seq<Queued>, q: Queued, t: TimerId)
    ensures Commands(queue + [q], t) == Commands(queue, t) + if Targets(q.command, t) then 1 else 0
  {
    if queue != [] {
      CommandsAppend(queue[1..], q, t);
      assert (queue + [q])[1..] == queue[1..] + [q];
    }
  }

  lemma {:induction false} CommandsInserted(queue: seq<Queued>, i: nat, q: Queued, t: TimerId)
    requires i <= |queue|
    ensures Commands(Inserted(queue, i, q), t) == Commands(queue, t) + if Targets(q.command, t) then 1 else 0
    ensures forall x :: x in Inserted(queue, i, q) <==> x == q || x in queue
  {
    var r := Inserted(queue, i, q);
    assert r == queue[..i] + [q] + queue[i..] && queue == queue[..i] + queue[i..];
    if i == 0 {
      assert r[1..] == queue;
    } else {
      CommandsInserted(queue[1..], i - 1, q, t);
      assert r[1..] == Inserted(queue[1..], i - 1, q);
    }
  }

  lemma {:induction false} NoCommands(queue: seq<Queued>, t: TimerId)
    ensures Commands(queue, t) == 0 <==> forall q :: q in queue ==> !Targets(q.command, t)
  {
    if queue != [] {
      NoCommands(queue[1..], t);
      assert forall q :: q in queue <==> q == queue[0] || q in queue[1..];
    }
  }

  /** Without a mention the expected expiry may be renamed. */
  lemma {:induction false} TokensNone(s: Daemon, t: TimerId, period: nat, next: nat, other: nat)
    requires Tokens(s, t, period, next, 0)
    ensures Tokens(s, t, period, other, 0)
  {
    CountZero(s.current, t);
    CountZero(s.overflow, t);
    NoCommands(s.queue, t);
  }

  lemma {:induction false} TokensHead(s: Daemon, t: TimerId, period: nat, next: nat, n: nat)
    requires Tokens(s, t, period, next, n) && s.current != []
    ensures s.current[0].timer == t ==> n > 0
    ensures Tokens(s.(current := s.current[1..]), t, period, next, n - if s.current[0].timer == t then 1 else 0)
  {
    assert forall e :: e in s.current[1..] ==> e in s.current;
  }

  lemma {:induction false} TokensPlaced(s: Daemon, e: Entry, p: Placement, t: TimerId, period: nat, next: nat, n: nat)
    requires Tokens(s, t, period, next, n) && p != ProcessNow
    requires e.timer == t ==> next == if p == IntoCurrent then CurrentDue(s, e) else OverflowDue(s, e)
    ensures Tokens(Place(s, e, p), t, period, next, n + if e.timer == t then 1 else 0)
  {
    InsertedAt(s.current, InsertionPoint(Values(s.current), e.value), e, t);
    InsertedAt(s.overflow, InsertionPoint(Values(s.overflow), e.value), e, t);
  }

  lemma {:induction false} TokensQueued(s: Daemon, q: Queued, t: TimerId, period: nat, next: nat, n: nat)
    requires Tokens(s, t, period, next, n)
    requires Targets(q.command, t) ==> q.command.Start? && q.reference + period == next
    ensures Tokens(s.(queue := s.queue + [q]), t, period, next, n + if Targets(q.command, t) then 1 else 0)
  {
    CommandsAppend(s.queue, q, t);
  }

  lemma {:induction false} PlacedTracks(s: Daemon, e: Entry, p: Placement, w: Watch, n: nat)
    requires Tracks(s, w, n) && p != ProcessNow
    requires e.timer == w.timer ==> Next(s, w) == if p == IntoCurrent then CurrentDue(s, e) else OverflowDue(s, e)
    ensures Tracks(Place(s, e, p), w, n + if e.timer == w.timer then 1 else 0)
  {
    TokensPlaced(s, e, p, w.timer, w.period, Next(s, w), n);
  }

  lemma {:induction false} ReloadSentTracks(s: Daemon, t: TimerId, value: nat, reference: nat, w: Watch, n: nat)
    requires Tracks(s, w, n)
    requires t == w.timer ==> reference + w.period == Next(s, w)
    ensures Tracks(SendReload(s, t, value, reference), w, n + if t == w.timer then 1 else 0)
  {
    TokensQueued(s, Queued(Start(t, value), reference), w.timer, w.period, Next(s, w), n);
  }

  lemma {:induction false} PopHeadTracks(s: Daemon, at: nat, w: Watch, n: nat)
    requires Tracks(s, w, n) && s.current != [] && CurrentDue(s, s.current[0]) <= at
    requires n <= 1
    ensures Tracks(PopHead(s, at), w, if s.current[0].timer == w.timer then 0 else n)
    ensures var r := PopHead(s, at);
            && (s.current[0].timer == w.timer ==> Next(r, w) == CurrentDue(s, s.current[0]) + w.period)
            && |Fires(r, w)| == |Fires(s, w)| + (if s.current[0].timer == w.timer then 1 else 0)
            && (s.current[0].timer == w.timer ==> n == 1) && (n == 0 ==> Fires(r, w) == Fires(s, w))
  {
    var head := s.current[0];
    var removed := s.(current := s.current[1..]);
    TokensHead(s, w.timer, w.period, Next(s, w), n);
    Fired(removed, w, Fire(head.timer, CurrentDue(s, head), at));
    if head.timer == w.timer {
      TokensNone(removed, w.timer, w.period, Next(s, w), Next(PopHead(s, at), w));
    }
  }

  lemma {:induction false} ReloadValue(value: nat, period: nat)
    requires value < TICK_RANGE && 0 < period < TICK_RANGE
    ensures var reload := (value + period) % TICK_RANGE;
            reload > value <==> reload == value + period
  {
  }

  lemma {:induction false} ReloadBeforeSwitchTracks(s: Daemon, t: TimerId, value: nat, period: nat, w: Watch, n: nat)
    requires Tracks(s, w, n) && Known(s.timers, s.current + [Entry(t, value)]) && 0 < period < TICK_RANGE
    requires t == w.timer ==> period == w.period && Next(s, w) == CurrentDue(s, Entry(t, value)) + period
    ensures Tracks(ReloadBeforeSwitch(s, t, value, period), w, n + if t == w.timer then 1 else 0)
  {
    assert Entry(t, value) in s.current + [Entry(t, value)];
    var reload := (value + period) % TICK_RANGE;
    ReloadValue(value, period);
    if reload > value {
      PlacedTracks(s, Entry(t, reload), IntoCurrent, w, n);
    } else {
      ReloadSentTracks(s, t, value, CurrentDue(s, Entry(t, value)), w, n);
    }
  }

  lemma {:induction false} SwitchPassTracks(s: Daemon, at: nat, w: Watch, n: nat)
    requires ListsOk(s) && s.current != [] && Tracks(s, w, n) && n <= 1
    requires (Epoch(s.now) + 1) * TICK_RANGE <= at
    ensures Follows(s, SwitchPass(s, at), w, n)
  {
    var head := s.current[0];
    PopHeadTracks(s, at, w, n);
    if s.timers[head.timer].autoReload {
      ReloadBeforeSwitchTracks(PopHead(s, at), head.timer, head.value, s.timers[head.timer].period, w,
                               if head.timer == w.timer then 0 else n);
    }
  }

  /** prvSwitchTimerLists at a tick of the next epoch keeps the timer's one
      mention, seen from the new epoch. */
  lemma {:induction false} SwitchListsTracks(s: Daemon, at: nat, w: Watch, n: nat)
    requires ListsOk(s) && Tracks(s, w, n) && n <= 1
    requires Epoch(at) == Epoch(s.now) + 1
    ensures Follows(s, SwitchLists(s, at).(lastTime := at % TICK_RANGE, now := at), w, n)
    decreases Remaining(s.current)
  {
    if s.current != [] {
      var pass := SwitchPass(s, at);
      SwitchPassOk(s, at);
      SwitchPassTracks(s, at, w, n);
      var left := Left(w, |Fires(pass, w)| - |Fires(s, w)|, n);
      SwitchListsTracks(pass, at, w, left);
      FollowsOn(s, pass, SwitchLists(pass, at).(lastTime := at % TICK_RANGE, now := at), w, n);
    }
  }

  lemma {:induction false} ReloadBeforeSwitchCount(s: Daemon, t: TimerId, value: nat, period: nat, u: TimerId)
    requires Known(s.timers, s.current + [Entry(t, value)])
    ensures var r := ReloadBeforeSwitch(s, t, value, period);
            && Count(r.current, u) <= Count(s.current, u) + (if t == u then 1 else 0)
            && |r.current| + |r.queue| == |s.current| + |s.queue| + 1
  {
    var e := Entry(t, (value + period) % TICK_RANGE);
    InsertedAt(s.current, InsertionPoint(Values(s.current), e.value), e, u);
  }

  lemma {:induction false} SwitchPassCount(s: Daemon, at: nat, t: TimerId)
    requires Known(s.timers, s.current) && s.current != []
    ensures Count(SwitchPass(s, at).current, t) <= Count(s.current, t)
    ensures |SwitchPass(s, at).current| + |SwitchPass(s, at).queue| <= |s.current| + |s.queue|
  {
    var head := s.current[0];
    if s.timers[head.timer].autoReload {
      ReloadBeforeSwitchCount(PopHead(s, at), head.timer, head.value, s.timers[head.timer].period, t);
    }
  }

  /** Switching the lists keeps them in order, adds no timer to them, sends at
      most one reload per timer of the old list, and leaves no overflow. */
  lemma {:induction false} SwitchListsOk(s: Daemon, at: nat)
    requires ListsOk(s)
    ensures var r := SwitchLists(s, at);
            && ListsOk(r) && r.overflow == [] && |r.queue| <= |s.queue| + |s.current|
            && forall t :: Count(r.current, t) <= Count(s.overflow, t)
    decreases Remaining(s.current)
  {
    if s.current != [] {
      SwitchPassOk(s, at);
      SwitchPassCount(s, at, s.current[0].timer);
      SwitchListsOk(SwitchPass(s, at), at);
    }
  }

  /** From index `from` on the log holds callbacks made at `at`, in
      nondecreasing expiry order, all due in [floor, ceiling). */
  ghost predicate Ordered(log: seq<Fire>, from: nat, floor: nat, ceiling: nat, at: nat) {
    && (forall i :: from <= i < |log| ==> floor <= log[i].due < ceiling && log[i].at == at)
    && (forall i, j :: from <= i < j < |log| ==> log[i].due <= log[j].due)
  }

  lemma {:induction false} SwitchPassHead(s: Daemon, at: nat)
    requires ListsOk(s) && s.current != []
    ensures var r := SwitchPass(s, at);
            && (r.current != [] ==> CurrentDue(s, s.current[0]) <= CurrentDue(r, r.current[0]))
            && r.log == s.log + [Fire(s.current[0].timer, CurrentDue(s, s.current[0]), at)]
  {
    var head, r := s.current[0], SwitchPass(s, at);
    DropHead(s.current);
    var e := Entry(head.timer, (head.value + s.timers[head.timer].period) % TICK_RANGE);
    InsertedAt(s.current[1..], InsertionPoint(Values(s.current[1..]), e.value), e, head.timer);
    if r.current != [] {
      assert r.current[0] in r.current;
    }
  }

  /** The callbacks of a switch are made in nondecreasing expiry order, all of
      them for timers that expired before the epoch ended. */
  lemma {:induction false} SwitchListsOrder(s: Daemon, at: nat, floor: nat)
    requires ListsOk(s) && (s.current != [] ==> floor <= CurrentDue(s, s.current[0]))
    ensures var log := SwitchLists(s, at).log;
            && |s.log| <= |log| && log[..|s.log|] == s.log
            && Ordered(log, |s.log|, floor, (Epoch(s.now) + 1) * TICK_RANGE, at)
    decreases Remaining(s.current)
  {
    if s.current != [] {
      var pass := SwitchPass(s, at);
      SwitchPassOk(s, at);
      SwitchPassHead(s, at);
      SwitchListsOrder(pass, at, CurrentDue(s, s.current[0]));
      var log := SwitchLists(pass, at).log;
      assert log[|s.log|] == log[..|pass.log|][|s.log|] == pass.log[|s.log|];
      assert log[..|s.log|] == log[..|pass.log|][..|s.log|];
    }
  }

  // --------------------------------------------------------- sampling the tick

  /** The tick is sampled at least once per wrap while any timer is active. */
  predicate Timely(s: Daemon, n: nat) {
    s.now <= n && (n < s.now + TICK_RANGE || (s.current == [] && s.overflow == []))
  }

  lemma {:induction false} WrapSeen(now: nat, n: nat)
    requires now <= n < now + TICK_RANGE
    ensures if n % TICK_RANGE < now % TICK_RANGE then Epoch(n) == Epoch(now) + 1 else Epoch(n) == Epoch(now)
  {
  }

  lemma {:induction false} SampleOk(s: Daemon, n: nat)
    requires Inv(s)
    ensures var r := Sample(s, n);
            && Inv(r) && r.now == n && r.timers == s.timers
            && |r.queue| <= |s.queue| + |s.current|
            && (forall t :: Count(r.current, t) + Count(r.overflow, t) <= Count(s.current, t) + Count(s.overflow, t))
  {
    SwitchListsOk(s, n);
  }

  lemma {:induction false} SampleTracks(s: Daemon, n: nat, w: Watch, k: nat)
    requires Inv(s) && Timely(s, n) && Tracks(s, w, k) && k <= 1
    ensures Follows(s, Sample(s, n), w, k)
  {
    if s.current != [] || s.overflow != [] {
      WrapSeen(s.now, n);
      if n % TICK_RANGE < s.lastTime {
        SwitchListsTracks(s, n, w, k);
      }
    }
  }

  // ------------------------------------------------------- the steps of a run

  /** An entry placed as classified stands for its true expiry. */
  lemma {:induction false} PlacedDue(s: Daemon, t: TimerId, c: nat, p: nat)
    requires s.lastTime == s.now % TICK_RANGE
    requires c <= s.now < c + TICK_RANGE && 0 < p < TICK_RANGE
    ensures var e := Entry(t, (c % TICK_RANGE + p) % TICK_RANGE);
            match Classify(p, e.value, s.lastTime, c % TICK_RANGE)
            case ProcessNow => c + p <= s.now
            case IntoCurrent => CurrentDue(s, e) == c + p
            case IntoOverflow => OverflowDue(s, e) == c + p
  {
    assert (c % TICK_RANGE + p) % TICK_RANGE == (c + p) % TICK_RANGE;
    ClassifyExact(c, s.now, p);
  }

  lemma {:induction false} ReloadExpiredOk(s: Daemon, t: TimerId, value: nat, period: nat)
    requires ListsOk(s) && Known(s.timers, [Entry(t, value)])
    requires Count(s.current, t) == Count(s.overflow, t) == 0
    ensures var r := ReloadExpired(s, t, value, period);
            ListsOk(r) && |r.queue| <= |s.queue| + 1
  {
    assert Entry(t, value) in [Entry(t, value)];
    var expiry := (value + period) % TICK_RANGE;
    var p := Classify(period, expiry, s.lastTime, value);
    if p == ProcessNow {
      TickOf(Epoch(s.now), value);
      QueuedOk(s, t, value, CurrentDue(s, Entry(t, value)));
    } else {
      PlacedOk(s, Entry(t, expiry), p);
    }
  }

  lemma {:induction false} ReloadExpiredTracks(s: Daemon, t: TimerId, value: nat, period: nat, w: Watch, n: nat)
    requires Tracks(s, w, n) && value <= s.lastTime == s.now % TICK_RANGE && 0 < period < TICK_RANGE
    requires t == w.timer ==> period == w.period && Next(s, w) == CurrentDue(s, Entry(t, value)) + period
    ensures Tracks(ReloadExpired(s, t, value, period), w, n + if t == w.timer then 1 else 0)
  {
    var c := CurrentDue(s, Entry(t, value));
    TickOf(Epoch(s.now), value);
    PlacedDue(s, t, c, period);
    var e := Entry(t, (value + period) % TICK_RANGE);
    var p := Classify(period, e.value, s.lastTime, value);
    if p == ProcessNow {
      ReloadSentTracks(s, t, value, c, w, n);
      assert ReloadExpired(s, t, value, period) == SendReload(s, t, value, c);
    } else {
      PlacedTracks(s, e, p, w, n);
      assert ReloadExpired(s, t, value, period) == Place(s, e, p);
    }
  }

  lemma {:induction false} ProcessExpiredOk(s: Daemon)
    requires Inv(s) && s.current != []
    ensures Inv(ProcessExpired(s)) && |ProcessExpired(s).queue| <= |s.queue| + 1
  {
    var head := s.current[0];
    HeadRemovedOk(s);
    ReloadExpiredOk(s.(current := s.current[1..]), head.timer, head.value, s.timers[head.timer].period);
  }

  lemma {:induction false} ReloadedTracks(s: Daemon, w: Watch, n: nat)
    requires Inv(s) && Tracks(s, w, n) && n <= 1 && s.current != [] && s.current[0].value <= s.lastTime
    requires s.timers[s.current[0].timer].autoReload
    ensures var head, fired := s.current[0], PopHead(s, s.now);
            Tracks(ReloadExpired(fired, head.timer, head.value, s.timers[head.timer].period), w, n)
  {
    var head, fired := s.current[0], PopHead(s, s.now);
    PopHeadTracks(s, s.now, w, n);
    ReloadExpiredTracks(fired, head.timer, head.value, s.timers[head.timer].period, w,
                        if head.timer == w.timer then 0 else n);
  }

  /** The callback may as well come before the reload, as in the switch. */
  lemma {:induction false} CallbackFirst(s: Daemon)
    requires s.current != [] && s.current[0].timer in s.timers
    ensures var head, fired := s.current[0], PopHead(s, s.now);
            var period := s.timers[head.timer].period;
            && ProcessExpired(s) ==
               (if s.timers[head.timer].autoReload then ReloadExpired(fired, head.timer, head.value, period) else fired)
            && ReloadExpired(fired, head.timer, head.value, period).log == fired.log
  {
  }

  lemma {:induction false} ProcessExpiredTracks(s: Daemon, w: Watch, n: nat)
    requires Inv(s) && Tracks(s, w, n) && n <= 1 && s.current != [] && s.current[0].value <= s.lastTime
    ensures Follows(s, ProcessExpired(s), w, n)
  {
    var head := s.current[0];
    var fired := PopHead(s, s.now);
    PopHeadTracks(s, s.now, w, n);
    CallbackFirst(s);
    if s.timers[head.timer].autoReload {
      ReloadedTracks(s, w, n);
    }
  }

  lemma {:induction false} LoopTopKeeps(s: Daemon, n: nat)
    requires Inv(s)
    ensures var r := LoopTop(s, n).0;
            Inv(r) && r.now == n && |r.queue| <= |s.queue| + |s.current|
  {
    SampleOk(s, n);
    if n % TICK_RANGE >= s.lastTime && s.current != [] {
      ProcessExpiredOk(Sample(s, n));
    }
  }

  lemma {:induction false} LoopTopTracks(s: Daemon, n: nat, w: Watch, k: nat)
    requires Inv(s) && Timely(s, n) && Tracks(s, w, k) && k <= 1
    ensures Follows(s, LoopTop(s, n).0, w, k)
  {
    SampleOk(s, n);
    SampleTracks(s, n, w, k);
    if n % TICK_RANGE >= s.lastTime && s.current != [] && s.current[0].value <= n % TICK_RANGE {
      var sampled := Sample(s, n);
      ProcessExpiredTracks(sampled, w, Left(w, |Fires(sampled, w)| - |Fires(s, w)|, k));
      FollowsOn(s, sampled, ProcessExpired(sampled), w, k);
    }
  }

  lemma {:induction false} UnlinkOk(s: Daemon, t: TimerId)
    requires ListsOk(s)
    ensures var r := Unlink(s, t);
            && ListsOk(r) && Count(r.current, t) == Count(r.overflow, t) == 0
            && |r.current| <= |s.current|
  {
    var r := Unlink(s, t);
    assert Count(s.current, t) + Count(s.overflow, t) <= 1;
    WithoutIt(s.current, t, t);
    WithoutIt(s.overflow, t, t);
    forall u
      ensures Count(r.current, u) + Count(r.overflow, u) <= Count(s.current, u) + Count(s.overflow, u)
    {
      WithoutIt(s.current, t, u);
      WithoutIt(s.overflow, t, u);
    }
  }

  lemma {:induction false} UnlinkTracks(s: Daemon, t: TimerId, w: Watch, n: nat)
    requires Tracks(s, w, n)
    requires t == w.timer ==> Count(s.current, t) == Count(s.overflow, t) == 0
    ensures Tracks(Unlink(s, t), w, n)
  {
    if Count(s.current, t) > 0 {
      WithoutIt(s.current, t, w.timer);
    } else {
      WithoutIt(s.overflow, t, w.timer);
    }
  }

  /** Start commands are executed less than one tick range after the time they
      refer to, and never before it. */
  predicate InTime(q: Queued, n: nat) {
    q.command.Start? ==> q.reference <= n < q.reference + TICK_RANGE
  }

  lemma {:induction false} FireStartedOk(s: Daemon, t: TimerId, expiry: nat, due: nat)
    requires Inv(s) && t in s.timers && expiry == due % TICK_RANGE
    ensures var r := FireStarted(s, t, expiry, due);
            Inv(r) && |r.queue| <= |s.queue| + 1
  {
    var fired := Callback(s, t, due, s.now);
    QueuedOk(fired, t, expiry, due);
  }

  lemma {:induction false} TickSum(a: nat, b: nat)
    ensures (a % TICK_RANGE + b) % TICK_RANGE == (a + b) % TICK_RANGE
  {
  }

  lemma {:induction false} ExecuteStartOk(s: Daemon, t: TimerId, value: nat, reference: nat)
    requires Inv(s) && t in s.timers && value == reference % TICK_RANGE
    requires Count(s.current, t) == Count(s.overflow, t) == 0
    ensures var r := ExecuteStart(s, t, value, reference);
            Inv(r) && |r.queue| <= |s.queue| + 1
  {
    var period := s.timers[t].period;
    var expiry := (value + period) % TICK_RANGE;
    var p := Classify(period, expiry, s.lastTime, value);
    if p == ProcessNow {
      TickSum(reference, period);
      FireStartedOk(s, t, expiry, reference + period);
      assert ExecuteStart(s, t, value, reference) == FireStarted(s, t, expiry, reference + period);
    } else {
      PlacedInv(s, Entry(t, expiry), p);
      assert ExecuteStart(s, t, value, reference) == Place(s, Entry(t, expiry), p);
    }
  }

  lemma {:induction false} FireStartedTracks(s: Daemon, t: TimerId, expiry: nat, due: nat, w: Watch, n: nat)
    requires t in s.timers && Tracks(s, w, n) && due <= s.now
    requires t == w.timer ==> n == 0 && due == Next(s, w)
    ensures Follows(s, FireStarted(s, t, expiry, due), w, n + if t == w.timer then 1 else 0)
  {
    var fired := Callback(s, t, due, s.now);
    Fired(s, w, Fire(t, due, s.now));
    if t == w.timer {
      TokensNone(s, t, w.period, Next(s, w), Next(fired, w));
    }
    assert Tracks(fired, w, n);
    if s.timers[t].autoReload {
      ReloadSentTracks(fired, t, expiry, due, w, n);
    }
  }

  /** A start that becomes r: with a callback if the timer expired already, and
      otherwise with an entry that stands for its expiry. */
  lemma {:induction false} BegunTracks(s: Daemon, r: Daemon, e: Entry, p: Placement, due: nat, w: Watch, n: nat)
    requires Tracks(s, w, n) && e.timer in s.timers
    requires r == if p == ProcessNow then FireStarted(s, e.timer, e.value, due) else Place(s, e, p)
    requires match p
             case ProcessNow => due <= s.now
             case IntoCurrent => CurrentDue(s, e) == due
             case IntoOverflow => OverflowDue(s, e) == due
    requires e.timer == w.timer ==> n == 0 && due == Next(s, w)
    ensures Follows(s, r, w, n + if e.timer == w.timer then 1 else 0)
  {
    if p == ProcessNow {
      FireStartedTracks(s, e.timer, e.value, due, w, n);
    } else {
      PlacedTracks(s, e, p, w, n);
      Unfired(s, r, w, n + if e.timer == w.timer then 1 else 0);
    }
  }

  lemma {:induction false} ExecuteStartTracks(s: Daemon, t: TimerId, value: nat, reference: nat, w: Watch, n: nat)
    requires s.lastTime == s.now % TICK_RANGE && value == reference % TICK_RANGE && Tracks(s, w, n)
    requires t in s.timers && 0 < s.timers[t].period < TICK_RANGE
    requires reference <= s.now < reference + TICK_RANGE
    requires t == w.timer ==> n == 0 && reference + w.period == Next(s, w)
    ensures Follows(s, ExecuteStart(s, t, value, reference), w, n + if t == w.timer then 1 else 0)
  {
    var period := s.timers[t].period;
    var e := Entry(t, (value + period) % TICK_RANGE);
    PlacedDue(s, t, reference, period);
    BegunTracks(s, ExecuteStart(s, t, value, reference), e, Classify(period, e.value, s.lastTime, value),
                  reference + period, w, n);
  }

  lemma {:induction false} ChangedOk(s: Daemon, t: TimerId, period: nat)
    requires ListsOk(s) && t in s.timers && 0 < period < TICK_RANGE
    ensures ListsOk(s.(timers := s.timers[t := s.timers[t].(period := period)]))
  {
  }

  lemma {:induction false} ExecuteChangePeriodOk(s: Daemon, t: TimerId, period: nat)
    requires Inv(s) && t in s.timers && 0 < period < TICK_RANGE
    requires Count(s.current, t) == Count(s.overflow, t) == 0
    ensures var r := ExecuteChangePeriod(s, t, period);
            Inv(r) && r.queue == s.queue
  {
    var changed := s.(timers := s.timers[t := s.timers[t].(period := period)]);
    ChangedOk(s, t, period);
    var expiry := (s.lastTime + period) % TICK_RANGE;
    assert Inv(changed);
    var p := Classify(period, expiry, s.lastTime, s.lastTime);
    PlacedInv(changed, Entry(t, expiry), p);
    assert ExecuteChangePeriod(s, t, period) == Place(changed, Entry(t, expiry), p);
  }

  lemma {:induction false} ChangedTracks(s: Daemon, t: TimerId, period: nat, w: Watch, n: nat)
    requires Tracks(s, w, n) && t in s.timers && t != w.timer
    ensures var r := s.(timers := s.timers[t := s.timers[t].(period := period)]);
            Tracks(r, w, n) && Next(r, w) == Next(s, w)
  {
  }

  lemma {:induction false} ExecuteChangePeriodTracks(s: Daemon, t: TimerId, period: nat, w: Watch, n: nat)
    requires s.lastTime == s.now % TICK_RANGE && t in s.timers && 0 < period < TICK_RANGE
    requires Tracks(s, w, n) && t != w.timer
    ensures Tracks(ExecuteChangePeriod(s, t, period), w, n)
  {
    var changed := s.(timers := s.timers[t := s.timers[t].(period := period)]);
    var expiry := (s.lastTime + period) % TICK_RANGE;
    ChangePeriodNeverNow(s.now, period);
    ChangedTracks(s, t, period, w, n);
    var p := Classify(period, expiry, s.lastTime, s.lastTime);
    PlacedTracks(changed, Entry(t, expiry), p, w, n);
    assert ExecuteChangePeriod(s, t, period) == Place(changed, Entry(t, expiry), p);
  }

  /** A command that may be posted for known timers. */
  ghost predicate Postable(s: Daemon, q: Queued) {
    QueueOk(s.timers, [q])
  }

  lemma {:induction false} ExecuteOk(s: Daemon, q: Queued)
    requires Inv(s) && Postable(s, q) && !q.command.Pended?
    requires Count(s.current, q.command.timer) == Count(s.overflow, q.command.timer) == 0
    ensures Inv(Execute(s, q)) && |Execute(s, q).queue| <= |s.queue| + 1
  {
    assert q in [q];
    match q.command
    case Start(t, value) => ExecuteStartOk(s, t, value, q.reference);
    case ChangePeriod(t, period) => ExecuteChangePeriodOk(s, t, period);
    case Stop(_) =>
    case Delete(_) =>
  }

  lemma {:induction false} ReceiveKeeps(s: Daemon, n: nat)
    requires Inv(s) && s.queue != []
    ensures Inv(Receive(s, n)) && |Receive(s, n).queue| <= |s.queue| + |s.current|
  {
    var q := s.queue[0];
    var taken := s.(queue := s.queue[1..]);
    assert q in s.queue && Postable(s, q);
    assert Inv(taken);
    if !q.command.Pended? {
      var t := q.command.timer;
      UnlinkOk(taken, t);
      SampleOk(Unlink(taken, t), n);
      ExecuteOk(Sample(Unlink(taken, t), n), q);
    }
  }

  lemma {:induction false} TakenTracks(s: Daemon, w: Watch, n: nat)
    requires Tracks(s, w, n) && n <= 1 && s.queue != []
    ensures var mine := Targets(s.queue[0].command, w.timer);
            && (mine ==> n == 1) && Tracks(s.(queue := s.queue[1..]), w, if mine then 0 else n)
            && (mine ==> s.queue[0].command.Start? && s.queue[0].reference + w.period == Next(s, w))
            && (mine ==> Count(s.current, w.timer) == Count(s.overflow, w.timer) == 0)
  {
    assert forall q :: q in s.queue <==> q == s.queue[0] || q in s.queue[1..];
  }

  /** A command of another timer, executed. */
  lemma {:induction false} OthersTracks(s: Daemon, q: Queued, w: Watch, n: nat)
    requires Inv(s) && Postable(s, q) && !q.command.Pended? && q.command.timer != w.timer
    requires Tracks(s, w, n) && InTime(q, s.now)
    ensures Follows(s, Execute(s, q), w, n)
  {
    assert q in [q];
    match q.command
    case Start(t, value) => ExecuteStartTracks(s, t, value, q.reference, w, n);
    case ChangePeriod(t, period) =>
      ExecuteChangePeriodTracks(s, t, period, w, n);
      Unfired(s, Execute(s, q), w, n);
    case Stop(_) => Unfired(s, s, w, n);
    case Delete(_) => Unfired(s, s, w, n);
  }

  /** Taking a command off the queue and its timer out of the lists. */
  lemma {:induction false} UnlinkedTracks(s: Daemon, n: nat, w: Watch, k: nat)
    requires Inv(s) && s.queue != [] && Timely(s, n) && Tracks(s, w, k) && k <= 1 && !s.queue[0].command.Pended?
    ensures var t := s.queue[0].command.timer;
            var r := Unlink(s.(queue := s.queue[1..]), t);
            && Inv(r) && Timely(r, n) && r.log == s.log && r.timers == s.timers
            && Count(r.current, t) == Count(r.overflow, t) == 0
            && Tracks(r, w, if t == w.timer then 0 else k)
  {
    var t := s.queue[0].command.timer;
    var taken := s.(queue := s.queue[1..]);
    TakenTracks(s, w, k);
    assert Inv(taken);
    UnlinkOk(taken, t);
    UnlinkTracks(taken, t, w, if t == w.timer then 0 else k);
    UnlinkTimely(taken, t, n);
  }

  /** The start of the watched timer itself, executed. */
  lemma {:induction false} OwnTracks(s: Daemon, sampled: Daemon, q: Queued, w: Watch)
    requires Inv(sampled) && sampled.now < q.reference + TICK_RANGE && q.reference <= sampled.now
    requires q.command.Start? && q.command.timer == w.timer && q.command.value == q.reference % TICK_RANGE
    requires w.from <= |s.log| && Follows(s, sampled, w, 0) && q.reference + w.period == Next(s, w)
    ensures Follows(s, Execute(sampled, q), w, 1)
  {
    ExecuteStartTracks(sampled, w.timer, q.command.value, q.reference, w, 0);
  }

  /** A command that takes effect in `sampled`, its timer having been unlinked. */
  lemma {:induction false} CommandTracks(s: Daemon, sampled: Daemon, q: Queued, w: Watch, k: nat)
    requires Tracks(s, w, k) && k <= 1 && Inv(sampled) && Postable(sampled, q) && !q.command.Pended?
    requires Count(sampled.current, q.command.timer) == Count(sampled.overflow, q.command.timer) == 0
    requires InTime(q, sampled.now)
    requires Follows(s, sampled, w, if q.command.timer == w.timer then 0 else k)
    requires q.command.timer == w.timer ==> k == 1 && q.command.Start? && q.reference + w.period == Next(s, w)
    ensures Follows(s, Execute(sampled, q), w, k)
  {
    assert q in [q];
    if q.command.timer == w.timer {
      OwnTracks(s, sampled, q, w);
    } else {
      OthersTracks(sampled, q, w, Left(w, |Fires(sampled, w)| - |Fires(s, w)|, k));
      FollowsOn(s, sampled, Execute(sampled, q), w, k);
    }
  }

  /** The rest of a reception, the timer of the command being in no list. */
  lemma {:induction false} UnlinkedReceives(s: Daemon, unlinked: Daemon, q: Queued, n: nat, w: Watch, k: nat)
    requires Tracks(s, w, k) && k <= 1 && Inv(unlinked) && Timely(unlinked, n) && InTime(q, n)
    requires unlinked.log == s.log && Postable(unlinked, q) && !q.command.Pended?
    requires Count(unlinked.current, q.command.timer) == Count(unlinked.overflow, q.command.timer) == 0
    requires Tracks(unlinked, w, if q.command.timer == w.timer then 0 else k)
    requires q.command.timer == w.timer ==> k == 1 && q.command.Start? && q.reference + w.period == Next(s, w)
    ensures Known(unlinked.timers, unlinked.current) && q.command.timer in Sample(unlinked, n).timers
    ensures Follows(s, Execute(Sample(unlinked, n), q), w, k)
  {
    SampleOk(unlinked, n);
    SampleTracks(unlinked, n, w, if q.command.timer == w.timer then 0 else k);
    assert q in [q];
    CommandTracks(s, Sample(unlinked, n), q, w, k);
  }

  lemma {:induction false} ReceiveTracks(s: Daemon, n: nat, w: Watch, k: nat)
    requires Inv(s) && s.queue != [] && Timely(s, n) && InTime(s.queue[0], n) && Tracks(s, w, k) && k <= 1
    ensures Follows(s, Receive(s, n), w, k)
  {
    var q := s.queue[0];
    assert q in s.queue;
    TakenTracks(s, w, k);
    if q.command.Pended? {
      Unfired(s, Receive(s, n), w, k);
    } else {
      UnlinkedTracks(s, n, w, k);
      UnlinkedReceives(s, Unlink(s.(queue := s.queue[1..]), q.command.timer), q, n, w, k);
    }
  }

  lemma {:induction false} UnlinkTimely(s: Daemon, t: TimerId, n: nat)
    requires Timely(s, n)
    ensures Timely(Unlink(s, t), n)
  {
  }

  // --------------------------------------------------------------------- runs

  /** What can happen: one pass of the daemon's loop up to its wait, one command
      taken from the queue, a command posted, or a timer created.  A post joins the
      queue with i commands ahead of it: with all of them if a task or an interrupt
      posts it, with fewer if a callback did, before the daemon sent the reloads
      that are in the queue by the end of its pass. */
  datatype Event = Loop(n: nat) | ReceiveOne(n: nat) | Post(q: Queued, i: nat) | Create(t: TimerId, timer: Timer)

  function Posted(s: Daemon, q: Queued, i: nat): Daemon
    requires i <= |s.queue|
  {
    s.(queue := Inserted(s.queue, i, q))
  }

  function Created(s: Daemon, t: TimerId, timer: Timer): Daemon {
    s.(timers := s.timers[t := timer])
  }

  /** The assumptions under which the daemon works: the tick is sampled in time,
      commands are executed in time, and the queue has room for reloads. */
  ghost predicate Enabled(s: Daemon, e: Event, capacity: nat) {
    match e
    case Loop(n) => Timely(s, n) && |s.queue| + |s.current| <= capacity
    case ReceiveOne(n) =>
      s.queue != [] && Timely(s, n) && InTime(s.queue[0], n) && |s.queue| + |s.current| <= capacity
    case Post(q, i) => Postable(s, q) && i <= |s.queue| < capacity
    case Create(t, timer) => t !in s.timers && 0 < timer.period < TICK_RANGE
  }

  ghost function Apply(s: Daemon, e: Event, capacity: nat): (r: Daemon)
    requires Inv(s) && Enabled(s, e, capacity)
    ensures Inv(r) && (|s.queue| <= capacity ==> |r.queue| <= capacity)
  {
    match e
    case Loop(n) => LoopTopKeeps(s, n); LoopTop(s, n).0
    case ReceiveOne(n) => ReceiveKeeps(s, n); assert s.queue[0] in s.queue; Receive(s, n)
    case Post(q, i) => PostKeeps(s, q, i); Posted(s, q, i)
    case Create(t, timer) => CreateKeeps(s, t, timer); Created(s, t, timer)
  }

  lemma {:induction false} CreateKeeps(s: Daemon, t: TimerId, timer: Timer)
    requires Inv(s) && t !in s.timers && 0 < timer.period < TICK_RANGE
    ensures Inv(Created(s, t, timer))
  {
  }

  lemma {:induction false} PostKeeps(s: Daemon, q: Queued, i: nat)
    requires Inv(s) && Postable(s, q) && i <= |s.queue|
    ensures Inv(Posted(s, q, i))
  {
    assert q in [q];
    CommandsInserted(s.queue, i, q, 0);
  }

  ghost predicate Legal(s: Daemon, events: seq<Event>, capacity: nat)
    requires Inv(s)
    decreases |events|
  {
    events == [] ||
    (Enabled(s, events[0], capacity) && Legal(Apply(s, events[0], capacity), events[1..], capacity))
  }

  ghost function Final(s: Daemon, events: seq<Event>, capacity: nat): (r: Daemon)
    requires Inv(s) && Legal(s, events, capacity)
    ensures Inv(r)
    decreases |events|
  {
    if events == [] then s else Final(Apply(s, events[0], capacity), events[1..], capacity)
  }

  // ------------------------------------------------- posts between two callbacks

  /** A pass of the loop of prvSwitchTimerLists whose callback posts commands. */
  function PassPosting(s: Daemon, at: nat, posts: seq<Queued>): (r: Daemon)
    requires s.current != [] && Known(s.timers, s.current)
    ensures Known(r.timers, r.current) && Remaining(r.current) < Remaining(s.current)
  {
    var head := s.current[0];
    var timer := s.timers[head.timer];
    var fired := PopHead(s, at);
    var posted := fired.(queue := fired.queue + posts);
    if timer.autoReload then ReloadBeforeSwitch(posted, head.timer, head.value, timer.period) else posted
  }

  /** prvSwitchTimerLists, the k-th callback posting posts[k]. */
  function SwitchPosting(s: Daemon, at: nat, posts: seq<seq<Queued>>): Daemon
    requires Known(s.timers, s.current)
    decreases Remaining(s.current)
  {
    if s.current == [] then s.(current := s.overflow, overflow := [])
    else if posts == [] then SwitchLists(s, at)
    else SwitchPosting(PassPosting(s, at, posts[0]), at, posts[1..])
  }

  function WithQueue(s: Daemon, queue: seq<Queued>): Daemon { s.(queue := queue) }

  /** Posts one after another, each with so many commands ahead. */
  predicate Positions(queue: seq<Queued>, posts: seq<(Queued, nat)>)
    decreases |posts|
  {
    posts == [] || (posts[0].1 <= |queue| && Positions(Inserted(queue, posts[0].1, posts[0].0), posts[1..]))
  }

  function AllInserted(queue: seq<Queued>, posts: seq<(Queued, nat)>): seq<Queued>
    requires Positions(queue, posts)
    decreases |posts|
  {
    if posts == [] then queue else AllInserted(Inserted(queue, posts[0].1, posts[0].0), posts[1..])
  }

  lemma {:induction false} InsertedBoth(queue: seq<Queued>, a: seq<(Queued, nat)>, b: seq<(Queued, nat)>)
    requires Positions(queue, a) && Positions(AllInserted(queue, a), b)
    ensures Positions(queue, a + b) && AllInserted(queue, a + b) == AllInserted(AllInserted(queue, a), b)
    decreases |a|
  {
    if a == [] {
      assert a + b == b;
    } else {
      assert (a + b)[0] == a[0] && (a + b)[1..] == a[1..] + b;
      InsertedBoth(Inserted(queue, a[0].1, a[0].0), a[1..], b);
    }
  }

  /** Some commands in the middle of a queue are posts with those before ahead. */
  lemma {:induction false} InTheMiddle(before: seq<Queued>, middle: seq<Queued>, after: seq<Queued>)
    returns (posts: seq<(Queued, nat)>)
    ensures Positions(before + after, posts) && AllInserted(before + after, posts) == before + middle + after
    ensures |posts| == |middle| && forall i :: 0 <= i < |posts| ==> posts[i].0 == middle[i]
    decreases |middle|
  {
    if middle == [] {
      posts := [];
      assert before + middle == before;
    } else {
      var q, i := middle[0], |before|;
      assert Inserted(before + after, i, q) == before + [q] + after;
      var rest := InTheMiddle(before + [q], middle[1..], after);
      posts := [(q, i)] + rest;
      assert posts[1..] == rest;
      assert before + [q] + middle[1..] == before + middle;
    }
  }

  /** What is in the queue does not matter to a pass; it only adds to it. */
  lemma {:induction false} PassAdds(s: Daemon, at: nat, queue: seq<Queued>) returns (sent: seq<Queued>)
    requires s.current != [] && Known(s.timers, s.current)
    ensures SwitchPass(s, at).queue == s.queue + sent
    ensures SwitchPass(WithQueue(s, queue), at) == WithQueue(SwitchPass(s, at), queue + sent)
    ensures PassPosting(s, at, queue) == WithQueue(SwitchPass(s, at), s.queue + queue + sent)
  {
    sent := SwitchPass(s, at).queue[|s.queue|..];
  }

  lemma {:induction false} SwitchOn(s: Daemon, at: nat, pass: Daemon)
    requires s.current != [] && Known(s.timers, s.current) && pass == SwitchPass(s, at)
    ensures SwitchLists(s, at) == SwitchLists(pass, at)
  {
  }

  lemma {:induction false} SwitchAdds(s: Daemon, at: nat, queue: seq<Queued>) returns (sent: seq<Queued>)
    requires Known(s.timers, s.current)
    ensures SwitchLists(s, at).queue == s.queue + sent
    ensures SwitchLists(WithQueue(s, queue), at) == WithQueue(SwitchLists(s, at), queue + sent)
    decreases Remaining(s.current)
  {
    if s.current == [] {
      sent := [];
    } else {
      var pass := SwitchPass(s, at);
      var first := PassAdds(s, at, queue);
      var rest := SwitchAdds(pass, at, queue + first);
      sent := first + rest;
      Regroup(s.queue, first, rest);
      Regroup(queue, first, rest);
      SwitchOn(s, at, pass);
      SwitchOn(WithQueue(s, queue), at, WithQueue(pass, queue + first));
    }
  }

  /** Every command of late is one of those posted. */
  predicate AllFrom(late: seq<(Queued, nat)>, posts: seq<seq<Queued>>) {
    forall i :: 0 <= i < |late| ==> exists j :: 0 <= j < |posts| && late[i].0 in posts[j]
  }

  lemma {:induction false} AllFromBoth(a: seq<(Queued, nat)>, b: seq<(Queued, nat)>, posts: seq<seq<Queued>>)
    requires posts != [] && |a| == |posts[0]| && (forall i :: 0 <= i < |a| ==> a[i].0 == posts[0][i])
    requires AllFrom(b, posts[1..])
    ensures AllFrom(a + b, posts)
  {
    forall i | 0 <= i < |a + b|
      ensures exists j :: 0 <= j < |posts| && (a + b)[i].0 in posts[j]
    {
      if i < |a| {
        assert (a + b)[i].0 in posts[0];
      } else {
        var j :| 0 <= j < |posts| - 1 && b[i - |a|].0 in posts[1..][j];
        assert (a + b)[i].0 in posts[j + 1];
      }
    }
  }

  /** The posts of the first callback, seen from the end of the switch. */
  lemma {:induction false} FirstPosts(s: Daemon, at: nat, posts: seq<Queued>) returns (late: seq<(Queued, nat)>)
    requires s.current != [] && Known(s.timers, s.current)
    ensures var queue, after := SwitchLists(s, at).queue, SwitchLists(PassPosting(s, at, posts), at);
            && Positions(queue, late) && after == WithQueue(SwitchLists(s, at), AllInserted(queue, late))
    ensures |late| == |posts| && forall i :: 0 <= i < |late| ==> late[i].0 == posts[i]
  {
    var pass := SwitchPass(s, at);
    var sent := PassAdds(s, at, posts);
    var more := SwitchAdds(pass, at, s.queue + posts + sent);
    late := InTheMiddle(s.queue, posts, sent + more);
    SwitchOn(s, at, pass);
    Regroup(s.queue, sent, more);
    Regroup(s.queue + posts, sent, more);
  }

  /** What callbacks post between the callbacks of one switch is what is posted
      after the switch with fewer commands ahead. */
  lemma {:induction false} PostsAmongCallbacks(s: Daemon, at: nat, posts: seq<seq<Queued>>)
    returns (late: seq<(Queued, nat)>)
    requires Known(s.timers, s.current)
    ensures var queue := SwitchLists(s, at).queue;
            && Positions(queue, late)
            && SwitchPosting(s, at, posts) == WithQueue(SwitchLists(s, at), AllInserted(queue, late))
    ensures AllFrom(late, posts)
    decreases Remaining(s.current)
  {
    late := [];
    if s.current != [] && posts != [] {
      var first := FirstPosts(s, at, posts[0]);
      var rest := PostsAmongCallbacks(PassPosting(s, at, posts[0]), at, posts[1..]);
      InsertedBoth(SwitchLists(s, at).queue, first, rest);
      AllFromBoth(first, rest, posts);
      late := first + rest;
    }
  }

  /** No command for the timer is posted. */
  predicate LeftAlone(events: seq<Event>, t: TimerId) {
    forall e :: e in events && e.Post? ==> !Targets(e.q.command, t)
  }

  lemma {:induction false} ApplyTracks(s: Daemon, e: Event, capacity: nat, w: Watch, n: nat)
    requires Inv(s) && Enabled(s, e, capacity) && Tracks(s, w, n) && n <= 1
    requires e.Post? ==> !Targets(e.q.command, w.timer)
    ensures Follows(s, Apply(s, e, capacity), w, n)
  {
    match e
    case Loop(now) => LoopTopTracks(s, now, w, n);
    case ReceiveOne(now) => ReceiveTracks(s, now, w, n);
    case Post(q, i) =>
      CommandsInserted(s.queue, i, q, w.timer);
      Unfired(s, Posted(s, q, i), w, n);
    case Create(t, timer) => Unfired(s, Created(s, t, timer), w, n);
  }

  lemma {:induction false} RunTracks(s: Daemon, events: seq<Event>, capacity: nat, w: Watch, n: nat)
    requires Inv(s) && Legal(s, events, capacity) && Tracks(s, w, n) && n <= 1 && LeftAlone(events, w.timer)
    ensures Follows(s, Final(s, events, capacity), w, n)
    decreases |events|
  {
    if events == [] {
      Unfired(s, s, w, n);
    } else {
      var next := Apply(s, events[0], capacity);
      ApplyTracks(s, events[0], capacity, w, n);
      RunTracks(next, events[1..], capacity, w, Left(w, |Fires(next, w)| - |Fires(s, w)|, n));
      FollowsOn(s, next, Final(s, events, capacity), w, n);
    }
  }

  /** xTimerStart of timer t with reference time c is queued. */
  ghost function Started(s: Daemon, t: TimerId, c: nat): (r: Daemon)
    requires Inv(s) && t in s.timers
    ensures Inv(r)
  {
    PostKeeps(s, Queued(Start(t, c % TICK_RANGE), c), |s.queue|);
    Posted(s, Queued(Start(t, c % TICK_RANGE), c), |s.queue|)
  }

  lemma {:induction false} StartedTracks(s: Daemon, t: TimerId, c: nat)
    requires Inv(s) && t in s.timers
    requires Count(s.current, t) + Count(s.overflow, t) + Commands(s.queue, t) == 0
    ensures var w := Watch(t, c, s.timers[t].period, |s.log|, s.timers[t].autoReload);
            Tracks(Started(s, t, c), w, 1) && Fires(Started(s, t, c), w) == []
  {
    var w := Watch(t, c, s.timers[t].period, |s.log|, s.timers[t].autoReload);
    assert Fires(s, w) == [];
    CountZero(s.current, t);
    CountZero(s.overflow, t);
    NoCommands(s.queue, t);
    var q := Queued(Start(t, c % TICK_RANGE), c);
    CommandsInserted(s.queue, |s.queue|, q, t);
  }

  /** From index `from` of the log on, the timer's callbacks are for the true
      times c + p, c + 2p, ... in turn, none before its time, and the timer is
      pending exactly once, for the next of them. */
  ghost predicate ExactSince(s: Daemon, from: nat, t: TimerId, c: nat, p: nat) {
    from <= |s.log| &&
    var fires := FiresOf(s.log[from..], t);
    && (forall k :: 0 <= k < |fires| ==> fires[k].due == c + (k + 1) * p <= fires[k].at)
    && Tokens(s, t, p, c + (|fires| + 1) * p, 1)
  }

  lemma {:induction false} TracksIsExact(s: Daemon, w: Watch)
    requires Tracks(s, w, 1)
    ensures ExactSince(s, w.from, w.timer, w.start, w.period)
  {
  }

  /** The whole-run theorem.  An idle auto-reload timer of period p is started
      with reference time c; then, whatever else happens and however late, its
      k-th callback (from 0) is for the true expiry c + (k+1)p, never earlier
      than that instant, and it is pending exactly once, for the next one. */
  lemma {:induction false} AutoReloadIsExact(s: Daemon, t: TimerId, c: nat, events: seq<Event>, capacity: nat)
    requires Inv(s) && t in s.timers && s.timers[t].autoReload
    requires Count(s.current, t) + Count(s.overflow, t) + Commands(s.queue, t) == 0
    requires Legal(Started(s, t, c), events, capacity) && LeftAlone(events, t)
    ensures ExactSince(Final(Started(s, t, c), events, capacity), |s.log|, t, c, s.timers[t].period)
  {
    var w := Watch(t, c, s.timers[t].period, |s.log|, true);
    StartedTracks(s, t, c);
    RunTracks(Started(s, t, c), events, capacity, w, 1);
    TracksIsExact(Final(Started(s, t, c), events, capacity), w);
  }

  /** Likewise for a timer that fires once: it is pending exactly once, for c + p,
      or it has had that callback, not early, and is pending no more. */
  ghost predicate OnceSince(s: Daemon, from: nat, t: TimerId, c: nat, p: nat) {
    from <= |s.log| &&
    var fires := FiresOf(s.log[from..], t);
    if fires == [] then Tokens(s, t, p, c + p, 1)
    else |fires| == 1 && fires[0].due == c + p <= fires[0].at && Tokens(s, t, p, c + p + p, 0)
  }

  /** A one-shot timer, started likewise: until its callback it is pending exactly
      once, for c + p; then it has had exactly one callback, for c + p and not
      before it, and is pending no more. */
  lemma {:induction false} OneShotIsExact(s: Daemon, t: TimerId, c: nat, events: seq<Event>, capacity: nat)
    requires Inv(s) && t in s.timers && !s.timers[t].autoReload
    requires Count(s.current, t) + Count(s.overflow, t) + Commands(s.queue, t) == 0
    requires Legal(Started(s, t, c), events, capacity) && LeftAlone(events, t)
    ensures OnceSince(Final(Started(s, t, c), events, capacity), |s.log|, t, c, s.timers[t].period)
  {
    var w := Watch(t, c, s.timers[t].period, |s.log|, false);
    StartedTracks(s, t, c);
    RunTracks(Started(s, t, c), events, capacity, w, 1);
    FollowsOnce(Started(s, t, c), Final(Started(s, t, c), events, capacity), w);
  }

  lemma {:induction false} FollowsOnce(s: Daemon, r: Daemon, w: Watch)
    requires !w.auto && Follows(s, r, w, 1) && Fires(s, w) == []
    ensures var fires, due := Fires(r, w), w.start + w.period;
            if fires == [] then Tokens(r, w.timer, w.period, due, 1)
            else |fires| == 1 && fires[0].due == due <= fires[0].at && Tokens(r, w.timer, w.period, due + w.period, 0)
  {
    assert DueOf(w, 0) == w.start + w.period;
    DueNext(w, 0);
  }

  // ------------------------------------------------ commands for a timer in use

  /** The only command for t is at the head of the queue. */
  predicate OnlyCommand(s: Daemon, t: TimerId) {
    s.queue != [] && Targets(s.queue[0].command, t) && Commands(s.queue[1..], t) == 0
  }

  /** A command takes its timer out of its list and out of the queue, wherever the
      timer was pending. */
  lemma {:induction false} OutOfUse(s: Daemon, t: TimerId, w: Watch)
    requires Inv(s) && t in s.timers && OnlyCommand(s, t)
    requires w == Watch(t, w.start, s.timers[t].period, |s.log|, s.timers[t].autoReload)
    ensures var unlinked := Unlink(s.(queue := s.queue[1..]), t);
            Inv(unlinked) && Tracks(unlinked, w, 0) && Fires(unlinked, w) == []
  {
    var taken := s.(queue := s.queue[1..]);
    assert Inv(taken);
    UnlinkOk(taken, t);
    var unlinked := Unlink(taken, t);
    CountZero(unlinked.current, t);
    CountZero(unlinked.overflow, t);
    NoCommands(unlinked.queue, t);
    assert Fires(unlinked, w) == [];
  }

  /** The state in which a received command for timer t takes effect. */
  ghost function Readied(s: Daemon, t: TimerId, n: nat): Daemon
    requires Inv(s) && s.queue != []
  {
    UnlinkOk(s.(queue := s.queue[1..]), t);
    Sample(Unlink(s.(queue := s.queue[1..]), t), n)
  }

  lemma {:induction false} ReceivedOn(s: Daemon, n: nat)
    requires Inv(s) && s.queue != [] && !s.queue[0].command.Pended?
    ensures var q := s.queue[0];
            var ready := Readied(s, q.command.timer, n);
            q.command.timer in s.timers && ready.timers == s.timers && Receive(s, n) == Execute(ready, q)
  {
    assert s.queue[0] in s.queue;
    var unlinked := Unlink(s.(queue := s.queue[1..]), s.queue[0].command.timer);
    UnlinkOk(s.(queue := s.queue[1..]), s.queue[0].command.timer);
    SampleOk(unlinked, n);
  }

  /** The timer is still out of use then. */
  lemma {:induction false} ReadiedOut(s: Daemon, t: TimerId, n: nat, w: Watch)
    requires Inv(s) && t in s.timers && Timely(s, n) && OnlyCommand(s, t)
    requires w == Watch(t, w.start, s.timers[t].period, |s.log|, s.timers[t].autoReload)
    ensures var ready := Readied(s, t, n);
            && Inv(ready) && ready.now == n
            && Tracks(ready, w, 0) && Fires(ready, w) == [] && Next(ready, w) == w.start + w.period
  {
    OutOfUse(s, t, w);
    UnlinkTimely(s.(queue := s.queue[1..]), t, n);
    var unlinked := Unlink(s.(queue := s.queue[1..]), t);
    SampleOk(unlinked, n);
    SampleTracks(unlinked, n, w, 0);
    assert DueOf(w, 0) == w.start + w.period;
  }

  /** Nothing pending for t, nothing fires. */
  lemma {:induction false} NothingFires(r: Daemon, w: Watch, events: seq<Event>, capacity: nat)
    requires Tracks(r, w, 0) && Fires(r, w) == []
    requires Inv(r) && Legal(r, events, capacity) && LeftAlone(events, w.timer)
    ensures w.from <= |Final(r, events, capacity).log| && Fires(Final(r, events, capacity), w) == []
  {
    RunTracks(r, events, capacity, w, 0);
  }

  /** Once a stop or a deletion has been executed, with no other command for the
      timer queued, the timer has no callback until it is started again. */
  lemma {:induction false} StopIsFinal(s: Daemon, t: TimerId, n: nat, events: seq<Event>, capacity: nat)
    requires Inv(s) && t in s.timers && Timely(s, n) && OnlyCommand(s, t)
    requires s.queue[0].command.Stop? || s.queue[0].command.Delete?
    requires var r := Receive(s, n); Inv(r) && Legal(r, events, capacity) && LeftAlone(events, t)
    ensures var f := Final(Receive(s, n), events, capacity);
            |s.log| <= |f.log| && FiresOf(f.log[|s.log|..], t) == []
  {
    var w := Watch(t, 0, s.timers[t].period, |s.log|, s.timers[t].autoReload);
    ReceivedOn(s, n);
    ReadiedOut(s, t, n, w);
    NothingFires(Receive(s, n), w, events, capacity);
  }

  /** A timer that follows w from an unused state, over a run in which it is left
      alone. */
  lemma {:induction false} ExactFrom(u: Daemon, r: Daemon, w: Watch, events: seq<Event>, capacity: nat)
    requires w.from <= |u.log| && Fires(u, w) == [] && Follows(u, r, w, 1)
    requires Inv(r) && Legal(r, events, capacity) && LeftAlone(events, w.timer)
    ensures var f := Final(r, events, capacity);
            if w.auto then ExactSince(f, w.from, w.timer, w.start, w.period)
            else OnceSince(f, w.from, w.timer, w.start, w.period)
  {
    var f := Final(r, events, capacity);
    RunTracks(r, events, capacity, w, Left(w, |Fires(r, w)| - |Fires(u, w)|, 1));
    FollowsOn(u, r, f, w, 1);
    if w.auto { TracksIsExact(f, w); } else { FollowsOnce(u, f, w); }
  }

  /** A start, reset or reload executed for a timer in whatever state: from then on
      its callbacks are for c + p, c + 2p, ..., or once for c + p, whatever it was
      pending for before. */
  lemma {:induction false} RestartIsExact(s: Daemon, t: TimerId, n: nat, events: seq<Event>, capacity: nat)
    requires Inv(s) && t in s.timers && Timely(s, n) && OnlyCommand(s, t)
    requires s.queue[0].command.Start? && InTime(s.queue[0], n)
    requires var r := Receive(s, n); Inv(r) && Legal(r, events, capacity) && LeftAlone(events, t)
    ensures var f, c, p := Final(Receive(s, n), events, capacity), s.queue[0].reference, s.timers[t].period;
            if s.timers[t].autoReload then ExactSince(f, |s.log|, t, c, p) else OnceSince(f, |s.log|, t, c, p)
  {
    var q := s.queue[0];
    var w := Watch(t, q.reference, s.timers[t].period, |s.log|, s.timers[t].autoReload);
    var ready := Readied(s, t, n);
    assert q in s.queue;
    ReceivedOn(s, n);
    ReadiedOut(s, t, n, w);
    Unfired(ready, ready, w, 0);
    OwnTracks(ready, ready, q, w);
    ExactFrom(ready, Receive(s, n), w, events, capacity);
  }

  /** The timer with its new period, in use nowhere yet. */
  lemma {:induction false} ChangedOut(s: Daemon, t: TimerId, p: nat, w0: Watch, w: Watch)
    requires Tracks(s, w0, 0) && w0.timer == t && Fires(s, w0) == []
    requires w == Watch(t, w.start, p, w0.from, w0.auto)
    ensures var r := s.(timers := s.timers[t := s.timers[t].(period := p)]);
            Tracks(r, w, 0) && Fires(r, w) == [] && Next(r, w) == w.start + p
  {
    CountZero(s.current, t);
    CountZero(s.overflow, t);
    NoCommands(s.queue, t);
    assert DueOf(w, 0) == w.start + p;
  }

  /** A change of period executed at true time n: the timer has the new period and
      is pending exactly once, for n + p. */
  lemma {:induction false} ChangeTakesEffect(s: Daemon, t: TimerId, p: nat, n: nat)
    requires Inv(s) && t in s.timers && Timely(s, n) && OnlyCommand(s, t)
    requires s.queue[0].command == ChangePeriod(t, p)
    ensures var r, w := Receive(s, n), Watch(t, n, p, |s.log|, s.timers[t].autoReload);
            && t in r.timers && r.timers[t] == Timer(p, s.timers[t].autoReload)
            && Tokens(r, t, p, n + p, 1)
            && Tracks(r, w, 1) && Fires(r, w) == []
  {
    assert s.queue[0] in s.queue;
    var w0 := Watch(t, n, s.timers[t].period, |s.log|, s.timers[t].autoReload);
    var w := Watch(t, n, p, |s.log|, s.timers[t].autoReload);
    ReceivedOn(s, n);
    ReadiedOut(s, t, n, w0);
    PeriodPlaced(Readied(s, t, n), Receive(s, n), p, w0, w);
  }

  lemma {:induction false} PeriodPlaced(s: Daemon, r: Daemon, p: nat, w0: Watch, w: Watch)
    requires Inv(s) && 0 < p < TICK_RANGE && Tracks(s, w0, 0) && Fires(s, w0) == []
    requires w == Watch(w0.timer, s.now, p, w0.from, w0.auto) && r == ExecuteChangePeriod(s, w.timer, p)
    ensures r.timers[w.timer] == Timer(p, w.auto) && Tokens(r, w.timer, p, s.now + p, 1)
    ensures Tracks(r, w, 1) && Fires(r, w) == []
  {
    var t, n := w.timer, s.now;
    var changed := s.(timers := s.timers[t := s.timers[t].(period := p)]);
    var e := Entry(t, (n % TICK_RANGE + p) % TICK_RANGE);
    ChangedOut(s, t, p, w0, w);
    ChangePeriodNeverNow(n, p);
    PlacedDue(changed, t, n, p);
    DueTracks(changed, r, e, Classify(p, e.value, s.lastTime, s.lastTime), w);
  }

  lemma {:induction false} DueTracks(s: Daemon, r: Daemon, e: Entry, p: Placement, w: Watch)
    requires Tracks(s, w, 0) && Fires(s, w) == [] && e.timer == w.timer && p != ProcessNow && r == Place(s, e, p)
    requires Next(s, w) == if p == IntoCurrent then CurrentDue(s, e) else OverflowDue(s, e)
    ensures r.timers == s.timers && Tracks(r, w, 1) && Fires(r, w) == [] && Next(r, w) == Next(s, w)
  {
    PlacedTracks(s, e, p, w, 0);
  }

  /** From then on, left alone, its callbacks are for n + p, n + 2p, ..., or once
      for n + p if it is a one-shot timer. */
  lemma {:induction false} ChangeIsExact(s: Daemon, t: TimerId, p: nat, n: nat, events: seq<Event>, capacity: nat)
    requires Inv(s) && t in s.timers && Timely(s, n) && OnlyCommand(s, t)
    requires s.queue[0].command == ChangePeriod(t, p)
    requires var r := Receive(s, n); Inv(r) && Legal(r, events, capacity) && LeftAlone(events, t)
    ensures var f := Final(Receive(s, n), events, capacity);
            if s.timers[t].autoReload then ExactSince(f, |s.log|, t, n, p) else OnceSince(f, |s.log|, t, n, p)
  {
    var r, w := Receive(s, n), Watch(t, n, p, |s.log|, s.timers[t].autoReload);
    ChangeTakesEffect(s, t, p, n);
    Unfired(r, r, w, 1);
    ExactFrom(r, r, w, events, capacity);
  }

  /** Nothing is left behind: when the daemon decides to wait at tick n with no
      command pending, every expiry up to n has had its callback. */
  lemma {:induction false} CaughtUp(s: Daemon, n: nat, w: Watch)
    requires Inv(s) && Timely(s, n) && Tracks(s, w, 1) && s.queue == []
    requires LoopTop(s, n).1 != NoWait
    ensures n < Next(s, w) && LoopTop(s, n).0.log == s.log
  {
    CountZero(s.current, w.timer);
    CountZero(s.overflow, w.timer);
    WrapSeen(s.now, n);
    if Count(s.current, w.timer) > 0 {
      var e :| e in s.current && e.timer == w.timer;
      var i :| 0 <= i < |s.current| && s.current[i] == e;
      assert Values(s.current)[0] <= Values(s.current)[i];
    }
  }

  /** The daemon never idles: it goes on without a wait only if the tick has
      wrapped, or it has called back the first timer of the current list. */
  lemma {:induction false} NeverIdles(s: Daemon, n: nat)
    requires Inv(s) && Timely(s, n) && LoopTop(s, n).1 == NoWait
    ensures Epoch(s.now) < Epoch(n)
            || (s.current != []
                && LoopTop(s, n).0.log == s.log + [Fire(s.current[0].timer, CurrentDue(s, s.current[0]), n)])
  {
    if s.current == [] && s.overflow == [] {
      if n % TICK_RANGE < s.lastTime { TickDown(s.now, n); }
    } else {
      WrapSeen(s.now, n);
      if n % TICK_RANGE >= s.lastTime { CallbackFirst(Sample(s, n)); }
    }
  }

  lemma TickDown(now: nat, n: nat)
    requires now <= n && n % TICK_RANGE < now % TICK_RANGE
    ensures Epoch(now) < Epoch(n)
  {}

  lemma WrapNext(n: nat)
    ensures var ticks := (0 - n % TICK_RANGE) % TICK_RANGE;
            ticks < TICK_RANGE && (n + ticks) % TICK_RANGE == 0
  {}

  /** The daemon never oversleeps: it wakes no later than the earliest expiry in
      either list, exactly then if the current list has one and at the wrap of the
      tick if not, and it waits forever only when no timer is active. */
  lemma {:induction false} NeverOversleeps(s: Daemon, n: nat)
    requires Inv(s) && Timely(s, n)
    ensures var (r, wait) := LoopTop(s, n);
            match wait
            case NoWait => true
            case WaitForever => r.current == [] && r.overflow == []
            case WaitTicks(ticks) =>
              && (r.current != [] || r.overflow != [])
              && NothingDueBefore(r, n + ticks)
              && (r.current != [] ==> n + ticks == CurrentDue(r, r.current[0]) > n)
              && (r.current == [] ==> ticks < TICK_RANGE && (n + ticks) % TICK_RANGE == 0)
  {
    var (r, wait) := LoopTop(s, n);
    SampleOk(s, n);
    if wait.WaitTicks? {
      assert r == Sample(s, n) && Inv(r);
      if r.current != [] { HeadIsDueFirst(r); } else { WrapNext(n); }
    }
  }
}
