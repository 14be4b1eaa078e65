/** timers.c: the timer service task as an object whose methods follow the code.
    Each method is proved to do what the functions of TimerModel say; the two
    active lists are kept as sequences (Lists has the pointer-level list). */
module Timers {
  import opened TimerModel
  import opened TimerRuns

  class TimerDaemon {
    var current: seq<Entry>           // *pxCurrentTimerList
    var overflow: seq<Entry>          // *pxOverflowTimerList
    var lastTime: nat                 // xLastTime
    var queue: seq<Command>           // xTimerQueue
    var timers: map<TimerId, Timer>   // the timers created so far
    // What the code cannot see.
    ghost var references: seq<nat>    // the true time each queued command refers to
    ghost var now: nat                // the true tick of the last sample
    ghost var log: seq<Fire>          // the callbacks made

    ghost predicate Aligned()
      reads this
    {
      |references| == |queue|
    }

    ghost function State(): Daemon
      requires Aligned()
      reads this
    {
      Daemon(current, overflow, lastTime, seq(|queue|, i requires 0 <= i < |queue| && Aligned() reads this =>
               Queued(queue[i], references[i])), timers, now, log)
    }

    /** The state after prvCheckForValidListAndQueue. */
    constructor ()
      ensures Aligned() && Inv(State())
      ensures State() == Daemon([], [], 0, [], map[], 0, [])
    {
      current, overflow, lastTime, queue, timers := [], [], 0, [], map[];
      references, now, log := [], 0, [];
    }

    /** xTimerGenericCommand, the queue having room. */
    method GenericCommand(c: Command, ghost reference: nat)
      requires Aligned()
      modifies this`queue, this`references
      ensures Aligned()
      ensures State() == old(State()).(queue := old(State()).queue + [Queued(c, reference)])
    {
      queue := queue + [c];
      references := references + [reference];
    }

    /** prvInsertTimerInActiveList. */
    method InsertTimerInActiveList(t: TimerId, nextExpiryTime: nat, timeNow: nat, commandTime: nat)
      returns (processTimerNow: bool)
      requires Aligned() && t in timers
      modifies this`current, this`overflow
      ensures var p := Classify(timers[t].period, nextExpiryTime, timeNow, commandTime);
              && (processTimerNow <==> p == ProcessNow)
              && State() == Place(old(State()), Entry(t, nextExpiryTime), p)
    {
      processTimerNow := false;
      var item := Entry(t, nextExpiryTime);
      if nextExpiryTime <= timeNow {
        if (timeNow - commandTime) % TICK_RANGE >= timers[t].period {
          processTimerNow := true;
        } else {
          overflow := Insert(overflow, item);
        }
      } else {
        if timeNow < commandTime && nextExpiryTime >= commandTime {
          processTimerNow := true;
        } else {
          current := Insert(current, item);
        }
      }
    }

    ghost method MakeCallback(t: TimerId, due: nat, at: nat)
      requires Aligned()
      modifies this`log
      ensures State() == Callback(old(State()), t, due, at)
    {
      log := log + [Fire(t, due, at)];
    }

    /** prvProcessExpiredTimer. */
    method ProcessExpiredTimer(nextExpireTime: nat, timeNow: nat)
      requires Aligned() && current != [] && current[0].timer in timers
      requires nextExpireTime == current[0].value && timeNow == lastTime
      modifies this`current, this`overflow, this`queue, this`references, this`log
      ensures Aligned() && State() == ProcessExpired(old(State()))
    {
      ghost var due := CurrentDue(State(), current[0]);
      var t := current[0].timer;
      current := current[1..];
      if timers[t].autoReload {
        var expired := InsertTimerInActiveList(t, (nextExpireTime + timers[t].period) % TICK_RANGE, timeNow,
                                                nextExpireTime);
        if expired {
          GenericCommand(Start(t, nextExpireTime), due);
        }
      }
      MakeCallback(t, due, now);
    }

    /** The reload part of the loop body of prvSwitchTimerLists. */
    method ReloadInSwitch(t: TimerId, nextExpireTime: nat)
      requires Aligned() && Known(timers, current + [Entry(t, nextExpireTime)]) && t in timers
      modifies this`current, this`queue, this`references
      ensures Aligned()
      ensures State() == ReloadBeforeSwitch(old(State()), t, nextExpireTime, timers[t].period)
    {
      ghost var before := State();
      var reloadTime := (nextExpireTime + timers[t].period) % TICK_RANGE;
      if reloadTime > nextExpireTime {
        current := Insert(current, Entry(t, reloadTime));
        assert State() == Place(before, Entry(t, reloadTime), IntoCurrent);
      } else {
        ghost var due := CurrentDue(before, Entry(t, nextExpireTime));
        GenericCommand(Start(t, nextExpireTime), due);
        assert State() == SendReload(before, t, nextExpireTime, due);
      }
      assert State() == ReloadBeforeSwitch(before, t, nextExpireTime, timers[t].period);
    }

    /** prvSwitchTimerLists, the tick having reached the true time `at`. */
    method SwitchTimerLists(ghost at: nat)
      requires Aligned() && Known(timers, current)
      modifies this`current, this`overflow, this`queue, this`references, this`log
      ensures Aligned() && State() == SwitchLists(old(State()), at)
    {
      while current != []
        invariant Aligned() && Known(timers, current)
        invariant SwitchLists(State(), at) == SwitchLists(old(State()), at)
        decreases Remaining(current)
      {
        ghost var before := State();
        var head := current[0];
        current := current[1..];
        MakeCallback(head.timer, CurrentDue(before, head), at);
        assert State() == PopHead(before, at);
        if timers[head.timer].autoReload {
          ReloadInSwitch(head.timer, head.value);
        }
        assert State() == SwitchPass(before, at);
      }
      current, overflow := overflow, current;
    }

    /** prvSampleTimeNow when xTaskGetTickCount returns `tick`, the true count
        being n. */
    method SampleTimeNow(tick: nat, ghost n: nat) returns (timeNow: nat, switched: bool)
      requires Aligned() && Known(timers, current) && tick == n % TICK_RANGE
      modifies this`current, this`overflow, this`queue, this`references, this`log, this`lastTime, this`now
      ensures Aligned() && State() == Sample(old(State()), n)
      ensures timeNow == tick && (switched <==> tick < old(lastTime))
    {
      timeNow := tick;
      if timeNow < lastTime {
        SwitchTimerLists(n);
        switched := true;
      } else {
        switched := false;
      }
      lastTime := timeNow;
      now := n;
    }

    /** prvGetNextExpireTime: as true times, nothing in either list is due
        before the result, an entry is due exactly then unless the current
        list is empty, and then the result is the next wrap of the tick. */
    method GetNextExpireTime() returns (nextExpireTime: nat, listWasEmpty: bool)
      requires Aligned()
      ensures listWasEmpty <==> current == []
      ensures current != [] ==> nextExpireTime == current[0].value
      ensures Inv(State()) ==> NothingDueBefore(State(), NextWakeUp(State(), nextExpireTime, listWasEmpty))
      ensures Inv(State()) && !listWasEmpty ==>
                exists e :: e in current && CurrentDue(State(), e) == NextWakeUp(State(), nextExpireTime, listWasEmpty)
      ensures listWasEmpty ==>
                NextWakeUp(State(), nextExpireTime, listWasEmpty) % TICK_RANGE == 0
                && now < NextWakeUp(State(), nextExpireTime, listWasEmpty) <= now + TICK_RANGE
    {
      listWasEmpty := current == [];
      nextExpireTime := if listWasEmpty then 0 else current[0].value;
      if Inv(State()) && !listWasEmpty {
        HeadIsDueFirst(State());
        assert current[0] in current;
      }
    }

    /** prvProcessTimerOrBlockTask; the result is what the task waits for. */
    method ProcessTimerOrBlockTask(nextExpireTime: nat, listWasEmpty: bool, tick: nat, ghost n: nat)
      returns (wait: Wait)
      requires Aligned() && Known(timers, current) && tick == n % TICK_RANGE
      requires listWasEmpty <==> current == []
      requires current != [] ==> nextExpireTime == current[0].value
      requires current == [] ==> nextExpireTime == 0
      modifies this
      ensures Aligned() && (State(), wait) == LoopTop(old(State()), n)
    {
      wait := NoWait;
      var timeNow, switched := SampleTimeNow(tick, n);
      if !switched {
        if !listWasEmpty && nextExpireTime <= timeNow {
          ProcessExpiredTimer(nextExpireTime, timeNow);
        } else {
          var indefinitely := listWasEmpty;
          if listWasEmpty {
            indefinitely := overflow == [];
          }
          wait := if indefinitely then WaitForever else WaitTicks((nextExpireTime - timeNow) % TICK_RANGE);
        }
      }
    }

    /** START, RESET and their relatives. */
    method ExecuteStart(t: TimerId, value: nat, timeNow: nat, ghost reference: nat)
      requires Aligned() && timeNow == lastTime && t in timers
      modifies this
      ensures Aligned() && State() == TimerModel.ExecuteStart(old(State()), t, value, reference)
    {
      var expiry := (value + timers[t].period) % TICK_RANGE;
      var expired := InsertTimerInActiveList(t, expiry, timeNow, value);
      if expired {
        MakeCallback(t, reference + timers[t].period, now);
        if timers[t].autoReload {
          GenericCommand(Start(t, expiry), reference + timers[t].period);
        }
      }
    }

    /** The effect of one received command, after the tick was sampled. */
    method ExecuteCommand(c: Command, timeNow: nat, ghost reference: nat)
      requires Aligned() && timeNow == lastTime
      requires !c.Pended? ==> c.timer in timers
      modifies this
      ensures Aligned() && State() == Execute(old(State()), Queued(c, reference))
    {
      match c
      case Start(t, value) =>
        ExecuteStart(t, value, timeNow, reference);
      case ChangePeriod(t, period) =>
        timers := timers[t := timers[t].(period := period)];
        var _ := InsertTimerInActiveList(t, (timeNow + period) % TICK_RANGE, timeNow, timeNow);
      case Stop(_) =>
      case Delete(_) =>
      case Pended =>
    }

    /** Take a timer out of the list it is in, if any. */
    method Detach(t: TimerId)
      requires Aligned()
      modifies this`current, this`overflow
      ensures State() == Unlink(old(State()), t)
    {
      if Count(current, t) > 0 {
        current := Without(current, t);
      } else {
        overflow := Without(overflow, t);
      }
    }

    /** One pass of the loop of prvProcessReceivedCommands. */
    method ReceiveCommand(tick: nat, ghost n: nat)
      requires Aligned() && Known(timers, current) && queue != [] && tick == n % TICK_RANGE
      requires !queue[0].Pended? ==> queue[0].timer in timers
      modifies this
      ensures Aligned() && State() == Receive(old(State()), n)
    {
      ghost var before := State();
      var c := queue[0];
      ghost var reference := references[0];
      queue, references := queue[1..], references[1..];
      assert State() == before.(queue := before.queue[1..]);
      if !c.Pended? {
        WithoutIt(current, c.timer, c.timer);
        Detach(c.timer);
        var timeNow, _ := SampleTimeNow(tick, n);
        ExecuteCommand(c, timeNow, reference);
      }
    }

    /** prvProcessReceivedCommands, run for as long as there are commands and
        the environment supplies ticks. */
    method ProcessReceivedCommands(ticks: seq<nat>, ghost times: seq<nat>) returns (used: nat)
      requires Aligned() && Inv(State()) && |ticks| == |times|
      requires forall i :: 0 <= i < |ticks| ==> ticks[i] == times[i] % TICK_RANGE
      modifies this
      ensures Aligned() && Inv(State())
      ensures used <= |ticks| && (used < |ticks| ==> queue == [])
      ensures State() == ReceiveAll(old(State()), times[..used])
    {
      used := 0;
      while queue != [] && used < |ticks|
        invariant used <= |ticks| && Aligned() && Inv(State())
        invariant State() == ReceiveAll(old(State()), times[..used])
        decreases |ticks| - used
      {
        ReceiveAllNext(old(State()), times, used);
        assert State().queue[0].command == queue[0];
        ReceiveCommand(ticks[used], times[used]);
        used := used + 1;
      }
    }

    /** The body of the loop of prvTimerTask: one decision, then the commands. */
    method TimerTaskPass(tick: nat, ghost n: nat, ticks: seq<nat>, ghost times: seq<nat>)
      returns (wait: Wait, used: nat)
      requires Aligned() && Inv(State()) && tick == n % TICK_RANGE && |ticks| == |times|
      requires forall i :: 0 <= i < |ticks| ==> ticks[i] == times[i] % TICK_RANGE
      modifies this
      ensures Aligned() && Inv(State()) && Inv(LoopTop(old(State()), n).0)
      ensures wait == LoopTop(old(State()), n).1
      ensures used <= |ticks| && (used < |ticks| ==> queue == [])
      ensures State() == ReceiveAll(LoopTop(old(State()), n).0, times[..used])
    {
      LoopTopKeeps(State(), n);
      var nextExpireTime, listWasEmpty := GetNextExpireTime();
      wait := ProcessTimerOrBlockTask(nextExpireTime, listWasEmpty, tick, n);
      used := ProcessReceivedCommands(ticks, times);
    }
  }

  /** The commands received one after another, at the given true times, until
      there is none left. */
  ghost function ReceiveAll(s: Daemon, times: seq<nat>): (r: Daemon)
    requires Inv(s)
    ensures Inv(r)
    decreases |times|
  {
    if times == [] || s.queue == [] then s
    else
      assert s.queue[0] in s.queue;
      ReceiveKeeps(s, times[0]);
      ReceiveAll(Receive(s, times[0]), times[1..])
  }

  lemma {:induction false} ReceiveAllAppend(s: Daemon, times: seq<nat>, n: nat)
    requires Inv(s) && ReceiveAll(s, times).queue != []
    ensures ReceiveAll(s, times).queue[0] in ReceiveAll(s, times).queue
    ensures ReceiveAll(s, times + [n]) == Receive(ReceiveAll(s, times), n)
    decreases |times|
  {
    if times == [] {
      assert s.queue != [];
      ReceiveKeeps(s, n);
      assert ([n])[1..] == [];
    } else if s.queue != [] {
      assert s.queue[0] in s.queue;
      ReceiveKeeps(s, times[0]);
      ReceiveAllAppend(Receive(s, times[0]), times[1..], n);
      assert (times + [n])[1..] == times[1..] + [n];
    }
  }

  lemma {:induction false} ReceiveAllNext(s: Daemon, times: seq<nat>, k: nat)
    requires Inv(s) && k < |times| && ReceiveAll(s, times[..k]).queue != []
    ensures var r := ReceiveAll(s, times[..k]);
            && (!r.queue[0].command.Pended? ==> r.queue[0].command.timer in r.timers)
            && ReceiveAll(s, times[..k + 1]) == Receive(r, times[k])
  {
    ReceiveAllAppend(s, times[..k], times[k]);
    assert times[..k] + [times[k]] == times[..k + 1];
  }
}
