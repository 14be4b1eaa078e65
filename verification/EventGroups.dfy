/** The event group object of event_groups.c, on 32-bit words. */
module EventGroups {
  import opened Sequences
  import opened EventModel
  import opened EventWords

  /** An event list item of a blocked task. */
  datatype Item = Item(task: TaskId, value: bv32)

  /** An item that a set removed, and the value the set stored in it. */
  datatype Removed = Removed(was: Item, value: bv32)

  function WaiterOf(i: Item): Waiter {
    Waiter(i.task, RequestOf(i.value))
  }

  function WaitersOf(s: seq<Item>): seq<Waiter> {
    if s == [] then [] else [WaiterOf(s[0])] + WaitersOf(s[1..])
  }

  function WokenOf(r: Removed): Woken {
    Woken(r.was.task, RequestOf(r.was.value), BitsOf(EventPart(r.value)))
  }

  function AllWoken(s: seq<Removed>): seq<Woken> {
    if s == [] then [] else [WokenOf(s[0])] + AllWoken(s[1..])
  }

  lemma {:induction false} WaitersAppend(s: seq<Item>, i: Item)
    ensures WaitersOf(s + [i]) == WaitersOf(s) + [WaiterOf(i)]
  {
    if s == [] {
      assert s + [i] == [i];
    } else {
      assert (s + [i])[1..] == s[1..] + [i];
      WaitersAppend(s[1..], i);
    }
  }

  lemma {:induction false} WokenAppend(s: seq<Removed>, r: Removed)
    ensures AllWoken(s + [r]) == AllWoken(s) + [WokenOf(r)]
  {
    if s == [] {
      assert s + [r] == [r];
    } else {
      assert (s + [r])[1..] == s[1..] + [r];
      WokenAppend(s[1..], r);
    }
  }

  lemma NothingSet()
    ensures BitsOf(0) == {}
  {
    EmptyIffZero(0);
  }

  /** The match test of xEventGroupSetBits, on a list item value. */
  function Matches(bits: bv32, value: bv32): (met: bool)
    ensures met <==> Satisfied(BitsOf(bits), RequestOf(value))
  {
    if !WaitsForAll(value) then SomeSet(bits, EventPart(value)) else AllSet(bits, EventPart(value))
  }

  /** How far the traversal in xEventGroupSetBits is: `kept` stays, `rest` is
      still to be looked at, and what was removed and what is to be cleared make
      up the whole result with what `rest` will add. */
  ghost predicate Traversed(kept: seq<Item>, rest: seq<Item>, removed: seq<Removed>, clear: bv32,
                            all: seq<Waiter>, raised: Bits)
  {
    && WaitersOf(kept) + StillWaiting(WaitersOf(rest), raised) == StillWaiting(all, raised)
    && AllWoken(removed) + Unblocked(WaitersOf(rest), raised) == Unblocked(all, raised)
    && BitsOf(clear) + ClearMask(WaitersOf(rest), raised) == ClearMask(all, raised)
    && forall r :: r in removed ==> UnblockedBySet(r.value)
  }

  lemma {:induction false} TraversalStarts(s: seq<Item>, raised: Bits)
    ensures Traversed([], s, [], 0, WaitersOf(s), raised)
  {
    NothingSet();
  }

  lemma {:induction false} TraversalEnds(kept: seq<Item>, removed: seq<Removed>, clear: bv32, all: seq<Waiter>,
                                         raised: Bits)
    requires Traversed(kept, [], removed, clear, all, raised)
    ensures WaitersOf(kept) == StillWaiting(all, raised) && AllWoken(removed) == Unblocked(all, raised)
    ensures BitsOf(clear) == ClearMask(all, raised)
  {
    Emptys(WaitersOf(kept));
    Emptys(AllWoken(removed));
  }

  /** Passing over an item whose request is not met. */
  lemma {:induction false} SkipStep(kept: seq<Item>, item: Item, rest: seq<Item>, removed: seq<Removed>, clear: bv32,
                                    all: seq<Waiter>, raised: Bits)
    requires Traversed(kept, [item] + rest, removed, clear, all, raised)
    requires !Satisfied(raised, RequestOf(item.value))
    ensures Traversed(kept + [item], rest, removed, clear, all, raised)
  {
    WaitersAppend(kept, item);
    assert ([item] + rest)[1..] == rest;
    Regroup(WaitersOf(kept), [WaiterOf(item)], StillWaiting(WaitersOf(rest), raised));
  }

  /** What an item whose request is met adds to the result. */
  lemma {:induction false} MetItem(r: Removed, rest: seq<Item>, raised: Bits)
    requires Satisfied(raised, RequestOf(r.was.value)) && BitsOf(EventPart(r.value)) == raised
    ensures StillWaiting(WaitersOf([r.was] + rest), raised) == StillWaiting(WaitersOf(rest), raised)
    ensures Unblocked(WaitersOf([r.was] + rest), raised) == [WokenOf(r)] + Unblocked(WaitersOf(rest), raised)
    ensures ClearMask(WaitersOf([r.was] + rest), raised)
         == (if Clears(r.was.value) then BitsOf(EventPart(r.was.value)) else {}) + ClearMask(WaitersOf(rest), raised)
  {
    assert ([r.was] + rest)[1..] == rest;
  }

  lemma {:induction false} WokenGrows(r: Removed, rest: seq<Item>, removed: seq<Removed>, raised: Bits)
    requires Satisfied(raised, RequestOf(r.was.value)) && BitsOf(EventPart(r.value)) == raised
    ensures AllWoken(removed + [r]) + Unblocked(WaitersOf(rest), raised)
         == AllWoken(removed) + Unblocked(WaitersOf([r.was] + rest), raised)
  {
    MetItem(r, rest, raised);
    WokenAppend(removed, r);
    Regroup(AllWoken(removed), [WokenOf(r)], Unblocked(WaitersOf(rest), raised));
  }

  function AlsoCleared(clear: bv32, value: bv32): bv32 {
    if Clears(value) then With(clear, EventPart(value)) else clear
  }

  lemma {:induction false} MaskGrows(r: Removed, rest: seq<Item>, clear: bv32, raised: Bits)
    requires Satisfied(raised, RequestOf(r.was.value)) && BitsOf(EventPart(r.value)) == raised
    ensures BitsOf(AlsoCleared(clear, r.was.value)) + ClearMask(WaitersOf(rest), raised)
         == BitsOf(clear) + ClearMask(WaitersOf([r.was] + rest), raised)
  {
    MetItem(r, rest, raised);
    OrIsUnion(clear, EventPart(r.was.value));
  }

  /** Removing an item whose request is met. */
  lemma {:induction false} RemoveStep(kept: seq<Item>, r: Removed, rest: seq<Item>, removed: seq<Removed>, clear: bv32,
                                      all: seq<Waiter>, raised: Bits)
    requires Traversed(kept, [r.was] + rest, removed, clear, all, raised)
    requires Satisfied(raised, RequestOf(r.was.value)) && BitsOf(EventPart(r.value)) == raised
    requires UnblockedBySet(r.value)
    ensures Traversed(kept, rest, removed + [r], AlsoCleared(clear, r.was.value), all, raised)
  {
    MetItem(r, rest, raised);
    WokenGrows(r, rest, removed, raised);
    MaskGrows(r, rest, clear, raised);
  }

  class EventGroup {
    var uxEventBits: bv32
    var waiting: seq<Item>          // xTasksWaitingForBits

    predicate Valid() reads this {
      NoControl(uxEventBits)
    }

    function State(): Group reads this {
      Group(BitsOf(uxEventBits), WaitersOf(waiting))
    }

    constructor ()
      ensures Valid() && State() == Group({}, [])
    {
      uxEventBits, waiting := 0, [];
      new;
      NothingSet();
    }

    /** The traversal in xEventGroupSetBits: removes the items whose request the
        bits meet and collects what they want cleared. */
    method UnblockMatching() returns (uxBitsToClear: bv32, removed: seq<Removed>)
      requires Valid()
      modifies this`waiting
      ensures WaitersOf(waiting) == StillWaiting(old(WaitersOf(waiting)), BitsOf(uxEventBits))
      ensures AllWoken(removed) == Unblocked(old(WaitersOf(waiting)), BitsOf(uxEventBits))
      ensures BitsOf(uxBitsToClear) == ClearMask(old(WaitersOf(waiting)), BitsOf(uxEventBits))
      ensures forall r :: r in removed ==> UnblockedBySet(r.value)
    {
      ghost var all, raised := WaitersOf(waiting), BitsOf(uxEventBits);
      var i := 0;
      uxBitsToClear, removed := 0, [];
      DeliveredValue(uxEventBits);
      TraversalStarts(waiting, raised);
      assert waiting[..0] == [] && waiting[0..] == waiting;
      while i < |waiting|
        invariant 0 <= i <= |waiting|
        invariant Traversed(waiting[..i], waiting[i..], removed, uxBitsToClear, all, raised)
        decreases |waiting| - i
      {
        var item := waiting[i];
        ghost var kept, rest := waiting[..i], waiting[i + 1..];
        assert waiting[i..] == [item] + rest;
        if Matches(uxEventBits, item.value) {
          var r := Removed(item, Delivery(uxEventBits));
          RemoveStep(kept, r, rest, removed, uxBitsToClear, all, raised);
          if Clears(item.value) {
            uxBitsToClear := With(uxBitsToClear, EventPart(item.value));
          }
          removed := removed + [r];
          waiting := waiting[..i] + waiting[i + 1..];
          assert waiting[..i] == kept && waiting[i..] == rest;
        } else {
          SkipStep(kept, item, rest, removed, uxBitsToClear, all, raised);
          i := i + 1;
          assert waiting[..i] == kept + [item];
        }
      }
      assert waiting[i..] == [] && waiting[..i] == waiting;
      TraversalEnds(waiting, removed, uxBitsToClear, all, raised);
    }

    /** xEventGroupSetBits */
    method SetBits(uxBitsToSet: bv32) returns (uxReturn: bv32, removed: seq<Removed>)
      requires Valid() && NoControl(uxBitsToSet)
      modifies this
      ensures Valid() && uxReturn == uxEventBits
      ensures (State(), AllWoken(removed)) == EventModel.SetBits(old(State()), BitsOf(uxBitsToSet))
      ensures forall b :: b in BitsOf(uxEventBits) <==> LeftBySet(old(State()), BitsOf(uxBitsToSet), b)
      ensures forall r :: r in removed ==> UnblockedBySet(r.value)
    {
      OrIsUnion(uxEventBits, uxBitsToSet);
      CleanWords(uxEventBits, uxBitsToSet);
      uxEventBits := With(uxEventBits, uxBitsToSet);
      var uxBitsToClear;
      uxBitsToClear, removed := UnblockMatching();
      AndNotIsDifference(uxEventBits, uxBitsToClear);
      CleanWords(uxEventBits, uxBitsToClear);
      uxEventBits := Without(uxEventBits, uxBitsToClear);
      uxReturn := uxEventBits;
      forall b ensures b in BitsOf(uxEventBits) <==> LeftBySet(old(State()), BitsOf(uxBitsToSet), b) {
        SetLeaves(old(State()), BitsOf(uxBitsToSet), b);
      }
    }

    /** xEventGroupClearBits */
    method ClearBits(uxBitsToClear: bv32) returns (uxReturn: bv32)
      requires Valid() && NoControl(uxBitsToClear)
      modifies this`uxEventBits
      ensures Valid() && uxReturn == old(uxEventBits)
      ensures State() == EventModel.ClearBits(old(State()), BitsOf(uxBitsToClear))
      ensures BitsOf(uxEventBits) == BitsOf(old(uxEventBits)) - BitsOf(uxBitsToClear)
    {
      uxReturn := uxEventBits;
      AndNotIsDifference(uxEventBits, uxBitsToClear);
      CleanWords(uxEventBits, uxBitsToClear);
      uxEventBits := Without(uxEventBits, uxBitsToClear);
    }

    /** vTaskPlaceOnUnorderedEventList */
    method Place(t: TaskId, uxBitsToWaitFor: bv32, clear: bool, all: bool)
      requires Valid() && NoControl(uxBitsToWaitFor)
      modifies this`waiting
      ensures State() == Block(old(State()), t, Request(BitsOf(uxBitsToWaitFor), clear, all))
      ensures |waiting| == old(|waiting|) + 1 && !UnblockedBySet(waiting[|waiting| - 1].value)
    {
      var item := Item(t, Pack(uxBitsToWaitFor, clear, all));
      PackRoundTrip(uxBitsToWaitFor, clear, all);
      WaitersAppend(waiting, item);
      waiting := waiting + [item];
    }

    /** xEventGroupWaitBits up to the point where the task blocks or is done. */
    method WaitBits(t: TaskId, uxBitsToWaitFor: bv32, xClearOnExit: bool, xWaitForAllBits: bool, mayBlock: bool)
      returns (blocked: bool, uxReturn: bv32)
      requires Valid() && NoControl(uxBitsToWaitFor) && uxBitsToWaitFor != 0
      modifies this
      ensures Valid()
      ensures (State(), if blocked then Blocked else Done(BitsOf(uxReturn)))
           == EventModel.WaitBits(old(State()), t, Request(BitsOf(uxBitsToWaitFor), xClearOnExit, xWaitForAllBits),
                                   mayBlock)
      ensures blocked ==> waiting != [] && !UnblockedBySet(waiting[|waiting| - 1].value)
      ensures var met := Meets(BitsOf(old(uxEventBits)), BitsOf(uxBitsToWaitFor), xWaitForAllBits);
              && (blocked <==> !met && mayBlock) && (!blocked ==> uxReturn == old(uxEventBits))
              && BitsOf(uxEventBits)
                 == BitsOf(old(uxEventBits)) - if met && xClearOnExit then BitsOf(uxBitsToWaitFor) else {}
    {
      SatisfiedMeans(BitsOf(uxEventBits), Request(BitsOf(uxBitsToWaitFor), xClearOnExit, xWaitForAllBits));
      blocked, uxReturn := false, uxEventBits;
      if TestWaitCondition(uxEventBits, uxBitsToWaitFor, xWaitForAllBits) {
        if xClearOnExit {
          var _ := ClearBits(uxBitsToWaitFor);
        }
      } else if mayBlock {
        Place(t, uxBitsToWaitFor, xClearOnExit, xWaitForAllBits);
        blocked := true;
      }
    }

    /** xEventGroupSync up to the point where the task blocks or is done. */
    method Sync(t: TaskId, uxBitsToSet: bv32, uxBitsToWaitFor: bv32, mayBlock: bool)
      returns (blocked: bool, uxReturn: bv32, removed: seq<Removed>)
      requires Valid() && NoControl(uxBitsToSet) && NoControl(uxBitsToWaitFor) && uxBitsToWaitFor != 0
      modifies this
      ensures Valid()
      ensures (State(), if blocked then Blocked else Done(BitsOf(uxReturn)), AllWoken(removed))
           == EventModel.Sync(old(State()), t, BitsOf(uxBitsToSet), BitsOf(uxBitsToWaitFor), mayBlock)
      ensures forall r :: r in removed ==> UnblockedBySet(r.value)
      ensures blocked ==> waiting != [] && !UnblockedBySet(waiting[|waiting| - 1].value)
      ensures var raised := BitsOf(old(uxEventBits)) + BitsOf(uxBitsToSet);
              && (blocked <==> !Meets(raised, BitsOf(uxBitsToWaitFor), true) && mayBlock)
              && (Meets(raised, BitsOf(uxBitsToWaitFor), true) ==> BitsOf(uxReturn) == raised)
              && forall b :: b in BitsOf(uxEventBits) <==>
                   LeftBySet(old(State()), BitsOf(uxBitsToSet), b)
                   && !(Meets(raised, BitsOf(uxBitsToWaitFor), true) && b in BitsOf(uxBitsToWaitFor))
    {
      var uxOriginalBitValue := uxEventBits;
      uxReturn, removed := SetBits(uxBitsToSet);
      OrIsUnion(uxOriginalBitValue, uxBitsToSet);
      CleanWords(uxOriginalBitValue, uxBitsToSet);
      blocked := false;
      if AllSet(With(uxOriginalBitValue, uxBitsToSet), uxBitsToWaitFor) {
        uxReturn := With(uxOriginalBitValue, uxBitsToSet);
        var _ := ClearBits(uxBitsToWaitFor);
      } else if mayBlock {
        Place(t, uxBitsToWaitFor, true, true);
        blocked, uxReturn := true, 0;
      }
    }

    /** The rest of a wait or sync that blocked, given the value found in the
        task's event list item. */
    method FinishWait(itemValue: bv32, uxBitsToWaitFor: bv32, xClearOnExit: bool, xWaitForAllBits: bool)
      returns (uxReturn: bv32)
      requires Valid() && NoControl(uxBitsToWaitFor)
      modifies this`uxEventBits
      ensures Valid() && NoControl(uxReturn)
      ensures if !UnblockedBySet(itemValue)
              then (State(), BitsOf(uxReturn))
                == AfterTimeout(old(State()), Request(BitsOf(uxBitsToWaitFor), xClearOnExit, xWaitForAllBits))
              else State() == old(State()) && uxReturn == EventPart(itemValue)
      ensures !UnblockedBySet(itemValue) ==>
                && uxReturn == old(uxEventBits)
                && BitsOf(uxEventBits) == BitsOf(old(uxEventBits))
                   - if xClearOnExit && Meets(BitsOf(old(uxEventBits)), BitsOf(uxBitsToWaitFor), xWaitForAllBits)
                     then BitsOf(uxBitsToWaitFor) else {}
    {
      SatisfiedMeans(BitsOf(uxEventBits), Request(BitsOf(uxBitsToWaitFor), xClearOnExit, xWaitForAllBits));
      if !UnblockedBySet(itemValue) {
        uxReturn := uxEventBits;
        if TestWaitCondition(uxReturn, uxBitsToWaitFor, xWaitForAllBits) && xClearOnExit {
          var _ := ClearBits(uxBitsToWaitFor);
        }
      } else {
        uxReturn := EventPart(itemValue);
      }
    }
  }
}
