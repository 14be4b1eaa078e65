/** 32-bit event words: the bits they hold as a set, and the packing of a
    request into one list item value. */
module EventWords {
  import opened EventModel

  const CLEAR_ON_EXIT: bv32 := 0x0100_0000
  const UNBLOCKED_BY_SET: bv32 := 0x0200_0000
  const WAIT_FOR_ALL: bv32 := 0x0400_0000
  const CONTROL: bv32 := 0xff00_0000
  const ITEM_IN_USE: bv32 := 0x8000_0000   // taskEVENT_LIST_ITEM_VALUE_IN_USE

  const MASKS: seq<bv32> := [
    0x1, 0x2, 0x4, 0x8, 0x10, 0x20, 0x40, 0x80,
    0x100, 0x200, 0x400, 0x800, 0x1000, 0x2000, 0x4000, 0x8000,
    0x1_0000, 0x2_0000, 0x4_0000, 0x8_0000, 0x10_0000, 0x20_0000, 0x40_0000, 0x80_0000]

  predicate Flag(v: bv32, m: bv32) { v & m != 0 }

  /** m has a single bit, as far as v can tell. */
  predicate Single(v: bv32, m: bv32) { m != 0 && (v & m == 0 || v & m == m) }

  predicate Test(v: bv32, i: nat) {
    i < 24 && Flag(v, MASKS[i])
  }

  /** The event bits of v; the top byte is not part of them. */
  function BitsOf(v: bv32): Bits {
    set i: nat | i < 24 && Test(v, i)
  }

  predicate NoControl(v: bv32) { v & CONTROL == 0 }

  lemma {:induction false} SingleBit(x: bv32, i: nat)
    requires i < 24
    ensures Single(x, MASKS[i])
  {
    if i < 8 {
      if i < 4 { if i == 0 {} else if i == 1 {} else if i == 2 {} else {} }
      else { if i == 4 {} else if i == 5 {} else if i == 6 {} else {} }
    } else if i < 16 {
      if i < 12 { if i == 8 {} else if i == 9 {} else if i == 10 {} else {} }
      else { if i == 12 {} else if i == 13 {} else if i == 14 {} else {} }
    } else {
      if i < 20 { if i == 16 {} else if i == 17 {} else if i == 18 {} else {} }
      else { if i == 20 {} else if i == 21 {} else if i == 22 {} else {} }
    }
  }

  /** uxEventBits |= b */
  function With(a: bv32, b: bv32): bv32 { a | b }

  lemma OrMisses(a: bv32, b: bv32, m: bv32)
    requires !Flag(a, m) && !Flag(b, m)
    ensures !Flag(With(a, b), m)
  {}

  lemma OrHits(a: bv32, b: bv32, m: bv32)
    requires Flag(a, m)
    ensures Flag(With(a, b), m) && Flag(With(b, a), m)
  {}

  lemma OrBit(a: bv32, b: bv32, m: bv32)
    ensures Flag(With(a, b), m) <==> Flag(a, m) || Flag(b, m)
  {
    if Flag(a, m) {
      OrHits(a, b, m);
    } else if Flag(b, m) {
      OrHits(b, a, m);
    } else {
      OrMisses(a, b, m);
    }
  }

  /** uxEventBits &= ~b */
  function Without(a: bv32, b: bv32): bv32 { a & !b }

  lemma AndNotClear(a: bv32, b: bv32, m: bv32)
    requires b & m == 0
    ensures Without(a, b) & m == a & m
  {}

  lemma AndNotSet(a: bv32, b: bv32, m: bv32)
    requires b & m == m
    ensures Without(a, b) & m == 0
  {}

  lemma SameFlag(x: bv32, y: bv32, m: bv32)
    requires x & m == y & m
    ensures Flag(x, m) <==> Flag(y, m)
  {}

  lemma AndNotBit(a: bv32, b: bv32, m: bv32)
    requires Single(b, m)
    ensures Flag(Without(a, b), m) <==> Flag(a, m) && !Flag(b, m)
  {
    var d := Without(a, b);
    if !Flag(b, m) {
      AndNotClear(a, b, m);
      SameFlag(d, a, m);
    } else {
      AndNotSet(a, b, m);
      assert !Flag(d, m);
    }
  }

  lemma AndClear(a: bv32, b: bv32, m: bv32)
    requires b & m == 0
    ensures (a & b) & m == 0
  {}

  lemma AndSet(a: bv32, b: bv32, m: bv32)
    requires b & m == m
    ensures (a & b) & m == a & m
  {}

  lemma AndBit(a: bv32, b: bv32, m: bv32)
    requires Single(b, m)
    ensures Flag(a & b, m) <==> Flag(a, m) && Flag(b, m)
  {
    if b & m == 0 { AndClear(a, b, m); } else { AndSet(a, b, m); }
  }

  lemma OrTest(a: bv32, b: bv32, i: nat)
    ensures Test(With(a, b), i) <==> Test(a, i) || Test(b, i)
  {
    if i < 24 { OrBit(a, b, MASKS[i]); }
  }

  lemma AndTest(a: bv32, b: bv32, i: nat)
    ensures Test(a & b, i) <==> Test(a, i) && Test(b, i)
  {
    if i < 24 {
      SingleBit(b, i);
      AndBit(a, b, MASKS[i]);
    }
  }

  lemma AndNotTest(a: bv32, b: bv32, i: nat)
    ensures Test(Without(a, b), i) <==> Test(a, i) && !Test(b, i)
  {
    if i < 24 {
      SingleBit(b, i);
      AndNotBit(a, b, MASKS[i]);
    }
  }

  lemma NoBitsZero(x: bv32)
    requires NoControl(x)
    requires x & 0x1 == 0 && x & 0x2 == 0 && x & 0x4 == 0 && x & 0x8 == 0
    requires x & 0x10 == 0 && x & 0x20 == 0 && x & 0x40 == 0 && x & 0x80 == 0
    requires x & 0x100 == 0 && x & 0x200 == 0 && x & 0x400 == 0 && x & 0x800 == 0
    requires x & 0x1000 == 0 && x & 0x2000 == 0 && x & 0x4000 == 0 && x & 0x8000 == 0
    requires x & 0x1_0000 == 0 && x & 0x2_0000 == 0 && x & 0x4_0000 == 0 && x & 0x8_0000 == 0
    requires x & 0x10_0000 == 0 && x & 0x20_0000 == 0 && x & 0x40_0000 == 0 && x & 0x80_0000 == 0
    ensures x == 0
  {}

  lemma {:induction false} NoTestZero(x: bv32)
    requires NoControl(x)
    requires forall i :: 0 <= i < 24 ==> !Test(x, i)
    ensures x == 0
  {
    assert !Test(x, 0) && !Test(x, 1) && !Test(x, 2) && !Test(x, 3) && !Test(x, 4) && !Test(x, 5);
    assert !Test(x, 6) && !Test(x, 7) && !Test(x, 8) && !Test(x, 9) && !Test(x, 10) && !Test(x, 11);
    assert !Test(x, 12) && !Test(x, 13) && !Test(x, 14) && !Test(x, 15) && !Test(x, 16) && !Test(x, 17);
    assert !Test(x, 18) && !Test(x, 19) && !Test(x, 20) && !Test(x, 21) && !Test(x, 22) && !Test(x, 23);
    NoBitsZero(x);
  }

  /** A word without control bits is zero exactly if it holds no event bit. */
  lemma {:induction false} EmptyIffZero(x: bv32)
    requires NoControl(x)
    ensures BitsOf(x) == {} <==> x == 0
  {
    if x == 0 {
      forall i: nat ensures i !in BitsOf(x) { ZeroTest(i); }
    } else if forall i :: 0 <= i < 24 ==> !Test(x, i) {
      NoTestZero(x);
    } else {
      var i :| 0 <= i < 24 && Test(x, i);
      assert i in BitsOf(x);
    }
  }

  lemma ZeroTest(i: nat)
    ensures !Test(0, i)
  {
    if i < 24 { ZeroAnd(MASKS[i]); }
  }

  lemma ZeroAnd(m: bv32)
    ensures 0 & m == 0
  {}

  lemma {:induction false} OrIsUnion(a: bv32, b: bv32)
    ensures BitsOf(With(a, b)) == BitsOf(a) + BitsOf(b)
  {
    forall i: nat
      ensures i in BitsOf(With(a, b)) <==> i in BitsOf(a) + BitsOf(b)
    {
      OrTest(a, b, i);
    }
  }

  lemma {:induction false} AndIsIntersection(a: bv32, b: bv32)
    ensures BitsOf(a & b) == BitsOf(a) * BitsOf(b)
  {
    forall i: nat
      ensures i in BitsOf(a & b) <==> i in BitsOf(a) * BitsOf(b)
    {
      AndTest(a, b, i);
    }
  }

  lemma {:induction false} AndNotIsDifference(a: bv32, b: bv32)
    ensures BitsOf(Without(a, b)) == BitsOf(a) - BitsOf(b)
  {
    forall i: nat
      ensures i in BitsOf(Without(a, b)) <==> i in BitsOf(a) - BitsOf(b)
    {
      AndNotTest(a, b, i);
    }
  }

  lemma MissingBits(a: bv32, w: bv32)
    requires NoControl(w)
    ensures NoControl(w & !a)
    ensures a & w == w <==> w & !a == 0
  {}

  lemma {:induction false} CleanWords(a: bv32, b: bv32)
    requires NoControl(a)
    ensures NoControl(b) ==> NoControl(With(a, b))
    ensures NoControl(Without(a, b))
  {}

  lemma AndOfClean(a: bv32, w: bv32)
    requires NoControl(w)
    ensures NoControl(a & w)
  {}

  /** The mask tests of the code decide subset and overlap. */
  lemma {:induction false} MaskTests(a: bv32, w: bv32)
    requires NoControl(w)
    ensures a & w == w <==> BitsOf(w) <= BitsOf(a)
    ensures a & w != 0 <==> BitsOf(w) * BitsOf(a) != {}
  {
    MissingBits(a, w);
    AndNotIsDifference(w, a);
    EmptyIffZero(w & !a);
    assert BitsOf(w) - BitsOf(a) == {} <==> BitsOf(w) <= BitsOf(a);
    AndOfClean(a, w);
    AndIsIntersection(a, w);
    EmptyIffZero(a & w);
    assert BitsOf(w) * BitsOf(a) == BitsOf(a) * BitsOf(w);
  }

  function AllSet(a: bv32, w: bv32): (met: bool)
    requires NoControl(w)
    ensures met <==> BitsOf(w) <= BitsOf(a)
  {
    MaskTests(a, w);
    a & w == w
  }

  function SomeSet(a: bv32, w: bv32): (met: bool)
    requires NoControl(w)
    ensures met <==> BitsOf(w) * BitsOf(a) != {}
  {
    MaskTests(a, w);
    a & w != 0
  }

  /** prvTestWaitCondition. */
  function TestWaitCondition(current: bv32, wanted: bv32, all: bool): (met: bool)
    requires NoControl(wanted)
    ensures forall clear :: met <==> Satisfied(BitsOf(current), Request(BitsOf(wanted), clear, all))
  {
    if !all then SomeSet(current, wanted) else AllSet(current, wanted)
  }

  // ------------------------------------------------------------------- packing

  /** A list item value while its task waits. */
  function Pack(wanted: bv32, clear: bool, all: bool): bv32 {
    Stored(wanted, ControlBits(clear, all))
  }

  function ControlBits(clear: bool, all: bool): bv32 {
    (if clear then CLEAR_ON_EXIT else 0) | (if all then WAIT_FOR_ALL else 0)
  }

  /** The value the kernel stores for event bits w and control bits k. */
  function Stored(w: bv32, k: bv32): bv32 { (w | k) | ITEM_IN_USE }

  /** A list item value once a set has unblocked its task. */
  function Delivery(bits: bv32): bv32 {
    Stored(bits, UNBLOCKED_BY_SET)
  }

  function EventPart(v: bv32): (w: bv32)
    ensures NoControl(w)
  {
    DropControl(v);
    v & !CONTROL
  }

  lemma DropControl(v: bv32)
    ensures NoControl(v & !CONTROL)
  {}

  predicate Clears(v: bv32) { v & CLEAR_ON_EXIT != 0 }

  predicate WaitsForAll(v: bv32) { v & WAIT_FOR_ALL != 0 }

  predicate UnblockedBySet(v: bv32) { v & UNBLOCKED_BY_SET != 0 }

  /** The request a list item value stands for. */
  function RequestOf(v: bv32): Request {
    Request(BitsOf(EventPart(v)), Clears(v), WaitsForAll(v))
  }

  lemma StoredFields(w: bv32, k: bv32)
    requires NoControl(w) && k & !CONTROL == 0
    ensures Stored(w, k) & !CONTROL == w
    ensures Stored(w, k) & CLEAR_ON_EXIT == k & CLEAR_ON_EXIT
    ensures Stored(w, k) & WAIT_FOR_ALL == k & WAIT_FOR_ALL
    ensures Stored(w, k) & UNBLOCKED_BY_SET == k & UNBLOCKED_BY_SET
  {}

  lemma ControlFields(clear: bool, all: bool)
    ensures var k := ControlBits(clear, all);
            k & !CONTROL == 0 && Clears(k) == clear && WaitsForAll(k) == all && !UnblockedBySet(k)
  {}

  lemma PackFields(w: bv32, clear: bool, all: bool)
    requires NoControl(w)
    ensures var v := Pack(w, clear, all);
            EventPart(v) == w && Clears(v) == clear && WaitsForAll(v) == all && !UnblockedBySet(v)
  {
    var k := ControlBits(clear, all);
    ControlFields(clear, all);
    StoredFields(w, k);
    var v := Stored(w, k);
    assert Clears(v) == Clears(k);
    assert WaitsForAll(v) == WaitsForAll(k);
    assert UnblockedBySet(v) == UnblockedBySet(k);
  }

  /** Packing then unpacking gives the request back, and the stored value never
      looks like that of a task unblocked by a set. */
  lemma {:induction false} PackRoundTrip(w: bv32, clear: bool, all: bool)
    requires NoControl(w)
    ensures RequestOf(Pack(w, clear, all)) == Request(BitsOf(w), clear, all)
    ensures !UnblockedBySet(Pack(w, clear, all))
  {
    PackFields(w, clear, all);
  }

  /** What a set stores in the item of an unblocked task is recognisable, and
      the event bits come back unharmed. */
  lemma DeliveredValue(bits: bv32)
    requires NoControl(bits)
    ensures UnblockedBySet(Delivery(bits)) && EventPart(Delivery(bits)) == bits
  {
    StoredFields(bits, UNBLOCKED_BY_SET);
  }
}
