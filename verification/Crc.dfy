/** memcrc of deltaupgmcu.py against polynomial division over GF(2). */
module Crc {
  import opened CrcTable

  type Byte = bv8

  // ------------------------------------------------------ division, bit by bit

  const GENERATOR: bv33 := 0x1_04C1_1DB7

  /** One step of long division: the next coefficient of the dividend is brought
      down, and the generator subtracted if it divides. */
  function BringDown(r: bv32, b: bool): bv32 {
    var w := Shifted(r, b);
    Low(if w & 0x1_0000_0000 != 0 then w ^ GENERATOR else w)
  }

  function Shifted(r: bv32, b: bool): bv33 {
    ((r as bv33) << 1) | (if b then 1 else 0)
  }

  function Low(w: bv33): bv32 {
    LowFits(w);
    (w & 0xFFFF_FFFF) as bv32
  }

  lemma LowFits(w: bv33)
    ensures w & 0xFFFF_FFFF <= 0xFFFF_FFFF
  {}

  /** The remainder of a dividend, given by its coefficients from the highest. */
  function Remainder(r: bv32, dividend: seq<bool>): bv32
    decreases |dividend|
  {
    if dividend == [] then r else Remainder(BringDown(r, dividend[0]), dividend[1..])
  }

  /** The coefficients of a byte, the highest bit first. */
  function Bits(c: Byte): seq<bool> {
    [Bit(c, 0x80), Bit(c, 0x40), Bit(c, 0x20), Bit(c, 0x10)] + [Bit(c, 0x08), Bit(c, 0x04), Bit(c, 0x02), Bit(c, 0x01)]
  }

  predicate Bit(c: Byte, m: Byte) { c & m != 0 }

  function AllBits(data: seq<Byte>): seq<bool> {
    if data == [] then [] else Bits(data[0]) + AllBits(data[1..])
  }

  function Zeros(n: nat): seq<bool> {
    if n == 0 then [] else [false] + Zeros(n - 1)
  }

  /** The length as the utility appends it: as few bytes as it needs, lowest first. */
  function LengthBytes(n: nat): seq<Byte> {
    if n == 0 then [] else [LowByte(n)] + LengthBytes(n / 256)
  }

  function LowByte(n: nat): Byte { (n % 256) as bv8 }

  /** cksum of POSIX.1-2017 Shell & Utilities section 3: the data and its length,
      times x^32, divided by the generator; the remainder complemented. */
  function Cksum(data: seq<Byte>): bv32 {
    Complement(Remainder(0, AllBits(data + LengthBytes(|data|)) + Zeros(32)))
  }

  function Complement(s: bv32): bv32 { !s }

  // ------------------------------------------------------------------- algebra

  function TimesN(r: bv32, n: nat): bv32 {
    if n == 0 then r else Times(TimesN(r, n - 1))
  }

  /** Multiplication by x, then adding the next bit scaled by x^32. */
  function Feed(s: bv32, b: bool): bv32 {
    Xor(Times(s), if b then G else 0)
  }

  function FeedAll(s: bv32, bits: seq<bool>): bv32
    decreases |bits|
  {
    if bits == [] then s else FeedAll(Feed(s, bits[0]), bits[1..])
  }

  lemma CarryOut(r: bv32, b: bool)
    ensures Shifted(r, b) & 0x1_0000_0000 != 0 <==> Top(r)
  {}

  lemma LowShifted(r: bv32, b: bool)
    ensures Low(Shifted(r, b)) == Xor(Double(r), if b then 1 else 0)
  {}

  lemma LowSubtracted(w: bv33)
    ensures Low(w ^ GENERATOR) == Xor(Low(w), G)
  {}

  lemma XorLaws(a: bv32, b: bv32, c: bv32)
    ensures Xor(Xor(a, b), c) == Xor(Xor(a, c), b)
    ensures Xor(a, Xor(b, c)) == Xor(Xor(a, b), c)
    ensures Xor(a, b) == Xor(b, a)
    ensures Xor(a, 0) == a
    ensures Xor(Xor(a, b), b) == a
  {}

  lemma {:induction false} BringDownIs(r: bv32, b: bool)
    ensures BringDown(r, b) == Xor(Times(r), if b then 1 else 0)
  {
    CarryOut(r, b);
    LowShifted(r, b);
    LowSubtracted(Shifted(r, b));
    XorLaws(Double(r), if b then 1 else 0, G);
  }

  lemma TopXor(a: bv32, b: bv32)
    ensures Top(Xor(a, b)) <==> Top(a) != Top(b)
  {
    TopIs(a);
    TopIs(b);
    TopIs(Xor(a, b));
    assert Xor(a, b) & 0x8000_0000 == Xor(a & 0x8000_0000, b & 0x8000_0000);
  }

  lemma TopIs(a: bv32)
    ensures a & 0x8000_0000 == if Top(a) then 0x8000_0000 else 0
  {}

  lemma DoubleXor(a: bv32, b: bv32)
    ensures Double(Xor(a, b)) == Xor(Double(a), Double(b))
  {}

  lemma XorCancels(a: bv32, b: bv32, c: bv32)
    ensures Xor(Xor(a, c), Xor(b, c)) == Xor(a, b)
  {
    XorLaws(Xor(a, c), b, c);
    XorLaws(a, c, b);
    XorLaws(Xor(a, b), c, c);
    assert Xor(Xor(a, c), Xor(b, c)) == Xor(Xor(Xor(a, c), b), c);
    assert Xor(Xor(a, c), b) == Xor(Xor(a, b), c);
  }

  lemma ReduceXor(t: bool, u: bool, either: bool, x: bv32, y: bv32)
    requires either <==> t != u
    ensures Reduce(either, Xor(x, y)) == Xor(Reduce(t, x), Reduce(u, y))
  {
    if t && u {
      XorCancels(x, y, G);
    } else if t {
      XorLaws(x, G, y);
    } else if u {
      XorLaws(x, y, G);
    }
  }

  lemma TimesIs(r: bv32, carry: bool, d: bv32)
    requires carry == Top(r) && d == Double(r)
    ensures Times(r) == Reduce(carry, d)
  {}

  lemma {:induction false} TimesLinear(a: bv32, b: bv32)
    ensures Times(Xor(a, b)) == Xor(Times(a), Times(b))
  {
    TopXor(a, b);
    DoubleXor(a, b);
    var s, x, y := Xor(a, b), Double(a), Double(b);
    var t, u, either, z := Top(a), Top(b), Top(s), Xor(x, y);
    TimesIs(a, t, x);
    TimesIs(b, u, y);
    TimesIs(s, either, z);
    ReduceXor(t, u, either, x, y);
  }

  lemma {:induction false} TimesNLinear(a: bv32, b: bv32, n: nat)
    ensures TimesN(Xor(a, b), n) == Xor(TimesN(a, n), TimesN(b, n))
  {
    if n > 0 {
      TimesNLinear(a, b, n - 1);
      TimesLinear(TimesN(a, n - 1), TimesN(b, n - 1));
    }
  }

  lemma {:induction false} TimesNTimes(r: bv32, n: nat)
    ensures TimesN(Times(r), n) == Times(TimesN(r, n))
  {
    if n > 0 { TimesNTimes(r, n - 1); }
  }

  /** x^32 is 0x04C11DB7 modulo the generator. */
  lemma {:induction false} XTo32()
    ensures TimesN(1, 32) == 0x04C1_1DB7
  {
    assert TimesN(1, 4) == 0x10;
    assert TimesN(1, 8) == 0x100;
    assert TimesN(1, 12) == 0x1000;
    assert TimesN(1, 16) == 0x1_0000;
    assert TimesN(1, 20) == 0x10_0000;
    assert TimesN(1, 24) == 0x100_0000;
    assert TimesN(1, 28) == 0x1000_0000;
  }

  lemma {:induction false} TimesNZero(n: nat)
    ensures TimesN(0, n) == 0
  {
    if n > 0 { TimesNZero(n - 1); }
  }

  /** Bringing a bit down before the final multiplication by x^32 is feeding it
      after. */
  lemma {:induction false} BringDownFeeds(r: bv32, b: bool)
    ensures TimesN(BringDown(r, b), 32) == Feed(TimesN(r, 32), b)
  {
    var one: bv32 := if b then 1 else 0;
    BringDownIs(r, b);
    TimesNLinear(Times(r), one, 32);
    TimesNTimes(r, 32);
    XTo32();
    TimesNZero(32);
  }

  lemma {:induction false} RemainderOfZeros(r: bv32, n: nat)
    ensures Remainder(r, Zeros(n)) == TimesN(r, n)
    decreases n
  {
    if n > 0 {
      BringDownIs(r, false);
      XorLaws(Times(r), 0, 0);
      assert Zeros(n)[1..] == Zeros(n - 1);
      RemainderOfZeros(Times(r), n - 1);
      TimesNTimes(r, n - 1);
    }
  }

  /** Division of the bits times x^32 is feeding the bits one by one. */
  lemma {:induction false} DivisionFeeds(r: bv32, bits: seq<bool>)
    ensures Remainder(r, bits + Zeros(32)) == FeedAll(TimesN(r, 32), bits)
    decreases |bits|
  {
    if bits == [] {
      assert bits + Zeros(32) == Zeros(32);
      RemainderOfZeros(r, 32);
    } else {
      assert (bits + Zeros(32))[1..] == bits[1..] + Zeros(32);
      DivisionFeeds(BringDown(r, bits[0]), bits[1..]);
      BringDownFeeds(r, bits[0]);
    }
  }

  // ----------------------------------------------------------------- the table

  lemma {:induction false} TableHolds(i: Byte)
    ensures Crctab(i) == Times8((i as bv32) << 24)
  {
    if i < 0x10 { Row0Holds(i); }
    else if i < 0x20 { Row1Holds(i); }
    else if i < 0x30 { Row2Holds(i); }
    else if i < 0x40 { Row3Holds(i); }
    else if i < 0x50 { Row4Holds(i); }
    else if i < 0x60 { Row5Holds(i); }
    else if i < 0x70 { Row6Holds(i); }
    else if i < 0x80 { Row7Holds(i); }
    else if i < 0x90 { Row8Holds(i); }
    else if i < 0xA0 { Row9Holds(i); }
    else if i < 0xB0 { RowAHolds(i); }
    else if i < 0xC0 { RowBHolds(i); }
    else if i < 0xD0 { RowCHolds(i); }
    else if i < 0xE0 { RowDHolds(i); }
    else if i < 0xF0 { RowEHolds(i); }
    else { RowFHolds(i); }
  }

  // -------------------------------------------------------------- bytes at a time

  function TopBits(w: bv32, n: nat): seq<bool>
    decreases n
  {
    if n == 0 then [] else [Top(w)] + TopBits(Double(w), n - 1)
  }

  function DoubleN(w: bv32, n: nat): bv32
    decreases n
  {
    if n == 0 then w else DoubleN(Double(w), n - 1)
  }

  lemma {:induction false} FeedTop(s: bv32, w: bv32)
    ensures Times(Xor(s, w)) == Xor(Feed(s, Top(w)), Double(w))
  {
    TimesLinear(s, w);
    var t, d := Times(s), Double(w);
    if Top(w) {
      XorLaws(t, d, G);
    } else {
      XorLaws(t, 0, 0);
    }
  }

  /** Bits added at the top before multiplying are bits fed while multiplying. */
  lemma {:induction false} FeedAllTop(s: bv32, w: bv32, n: nat)
    ensures TimesN(Xor(s, w), n) == Xor(FeedAll(s, TopBits(w, n)), DoubleN(w, n))
    decreases n
  {
    if n > 0 {
      TimesNTimes(Xor(s, w), n - 1);
      FeedTop(s, w);
      FeedAllTop(Feed(s, Top(w)), Double(w), n - 1);
      assert TopBits(w, n)[1..] == TopBits(Double(w), n - 1);
    }
  }

  function Shift(c: Byte): bv32 { (c as bv32) << 24 }

  lemma NextBit(w: bv32, d: bv32, n: nat)
    requires d == Double(w)
    ensures TopBits(w, n + 1) == [Top(w)] + TopBits(d, n) && DoubleN(w, n + 1) == DoubleN(d, n)
  {}

  /** The k-th bit of a byte comes to the top after k doublings. */
  lemma BitAtTop(c: Byte)
    ensures Top(Shift(c)) <==> Bit(c, 0x80)
    ensures Top(Shift(c) << 1) <==> Bit(c, 0x40)
    ensures Top(Shift(c) << 2) <==> Bit(c, 0x20)
    ensures Top(Shift(c) << 3) <==> Bit(c, 0x10)
    ensures Top(Shift(c) << 4) <==> Bit(c, 0x08)
    ensures Top(Shift(c) << 5) <==> Bit(c, 0x04)
    ensures Top(Shift(c) << 6) <==> Bit(c, 0x02)
    ensures Top(Shift(c) << 7) <==> Bit(c, 0x01)
    ensures Shift(c) << 8 == 0
  {}

  lemma Doublings(w: bv32)
    ensures Double(w) == w << 1 && Double(w << 1) == w << 2 && Double(w << 2) == w << 3 && Double(w << 3) == w << 4
    ensures Double(w << 4) == w << 5 && Double(w << 5) == w << 6 && Double(w << 6) == w << 7 && Double(w << 7) == w << 8
  {}

  lemma {:induction false} EightTops(w: bv32, w1: bv32, w2: bv32, w3: bv32, w4: bv32, w5: bv32, w6: bv32, w7: bv32,
                                     w8: bv32)
    requires w1 == Double(w) && w2 == Double(w1) && w3 == Double(w2) && w4 == Double(w3)
    requires w5 == Double(w4) && w6 == Double(w5) && w7 == Double(w6) && w8 == Double(w7)
    ensures TopBits(w, 8) == [Top(w), Top(w1), Top(w2), Top(w3)] + [Top(w4), Top(w5), Top(w6), Top(w7)]
    ensures DoubleN(w, 8) == w8
  {
    FourBits(w, w1, w2, w3, w4, 8, 4);
    FourBits(w4, w5, w6, w7, w8, 4, 0);
    assert [Top(w4), Top(w5), Top(w6), Top(w7)] + [] == [Top(w4), Top(w5), Top(w6), Top(w7)];
  }

  lemma {:induction false} ByteBits(c: Byte)
    ensures TopBits(Shift(c), 8) == Bits(c) && DoubleN(Shift(c), 8) == 0
  {
    TopsAreBits(c);
    ShiftedTops(Shift(c));
    BitAtTop(c);
  }

  lemma {:induction false} ShiftedTops(w: bv32)
    ensures TopBits(w, 8) == Tops(w) && DoubleN(w, 8) == w << 8
  {
    Doublings(w);
    EightTops(w, w << 1, w << 2, w << 3, w << 4, w << 5, w << 6, w << 7, w << 8);
  }

  function Tops(w: bv32): seq<bool> {
    [Top(w), Top(w << 1), Top(w << 2), Top(w << 3)] + [Top(w << 4), Top(w << 5), Top(w << 6), Top(w << 7)]
  }

  lemma TopsAreBits(c: Byte)
    ensures Tops(Shift(c)) == Bits(c)
  {
    BitAtTop(c);
    var w := Shift(c);
    FourSame(Top(w), Top(w << 1), Top(w << 2), Top(w << 3), Bit(c, 0x80), Bit(c, 0x40), Bit(c, 0x20), Bit(c, 0x10));
    FourSame(Top(w << 4), Top(w << 5), Top(w << 6), Top(w << 7),
             Bit(c, 0x08), Bit(c, 0x04), Bit(c, 0x02), Bit(c, 0x01));
  }

  lemma FourSame(a: bool, b: bool, c: bool, d: bool, a': bool, b': bool, c': bool, d': bool)
    requires a == a' && b == b' && c == c' && d == d'
    ensures [a, b, c, d] == [a', b', c', d']
  {}

  lemma {:induction false} FourBits(w: bv32, w1: bv32, w2: bv32, w3: bv32, w4: bv32, m: nat, n: nat)
    requires w1 == Double(w) && w2 == Double(w1) && w3 == Double(w2) && w4 == Double(w3) && m == n + 4
    ensures TopBits(w, m) == [Top(w), Top(w1), Top(w2), Top(w3)] + TopBits(w4, n)
    ensures DoubleN(w, m) == DoubleN(w4, n)
  {
    NextBit(w, w1, n + 3);
    NextBit(w1, w2, n + 2);
    NextBit(w2, w3, n + 1);
    NextBit(w3, w4, n);
    FourAndMore(Top(w), Top(w1), Top(w2), Top(w3), TopBits(w4, n));
  }

  lemma FourAndMore(a: bool, b: bool, c: bool, d: bool, rest: seq<bool>)
    ensures [a] + ([b] + ([c] + ([d] + rest))) == [a, b, c, d] + rest
  {}

  lemma {:induction false} Times8Is(r: bv32)
    ensures Times8(r) == TimesN(r, 8)
  {
    FourTimes(r, 0);
    FourTimes(r, 4);
  }

  lemma FourTimes(r: bv32, n: nat)
    ensures TimesN(r, n + 4) == Times4(TimesN(r, n))
  {
    assert TimesN(r, n + 1) == Times(TimesN(r, n));
    assert TimesN(r, n + 2) == Times(TimesN(r, n + 1));
    assert TimesN(r, n + 3) == Times(TimesN(r, n + 2));
  }

  /** The index of the table: the top byte of the register and the next one. */
  function Index(s: bv32, c: Byte): Byte {
    TopByteFits(s);
    ((s >> 24) as bv8) ^ c
  }

  lemma TopByteFits(s: bv32)
    ensures s >> 24 <= 0xFF
  {}

  lemma ShiftXor(h: Byte, c: Byte)
    ensures Shift(h ^ c) == Xor(Shift(h), Shift(c))
  {}

  lemma TopPart(s: bv32)
    ensures s >> 24 <= 0xFF && Xor(s & 0x00FF_FFFF, Shift((s >> 24) as bv8)) == s
  {
    TopByteFits(s);
  }

  lemma {:induction false} IndexSplits(s: bv32, c: Byte)
    ensures Xor(s, Shift(c)) == Xor(s & 0x00FF_FFFF, Shift(Index(s, c)))
  {
    TopPart(s);
    var low, h := s & 0x00FF_FFFF, (s >> 24) as bv8;
    ShiftXor(h, c);
    XorLaws(low, Shift(h), Shift(c));
  }

  lemma LowTimes8(low: bv32)
    requires low & 0xFF00_0000 == 0
    ensures Times8(low) == low << 8
  {}

  lemma LowPart(s: bv32)
    ensures (s & 0x00FF_FFFF) & 0xFF00_0000 == 0 && (s & 0x00FF_FFFF) << 8 == s << 8
  {}

  /** The loop body of memcrc. */
  function Turn(s: bv32, c: Byte): bv32 {
    Xor(s << 8, Crctab(Index(s, c)))
  }

  /** One turn of the loop in memcrc is eight bits fed. */
  lemma {:induction false} TableStep(s: bv32, c: Byte)
    ensures Turn(s, c) == FeedAll(s, Bits(c))
  {
    var low, top := s & 0x00FF_FFFF, Shift(Index(s, c));
    ByteBits(c);
    FeedAllTop(s, Shift(c), 8);
    XorLaws(FeedAll(s, Bits(c)), 0, 0);
    IndexSplits(s, c);
    TimesNLinear(low, top, 8);
    Times8Is(low);
    Times8Is(top);
    LowPart(s);
    LowTimes8(low);
    TableHolds(Index(s, c));
  }

  // -------------------------------------------------------------------- memcrc

  lemma {:induction false} FeedAllSplits(s: bv32, a: seq<bool>, b: seq<bool>)
    ensures FeedAll(s, a + b) == FeedAll(FeedAll(s, a), b)
    decreases |a|
  {
    if a == [] {
      assert a + b == b;
    } else {
      assert (a + b)[1..] == a[1..] + b;
      FeedAllSplits(Feed(s, a[0]), a[1..], b);
    }
  }

  lemma {:induction false} AllBitsAppend(data: seq<Byte>, c: Byte)
    ensures AllBits(data + [c]) == AllBits(data) + Bits(c)
  {
    if data == [] {
      assert data + [c] == [c];
      assert AllBits([c]) == Bits(c) + AllBits([]);
    } else {
      assert (data + [c])[1..] == data[1..] + [c];
      AllBitsAppend(data[1..], c);
    }
  }

  /** The register once some bytes have been fed. */
  function Register(done: seq<Byte>): bv32 {
    FeedAll(0, AllBits(done))
  }

  lemma {:induction false} RegisterGrows(done: seq<Byte>, c: Byte, bits: seq<bool>)
    requires AllBits(done + [c]) == AllBits(done) + bits
    ensures Register(done + [c]) == FeedAll(Register(done), bits)
  {
    FeedAllSplits(0, AllBits(done), bits);
  }

  /** One more byte through the table. */
  lemma {:induction false} TurnFeeds(done: seq<Byte>, c: Byte)
    ensures Turn(Register(done), c) == Register(done + [c])
  {
    TableStep(Register(done), c);
    AllBitsAppend(done, c);
    RegisterGrows(done, c, Bits(c));
  }

  lemma {:induction false} DivisionFromZero(bits: seq<bool>)
    ensures Remainder(0, bits + Zeros(32)) == FeedAll(0, bits)
  {
    DivisionFeeds(0, bits);
    TimesNZero(32);
  }

  lemma {:induction false} CksumIsRegister(data: seq<Byte>)
    ensures Cksum(data) == Complement(Register(data + LengthBytes(|data|)))
  {
    DivisionFromZero(AllBits(data + LengthBytes(|data|)));
  }

  lemma NextLengthByte(done: seq<Byte>, n: nat)
    requires n > 0
    ensures done + LengthBytes(n) == done + [LowByte(n)] + LengthBytes(n / 256)
  {
    assert done + ([LowByte(n)] + LengthBytes(n / 256)) == (done + [LowByte(n)]) + LengthBytes(n / 256);
  }

  /** memcrc: the data, then its length, byte by byte through the table. */
  method Memcrc(b: seq<Byte>) returns (r: bv32)
    ensures r == Cksum(b)
  {
    var n: nat := |b|;
    var s: bv32 := 0;
    ghost var done: seq<Byte> := [];
    assert Register([]) == 0;
    for i := 0 to |b|
      invariant done == b[..i] && s == Register(done)
    {
      TurnFeeds(done, b[i]);
      s := Turn(s, b[i]);
      done := done + [b[i]];
    }
    assert b[..|b|] == b;
    while n != 0
      invariant s == Register(done)
      invariant done + LengthBytes(n) == b + LengthBytes(|b|)
    {
      var c := LowByte(n);
      NextLengthByte(done, n);
      TurnFeeds(done, c);
      n := n / 256;
      s := Turn(s, c);
      done := done + [c];
    }
    assert done + [] == done;
    CksumIsRegister(b);
    r := Complement(s);
  }
}
