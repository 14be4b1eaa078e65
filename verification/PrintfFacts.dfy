/** What the output of PrintfModel means. */
module PrintfFacts {
  import opened PrintfModel

  // --------------------------------------------------------------------- powers

  function Pow(base: nat, n: nat): nat {
    if n == 0 then 1 else base * Pow(base, n - 1)
  }

  lemma {:induction false} PowPositive(base: nat, n: nat)
    requires 2 <= base
    ensures 1 <= Pow(base, n)
    ensures 0 < n ==> base <= Pow(base, n)
  {
    if n > 0 {
      PowPositive(base, n - 1);
      MulGrows(base, 1, Pow(base, n - 1));
    }
  }

  lemma MulGrows(a: nat, x: nat, y: nat)
    requires x <= y
    ensures a * x <= a * y
  {}

  lemma {:induction false} PowMonotone(a: nat, b: nat, n: nat)
    requires a <= b
    ensures Pow(a, n) <= Pow(b, n)
  {
    if n > 0 {
      PowMonotone(a, b, n - 1);
      MulGrows(a, Pow(a, n - 1), Pow(b, n - 1));
      MulGrows(Pow(b, n - 1), a, b);
    }
  }

  lemma {:induction false} PowSplits(base: nat, m: nat, n: nat)
    ensures Pow(base, m + n) == Pow(base, m) * Pow(base, n)
  {
    if m > 0 {
      PowSplits(base, m - 1, n);
      assert Pow(base, m + n) == base * Pow(base, m - 1 + n);
      assert base * (Pow(base, m - 1) * Pow(base, n)) == (base * Pow(base, m - 1)) * Pow(base, n);
    } else {
      assert Pow(base, 0) * Pow(base, n) == Pow(base, n);
    }
  }

  lemma {:induction false} TwoTo32()
    ensures Pow(2, 32) == WORD && Pow(2, 64) == WIDE
  {
    assert Pow(2, 4) == 16;
    PowSplits(2, 4, 4);
    PowSplits(2, 8, 8);
    PowSplits(2, 16, 16);
    PowSplits(2, 32, 32);
    assert 16 * 16 == 256 && 256 * 256 == 65536 && 65536 * 65536 == WORD && WORD * WORD == WIDE;
  }

  lemma {:induction false} EightTo32()
    ensures WIDE <= Pow(8, 32)
  {
    assert Pow(8, 2) == 64;
    PowSplits(8, 2, 2);
    PowSplits(8, 4, 4);
    PowSplits(8, 8, 8);
    PowSplits(8, 16, 16);
    assert 64 * 64 == 4096 && 4096 * 4096 == 0x100_0000;
    assert 0x100_0000 * 0x100_0000 == 0x1_0000_0000_0000;
    assert 0x1_0000_0000_0000 * 0x1_0000_0000_0000 >= WIDE;
  }

  // --------------------------------------------------------------------- digits

  function DigitValue(c: char): nat {
    if '0' <= c <= '9' then (c - '0') as nat
    else if 'a' <= c <= 'f' then (c - 'a') as nat + 10
    else if 'A' <= c <= 'F' then (c - 'A') as nat + 10
    else 0
  }

  lemma DigitCharValue(d: nat, upper: bool)
    requires d < 16
    ensures DigitValue(DigitChar(d, upper)) == d
    ensures DigitChar(d, upper) == '0' <==> d == 0
    ensures d < 10 ==> IsDigit(DigitChar(d, upper))
  {}

  /** The number a reversed digit string denotes. */
  function Denoted(rev: Text, base: nat): nat {
    if rev == "" then 0 else DigitValue(rev[0]) + base * Denoted(rev[1..], base)
  }

  lemma MulStep(d: nat, q: nat, k: nat)
    ensures q < k ==> d * q + d <= d * k
  {
    if q < k {
      MulGrows(d, q + 1, k);
      MulDistributes(d, q, 1);
    }
  }

  lemma MulDistributes(a: int, b: int, c: int)
    ensures a * (b + c) == a * b + a * c
  {}

  lemma MulAssociates(a: int, b: int, c: int)
    ensures a * (b * c) == (a * b) * c
  {}

  lemma DivMod(v: nat, d: nat)
    requires 0 < d
    ensures v == d * (v / d) + v % d && v % d < d && 0 <= v / d
  {}

  lemma Division(v: nat, d: nat, k: nat, r: nat)
    requires 0 < d && r < d && v == d * k + r
    ensures v / d == k && v % d == r
  {
    DivMod(v, d);
    MulStep(d, v / d, k);
    MulStep(d, k, v / d);
  }

  lemma ModStep(v: nat, base: nat, p: nat)
    requires 0 < base && 0 < p && 0 < base * p
    ensures v % (base * p) == v % base + base * ((v / base) % p)
  {
    var q, r := v / base, v % base;
    var k, m := q / p, q % p;
    DivMod(v, base);
    DivMod(q, p);
    MulDistributes(base, p * k, m);
    MulAssociates(base, p, k);
    assert v == (base * p) * k + (base * m + r);
    MulStep(base, m, p);
    Division(v, base * p, k, base * m + r);
  }

  lemma QuotientBelow(v: nat, base: nat, p: nat)
    requires 0 < base && v < base * p
    ensures v / base < p
  {
    DivMod(v, base);
    if p < v / base { MulStep(base, p, v / base); }
  }

  lemma DenotedCons(c: char, rest: Text, base: nat)
    ensures Denoted([c] + rest, base) == DigitValue(c) + base * Denoted(rest, base)
  {
    assert ([c] + rest)[1..] == rest;
  }

  /** The digits produced denote the value modulo base to the power of the room
      there was. */
  lemma {:induction false} DigitsDenote(value: nat, base: nat, upper: bool, room: nat)
    requires 2 <= base <= 16
    ensures Pow(base, room) > 0
    ensures Denoted(RevDigits(value, base, upper, room), base) == value % Pow(base, room)
    ensures |RevDigits(value, base, upper, room)| <= room
    decreases room
  {
    PowPositive(base, room);
    if room > 0 {
      var p := Pow(base, room - 1);
      PowPositive(base, room - 1);
      assert Pow(base, room) == base * p;
      DigitCharValue(Remainder(value, base), upper);
      ModStep(value, base, p);
      DivMod(value, base);
      var rest := if Quotient(value, base) == 0 then "" else RevDigits(Quotient(value, base), base, upper, room - 1);
      if Quotient(value, base) == 0 {
        Division(0, p, 0, 0);
      } else {
        DigitsDenote(Quotient(value, base), base, upper, room - 1);
      }
      assert Denoted(rest, base) == (Quotient(value, base)) % p;
      DenotedCons(DigitChar(Remainder(value, base), upper), rest, base);
    }
  }

  /** They denote the value itself exactly if it is below that power. */
  lemma {:induction false} DigitsExactIff(value: nat, base: nat, upper: bool, room: nat)
    requires 2 <= base <= 16
    ensures Denoted(RevDigits(value, base, upper, room), base) == value <==> value < Pow(base, room)
  {
    DigitsDenote(value, base, upper, room);
    if value < Pow(base, room) {
      Division(value, Pow(base, room), 0, value);
    }
  }

  /** No more digits than needed. */
  lemma {:induction false} DigitCount(value: nat, base: nat, upper: bool, room: nat, k: nat)
    requires 2 <= base <= 16 && 0 < k && value < Pow(base, k)
    ensures |RevDigits(value, base, upper, room)| <= k
    decreases room
  {
    DivMod(value, base);
    if room > 0 && Quotient(value, base) != 0 {
      QuotientBelow(value, base, Pow(base, k - 1));
      assert Pow(base, 0) == 1;
      DigitCount(Quotient(value, base), base, upper, room - 1, k - 1);
    }
  }

  lemma {:induction false} WordsAreShort(value: nat, base: nat)
    requires value < WORD && 8 <= base <= 16
    ensures value < Pow(base, 31)
  {
    assert Pow(8, 2) == 64;
    PowSplits(8, 2, 2);
    PowSplits(8, 4, 4);
    PowSplits(8, 8, 8);
    assert 64 * 64 == 4096 && 4096 * 4096 == 0x100_0000 && 0x100_0000 * 0x100_0000 == 0x1_0000_0000_0000;
    PowSplits(8, 16, 15);
    PowPositive(8, 15);
    MulGrows(Pow(8, 16), 1, Pow(8, 15));
    PowMonotone(8, base, 31);
  }

  /** _ntoa_long: whatever the base, the digits of a 32-bit value denote it and
      fit the buffer. */
  lemma {:induction false} LongDigits(value: nat, base: nat, upper: bool)
    requires value < WORD && 2 <= base <= 16
    ensures var rev := RevDigits(value, base, upper, NTOA_BUFFER_SIZE);
            |rev| <= NTOA_BUFFER_SIZE && Denoted(rev, base) == value
  {
    TwoTo32();
    PowMonotone(2, base, 32);
    DigitsExactIff(value, base, upper, NTOA_BUFFER_SIZE);
    DigitsDenote(value, base, upper, NTOA_BUFFER_SIZE);
  }

  /** _ntoa_long_long: the digits fit the buffer, and denote a 64-bit value
      unless the base is 2 and the value does not fit 32 bits. */
  lemma {:induction false} LongLongDigits(value: nat, c: char, upper: bool)
    requires value < WIDE
    ensures var rev := RevDigits(value, Base(c), upper, NTOA_BUFFER_SIZE);
            && |rev| <= NTOA_BUFFER_SIZE
            && (Denoted(rev, Base(c)) == value <==> Base(c) != 2 || value < WORD)
  {
    TwoTo32();
    EightTo32();
    if Base(c) != 2 {
      PowMonotone(8, Base(c), 32);
    }
    DigitsExactIff(value, Base(c), upper, NTOA_BUFFER_SIZE);
    DigitsDenote(value, Base(c), upper, NTOA_BUFFER_SIZE);
  }
}
