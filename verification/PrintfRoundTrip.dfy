/** Reading printed decimal text back. */
module PrintfRoundTrip {
  import opened Options
  import opened PrintfModel
  import opened PrintfFacts

  lemma {:induction false} DenotedAppend(front: Text, c: char, base: nat)
    ensures Denoted(front + [c], base) == Denoted(front, base) + DigitValue(c) * Pow(base, |front|)
  {
    if front == "" {
      assert front + [c] == [c];
      assert Denoted([c], base) == DigitValue(c) + base * 0;
    } else {
      assert (front + [c])[1..] == front[1..] + [c];
      DenotedAppend(front[1..], c, base);
      ShiftedSum(DigitValue(front[0]), base, Denoted(front[1..], base), DigitValue(c), Pow(base, |front| - 1));
    }
  }

  lemma MulSwaps(a: int, b: int, c: int)
    ensures a * (b * c) == b * (a * c)
  {}

  lemma ShiftedSum(first: nat, base: nat, d: nat, v: nat, p: nat)
    ensures first + base * (d + v * p) == (first + base * d) + v * (base * p)
  {
    MulDistributes(base, d, v * p);
    MulSwaps(base, v, p);
  }

  lemma AtoiStep(acc: nat, v: nat, p: nat, d: nat)
    ensures (((acc * 10 + v) % WORD) * p + d) % WORD == (acc * (10 * p) + (d + v * p)) % WORD
  {
    ModEarly(acc * 10 + v, p, d);
    DecimalStep(acc, v, p);
  }

  lemma DecimalStep(acc: nat, v: nat, p: nat)
    ensures (acc * 10 + v) * p == acc * (10 * p) + v * p
  {
    assert (acc * 10) * p == acc * (10 * p);
  }

  lemma {:induction false} DecimalDigits(value: nat, upper: bool, room: nat)
    ensures forall i :: 0 <= i < |RevDigits(value, 10, upper, room)| ==> IsDigit(RevDigits(value, 10, upper, room)[i])
    decreases room
  {
    if room > 0 {
      DigitCharValue(Remainder(value, 10), upper);
      if Quotient(value, 10) != 0 { DecimalDigits(Quotient(value, 10), upper, room - 1); }
    }
  }

  /** Reducing early or late makes no difference. */
  lemma ModEarly(x: nat, p: nat, d: nat)
    ensures ((x % WORD) * p + d) % WORD == (x * p + d) % WORD
  {
    var q, r := x / WORD, x % WORD;
    DivMod(x, WORD);
    var y := r * p + d;
    DivMod(y, WORD);
    assert (WORD * q) * p == WORD * (q * p);
    assert x * p == (WORD * q) * p + r * p;
    assert x * p + d == WORD * (q * p + y / WORD) + y % WORD by {
      MulDistributes(WORD, q * p, y / WORD);
    }
    Division(x * p + d, WORD, q * p + y / WORD, y % WORD);
  }

  predicate Reads(fmt: Text, i: nat, rev: Text) {
    i + |rev| <= |fmt| && fmt[i..i + |rev|] == Reverse(rev) && !IsDigit(At(fmt, i + |rev|))
  }

  lemma {:induction false} ReadsTail(fmt: Text, i: nat, front: Text, c: char)
    requires Reads(fmt, i, front + [c])
    ensures fmt[i] == c && Reads(fmt, i + 1, front)
  {
    var n := |front|;
    var whole, tail := fmt[i..i + 1 + n], fmt[i + 1..i + 1 + n];
    assert tail == whole[1..];
    assert Reverse(front + [c])[0] == c;
    assert Reverse(front) == Reverse(front + [c])[1..];
  }

  predicate AllDigits(rev: Text) {
    forall k :: 0 <= k < |rev| ==> IsDigit(rev[k])
  }

  /** acc, followed by n digits that denote d. */
  function Extend(acc: nat, n: nat, d: nat): nat {
    (acc * Pow(10, n) + d) % WORD
  }

  lemma {:induction false} ExtendStep(acc: nat, front: Text, c: char)
    ensures Extend((acc * 10 + DigitValue(c)) % WORD, |front|, Denoted(front, 10))
         == Extend(acc, |front| + 1, Denoted(front + [c], 10))
  {
    DenotedAppend(front, c, 10);
    AtoiStep(acc, DigitValue(c), Pow(10, |front|), Denoted(front, 10));
  }

  lemma ExtendNone(acc: nat)
    requires acc < WORD
    ensures Extend(acc, 0, 0) == acc
  {
    assert Pow(10, 0) == 1 && acc * 1 == acc;
  }

  /** Reading digits from the left accumulates what they denote. */
  lemma {:induction false} AtoiReads(fmt: Text, i: nat, acc: nat, rev: Text)
    requires Reads(fmt, i, rev) && AllDigits(rev) && acc < WORD
    ensures Atoi(fmt, i, acc) == (Extend(acc, |rev|, Denoted(rev, 10)), i + |rev|)
    decreases |rev|
  {
    if rev == "" {
      ExtendNone(acc);
    } else {
      var front, c := rev[..|rev| - 1], rev[|rev| - 1];
      assert rev == front + [c] && IsDigit(c);
      ReadsTail(fmt, i, front, c);
      AtoiReads(fmt, i + 1, (acc * 10 + DigitValue(c)) % WORD, front);
      ExtendStep(acc, front, c);
      assert Atoi(fmt, i, acc) == Atoi(fmt, i + 1, (acc * 10 + DigitValue(c)) % WORD);
    }
  }

  /** The plain decimal output of a 32-bit value. */
  function Decimal(value: nat): Text {
    Number(value, false, 10, 0, 0, NO_FLAGS)
  }

  lemma {:induction false} DecimalIsDigits(value: nat)
    ensures Decimal(value) == Reverse(RevDigits(value, 10, false, NTOA_BUFFER_SIZE))
  {
    var rev := RevDigits(value, 10, false, NTOA_BUFFER_SIZE);
    assert Zeroed(rev, false, 0, 0, NO_FLAGS) == rev;
    assert "" + Reverse(rev) + "" == Reverse(rev);
  }

  lemma {:induction false} AtoiFromZero(fmt: Text, rev: Text)
    requires Reads(fmt, 0, rev) && AllDigits(rev) && Denoted(rev, 10) < WORD
    ensures Atoi(fmt, 0, 0) == (Denoted(rev, 10), |rev|)
  {
    AtoiReads(fmt, 0, 0, rev);
    var v := Denoted(rev, 10);
    assert 0 * Pow(10, |rev|) == 0;
    Division(v, WORD, 0, v);
  }

  lemma {:induction false} ReadsPrinted(rev: Text, rest: Text)
    requires rest == "" || !IsDigit(rest[0])
    ensures Reads(Reverse(rev) + rest, 0, rev)
  {
    var fmt := Reverse(rev) + rest;
    assert fmt[0..|rev|] == Reverse(rev);
  }

  /** _atoi of printed decimal digits, whatever follows them, is the value. */
  lemma {:induction false} AtoiOfDecimal(value: nat, rest: Text)
    requires value < WORD && (rest == "" || !IsDigit(rest[0]))
    ensures Atoi(Decimal(value) + rest, 0, 0) == (value, |Decimal(value)|)
  {
    var rev := RevDigits(value, 10, false, NTOA_BUFFER_SIZE);
    DecimalIsDigits(value);
    DecimalDigits(value, false, NTOA_BUFFER_SIZE);
    LongDigits(value, 10, false);
    ReadsPrinted(rev, rest);
    AtoiFromZero(Reverse(rev) + rest, rev);
  }

  lemma {:induction false} PlainText(value: nat)
    requires value < WORD
    ensures IntegerText('u', NO_FLAGS, 0, 0, value) == Decimal(value)
  {
    assert IntegerFlags('u', NO_FLAGS) == NO_FLAGS;
  }

  lemma {:induction false} PlainConvert(value: nat, s: Spot, text: Text)
    requires value < WORD && text == IntegerText('u', NO_FLAGS, 0, 0, value)
    requires s == Spot(NO_FLAGS, 0, 0, 1, [Word(value)])
    ensures Convert('u', s) == Some((text, []))
  {
    assert IntegerValue('u', NO_FLAGS, Word(value)) == Some(value);
    assert s.args[1..] == [];
  }

  lemma {:induction false} PlainParsed(fmt: Text, s: Spot)
    requires fmt == "%u" && s == Spot(NO_FLAGS, 0, 0, 1, s.args)
    ensures Parsed(fmt, 1, s.args) == Some(s)
  {
    assert ParseFlags(fmt, 1, NO_FLAGS) == (NO_FLAGS, 1);
    assert ParseWidth(fmt, s) == Some(s) && ParsePrecision(fmt, s) == Some(s) && ParseLength(fmt, s) == s;
  }

  lemma {:induction false} PlainFinished(fmt: Text, s: Spot, text: Text)
    requires fmt == "%u" && s.i == 1 && Convert('u', s) == Some((text, []))
    ensures Finished(fmt, Some(s)) == Some((text, 2, []))
  {}

  lemma {:induction false} PlainConversion(fmt: Text, s: Spot, text: Text)
    requires fmt == "%u" && s == Spot(NO_FLAGS, 0, 0, 1, s.args) && Convert('u', s) == Some((text, []))
    ensures Directive(fmt, 1, s.args) == Some((text, 2, []))
  {
    PlainParsed(fmt, s);
    PlainFinished(fmt, s, text);
  }

  lemma {:induction false} PlainRender(arg: Arg, fmt: Text, text: Text)
    requires fmt == "%u" && Directive(fmt, 1, [arg]) == Some((text, 2, []))
    ensures Render(fmt, 0, [arg]) == Some(text)
  {
    assert Render(fmt, 2, []) == Some("");
    assert text + "" == text;
  }

  /** Printing a 32-bit value with a plain %u, then reading it back. */
  lemma {:induction false} PlainUnsigned(value: nat)
    requires value < WORD
    ensures Render("%u", 0, [Word(value)]) == Some(Decimal(value))
    ensures Atoi(Decimal(value), 0, 0) == (value, |Decimal(value)|)
  {
    PlainText(value);
    var s := Spot(NO_FLAGS, 0, 0, 1, [Word(value)]);
    PlainConvert(value, s, Decimal(value));
    PlainConversion("%u", s, Decimal(value));
    PlainRender(Word(value), "%u", Decimal(value));
    AtoiOfDecimal(value, "");
    assert Decimal(value) + "" == Decimal(value);
  }
}
