/** Directives on which printf.c prints something else than the standard
    prescribes: one for each clause of Agrees, with the octal zero both ways, one
    for a sign missed by hh, and one for a wide string. */
module PrintfDeviations {
  import opened Options
  import opened Sequences
  import opened PrintfModel
  import opened PrintfReference
  import opened PrintfUnmarked
  import opened PrintfConforms
  import opened PrintfDirectives
  import opened PrintfStrings

  lemma SingleDigit(n: nat)
    requires n < 10
    ensures Numeral(n) == ["0123456789"[n]]
  {
    if n > 0 {
      assert Quotient(n, 10) == 0;
      assert DigitsOf(n, 10, false) == "" + [DigitChar(n, false)];
    }
  }

  /** A format, the directive it is, and what that means. */
  predicate Is(fmt: Text, args: seq<Arg>, d: Directive, a: Arg, m: Marks, width: nat, prec: Option<int>, value: int) {
    && ValidDirective(d) && IsInteger(d.c) && Fitting(d, a) && d.width != Star(0x8000_0000)
    && FormatOf(d) == fmt && ArgsOf(d, a) == args && !CannotNegate(d, RawOf(a))
    && MarksOf(d) == m && WidthOf(d.width) == width && PrecisionOf(d.prec) == prec
    && ValueOf(d.c, d.len, RawOf(a)) == value
  }

  lemma {:induction false} Prints(fmt: Text, args: seq<Arg>, d: Directive, a: Arg, m: Marks, width: nat,
                                  prec: Option<int>, value: int, t: Text)
    requires Is(fmt, args, d, a, m, width, prec, value) && !SignMissed(d, RawOf(a))
    requires forall f | Shows(f, m, prec.Some?) :: IntegerText(d.c, f, width, Clipped(prec), value) == t
    ensures Render(fmt, 0, args) == Some(t)
  {
    RenderAs(d, a, m, width, prec, value, t);
  }

  lemma Prescribed(fmt: Text, args: seq<Arg>, d: Directive, a: Arg, m: Marks, width: nat, prec: Option<int>, value: int)
    requires Is(fmt, args, d, a, m, width, prec, value)
    ensures StandardInteger(d, RawOf(a)) == IntegerConversion(d.c, m, width, Effective(prec), value)
  {}

  // ------------------------------------------------------------- a marker too many

  lemma FourDigits()
    ensures DigitsOf(0x1234, 16, false) == "1234"
  {
    assert DigitsOf(0x12, 16, false) == "12" by { assert DigitsOf(0x1, 16, false) == "1"; }
    assert DigitsOf(0x1234, 16, false) == "1234" by { assert DigitsOf(0x123, 16, false) == "123"; }
  }

  lemma EightDigits()
    ensures DigitsOf(0x1234_5678, 16, false) == "12345678"
  {
    FourDigits();
    assert DigitsOf(0x12_3456, 16, false) == "123456" by { assert DigitsOf(0x1_2345, 16, false) == "12345"; }
    assert DigitsOf(0x1234_5678, 16, false) == "12345678" by { assert DigitsOf(0x123_4567, 16, false) == "1234567"; }
  }

  lemma EightReversed()
    ensures RevDigits(0x1234_5678, 16, false, NTOA_BUFFER_SIZE) == "87654321"
  {
    EightDigits();
    RevDigitsIs(0x1234_5678, 16, false, NTOA_BUFFER_SIZE);
    assert Reverse("12345678") == "87654321";
  }

  const HASH_ZERO: Marks := Marks(false, false, false, true, true)

  lemma {:induction false} CutText(f: Flags)
    requires Shows(f, HASH_ZERO, false)
    ensures IntegerText('x', f, 8, 0, 0x1234_5678) == "0x345678"
  {
    var g := IntegerFlags('x', f);
    IntegerFlagsAre('x', f, HASH_ZERO, false);
    EightReversed();
    var rev := "87654321";
    assert Digits(0x1234_5678, 16, g) == rev;
    assert Zeroed(rev, false, 0, 8, g) == rev;
    assert HashRoom(rev, 16, 0, 8, g) == "876543";
    assert Hashed(rev, 16, 0, 8, g) == "876543x0";
    assert Body(rev, false, 16, 0, 8, g) == "876543x0";
    assert Reverse("876543x0") == "0x345678";
    Emptys("0x345678");
  }

  lemma {:induction false} CutStandard()
    ensures IntegerConversion('x', HASH_ZERO, 8, None, 0x1234_5678) == "0x12345678"
  {
    EightDigits();
    assert NumberOf('x', HASH_ZERO, None, 0x1234_5678) == "12345678";
    assert Repeat('0', 0) == "";
    assert Unpadded('x', HASH_ZERO, 8, None, 0x1234_5678) == "0x12345678";
    Emptys("0x12345678");
  }

  const CUT: Directive := Directive("#0", Given(8, 0), Absent, NoLength, 'x')

  lemma CutIs()
    ensures Is("%#08x", [Word(0x1234_5678)], CUT, Word(0x1234_5678), HASH_ZERO, 8, None, 0x1234_5678)
  {
    SingleDigit(8);
    Unzeroed(8);
  }

  /** %#08x of 0x12345678: two digits make way for the marker. */
  lemma {:induction false} MarkerCutsDigits()
    ensures Render("%#08x", 0, [Word(0x1234_5678)]) == Some("0x345678")
    ensures StandardInteger(CUT, 0x1234_5678) == "0x12345678"
  {
    var d, a := CUT, Word(0x1234_5678);
    CutIs();
    CutStandard();
    forall f | Shows(f, HASH_ZERO, false)
      ensures IntegerText('x', f, 8, 0, 0x1234_5678) == "0x345678"
    {
      CutText(f);
    }
    Prints("%#08x", [a], d, a, HASH_ZERO, 8, None, 0x1234_5678, "0x345678");
    Prescribed("%#08x", [a], d, a, HASH_ZERO, 8, None, 0x1234_5678);
  }

  // -------------------------------------------------------- a negative precision

  const NONE: Marks := Marks(false, false, false, false, false)

  const MINUS_ONE: nat := 0xFFFF_FFFF

  const NEGATIVE: Directive := Directive("", Absent, Star(MINUS_ONE), NoLength, 'd')

  lemma {:induction false} EmptyZero(f: Flags)
    requires Shows(f, NONE, true)
    ensures IntegerText('d', f, 0, 0, 0) == ""
  {
    var g := IntegerFlags('d', f).(hash := false);
    UnmarkedNumber('d', f, NONE, 0, Some(0), 0);
    IntegerFlagsAre('d', f, NONE, true);
    assert Digits(0, 10, g) == "";
    assert Body("", false, 10, 0, 0, g) == "";
    assert Reverse("") == "";
    Emptys("");
  }

  lemma PlainStandard(value: int, number: Text)
    requires NumberOf('d', NONE, None, value) == number
    ensures value >= 0 ==> IntegerConversion('d', NONE, 0, None, value) == number
    ensures value < 0 ==> IntegerConversion('d', NONE, 0, None, value) == "-" + number
  {
    Emptys(number);
    Emptys("-");
    Emptys("-" + number);
    Emptys("");
    assert Repeat('0', 0) == "";
  }

  lemma NegativeIs()
    ensures Is("%.*d", [Word(MINUS_ONE), Word(0)], NEGATIVE, Word(0), NONE, 0, Some(-1), 0)
  {
    assert [] + ([Word(MINUS_ONE)] + [Word(0)]) == [Word(MINUS_ONE), Word(0)];
  }

  /** %.*d with precision -1 prints nothing for zero. */
  lemma {:induction false} NegativePrecisionHidesZero()
    ensures Render("%.*d", 0, [Word(MINUS_ONE), Word(0)]) == Some("")
    ensures StandardInteger(NEGATIVE, 0) == "0"
  {
    var args := [Word(MINUS_ONE), Word(0)];
    NegativeIs();
    forall f | Shows(f, NONE, true)
      ensures IntegerText('d', f, 0, 0, 0) == ""
    {
      EmptyZero(f);
    }
    Prints("%.*d", args, NEGATIVE, Word(0), NONE, 0, Some(-1), 0, "");
    Prescribed("%.*d", args, NEGATIVE, Word(0), NONE, 0, Some(-1), 0);
    ZeroStandard();
  }

  lemma ZeroStandard()
    ensures IntegerConversion('d', NONE, 0, None, 0) == "0"
  {
    assert Repeat('0', 1) == "0";
    Emptys("0");
    PlainStandard(0, "0");
  }

  // ---------------------------------------------------------------- a missed sign

  const CHAR: Directive := Directive("", Absent, Absent, HH, 'd')

  lemma {:induction false} Digits255(g: Flags)
    requires !g.precision && !g.upper
    ensures Digits(255, 10, g) == "552"
  {
    assert DigitsOf(25, 10, false) == "25";
    assert DigitsOf(255, 10, false) == "255";
    RevDigitsIs(255, 10, false, NTOA_BUFFER_SIZE);
    assert Reverse("255") == "552";
  }

  lemma {:induction false} BareText(rev: Text, g: Flags)
    requires !g.left && !g.zeropad && !g.plus && !g.space && !g.hash && rev != "" && |rev| < NTOA_BUFFER_SIZE
    ensures Formatted(rev, false, 10, 0, 0, g) == Reverse(rev)
  {
    assert Body(rev, false, 10, 0, 0, g) == rev;
    Emptys(Reverse(rev));
  }

  lemma {:induction false} Taken255(f: Flags)
    requires Shows(f, NONE, false)
    ensures IntegerText('d', f, 0, 0, 255) == "255"
  {
    var g := PlainFlags('d', f);
    UnmarkedNumber('d', f, NONE, 0, None, 255);
    IntegerFlagsAre('d', f, NONE, false);
    Digits255(g);
    BareText("552", g);
    assert Reverse("552") == "255";
  }

  lemma CharIs()
    ensures Is("%hhd", [Word(MINUS_ONE)], CHAR, Word(MINUS_ONE), NONE, 0, None, -1)
  {}

  lemma MinusOneStandard()
    ensures IntegerConversion('d', NONE, 0, None, -1) == "-1"
  {
    assert DigitsOf(1, 10, false) == "1";
    PlainStandard(-1, "1");
  }

  lemma {:induction false} PrintsUnsigned(fmt: Text, args: seq<Arg>, d: Directive, a: Arg, m: Marks, value: int,
                                          t: Text)
    requires Is(fmt, args, d, a, m, 0, None, value) && SignMissed(d, RawOf(a))
    requires forall f | Shows(f, m, false) :: IntegerText(d.c, f, 0, 0, RawOf(a) % 0x100) == t
    ensures Render(fmt, 0, args) == Some(t)
  {
    FlagsShow(d, a);
    RenderInteger(d, a);
  }

  /** %hhd of -1 prints 255. */
  lemma {:induction false} SignMissedByHh()
    ensures Render("%hhd", 0, [Word(MINUS_ONE)]) == Some("255")
    ensures StandardInteger(CHAR, MINUS_ONE) == "-1"
  {
    var a := Word(MINUS_ONE);
    CharIs();
    forall f | Shows(f, NONE, false)
      ensures IntegerText('d', f, 0, 0, MINUS_ONE % 0x100) == "255"
    {
      Taken255(f);
    }
    PrintsUnsigned("%hhd", [a], CHAR, a, NONE, -1, "255");
    Prescribed("%hhd", [a], CHAR, a, NONE, 0, None, -1);
    MinusOneStandard();
  }

  // -------------------------------------------------------------- zeros beside -

  const LEFT: Directive := Directive("-", Absent, Given(3, 0), NoLength, 'd')

  const LEFT_MARKS: Marks := Marks(true, false, false, false, false)

  lemma {:induction false} NoZeros(f: Flags)
    requires Shows(f, LEFT_MARKS, true)
    ensures IntegerText('d', f, 0, 3, 5) == "5"
  {
    var g := IntegerFlags('d', f).(hash := false);
    UnmarkedNumber('d', f, LEFT_MARKS, 0, Some(3), 5);
    IntegerFlagsAre('d', f, LEFT_MARKS, true);
    assert DigitsOf(5, 10, false) == "5";
    RevDigitsIs(5, 10, false, NTOA_BUFFER_SIZE);
    assert Digits(5, 10, g) == "5";
    assert Body("5", false, 10, 3, 0, g) == "5";
    assert Reverse("5") == "5";
    Emptys("5");
  }

  lemma LeftIs()
    ensures Is("%-.3d", [Word(5)], LEFT, Word(5), LEFT_MARKS, 0, Some(3), 5)
  {
    SingleDigit(3);
    Unzeroed(3);
  }

  lemma FiveStandard()
    ensures IntegerConversion('d', LEFT_MARKS, 0, Some(3), 5) == "005"
  {
    assert DigitsOf(5, 10, false) == "5";
    assert Repeat('0', 2) == "00" && Repeat('0', 0) == "";
    assert Unpadded('d', LEFT_MARKS, 0, Some(3), 5) == "005";
    Emptys("005");
  }

  /** %-.3d of 5 leaves the zeros out. */
  lemma {:induction false} LeftDropsZeros()
    ensures Render("%-.3d", 0, [Word(5)]) == Some("5")
    ensures StandardInteger(LEFT, 5) == "005"
  {
    LeftIs();
    forall f | Shows(f, LEFT_MARKS, true)
      ensures IntegerText('d', f, 0, 3, 5) == "5"
    {
      NoZeros(f);
    }
    Prints("%-.3d", [Word(5)], LEFT, Word(5), LEFT_MARKS, 0, Some(3), 5, "5");
    Prescribed("%-.3d", [Word(5)], LEFT, Word(5), LEFT_MARKS, 0, Some(3), 5);
    FiveStandard();
  }

  // ------------------------------------------------------------------ octal zeros

  const HASH: Marks := Marks(false, false, false, true, false)

  const OCTAL_EMPTY: Directive := Directive("#", Absent, Given(0, 0), NoLength, 'o')

  lemma {:induction false} NoOctalZero(f: Flags)
    requires Shows(f, HASH, true)
    ensures IntegerText('o', f, 0, 0, 0) == ""
  {
    var g := PlainFlags('o', f);
    UnmarkedNumber('o', f, HASH, 0, Some(0), 0);
    IntegerFlagsAre('o', f, HASH, true);
    assert Digits(0, 8, g) == "";
    assert Body("", false, 8, 0, 0, g) == "";
    assert Reverse("") == "";
    Emptys("");
  }

  lemma OctalEmptyIs()
    ensures Is("%#.0o", [Word(0)], OCTAL_EMPTY, Word(0), HASH, 0, Some(0), 0)
  {
    SingleDigit(0);
    Unzeroed(0);
  }

  lemma OctalEmptyStandard()
    ensures IntegerConversion('o', HASH, 0, Some(0), 0) == "0"
  {
    assert NumberOf('o', HASH, Some(0), 0) == "0";
    assert Repeat('0', 0) == "";
    assert Unpadded('o', HASH, 0, Some(0), 0) == "0";
    Emptys("0");
  }

  /** %#.0o of 0 prints nothing. */
  lemma {:induction false} OctalZeroMissing()
    ensures Render("%#.0o", 0, [Word(0)]) == Some("")
    ensures StandardInteger(OCTAL_EMPTY, 0) == "0"
  {
    OctalEmptyIs();
    OctalEmptyStandard();
    forall f | Shows(f, HASH, true)
      ensures IntegerText('o', f, 0, 0, 0) == ""
    {
      NoOctalZero(f);
    }
    Prints("%#.0o", [Word(0)], OCTAL_EMPTY, Word(0), HASH, 0, Some(0), 0, "");
    Prescribed("%#.0o", [Word(0)], OCTAL_EMPTY, Word(0), HASH, 0, Some(0), 0);
  }

  const OCTAL_LONG: Directive := Directive("#", Absent, Given(5, 0), NoLength, 'o')

  lemma OctalEight()
    ensures DigitsOf(8, 8, false) == "10" && RevDigits(8, 8, false, NTOA_BUFFER_SIZE) == "01"
  {
    assert DigitsOf(8, 8, false) == "10" by { assert DigitsOf(1, 8, false) == "1"; }
    RevDigitsIs(8, 8, false, NTOA_BUFFER_SIZE);
    assert Reverse("10") == "01";
  }

  lemma {:induction false} SixDigits(f: Flags)
    requires Shows(f, HASH, true)
    ensures IntegerText('o', f, 0, 5, 8) == "000010"
  {
    var g := IntegerFlags('o', f);
    IntegerFlagsAre('o', f, HASH, true);
    OctalEight();
    assert Digits(8, 8, g) == "01";
    assert Repeat('0', 3) == "000";
    assert Zeroed("01", false, 5, 0, g) == "01000";
    assert Hashed("01000", 8, 5, 0, g) == "010000";
    assert Body("01", false, 8, 5, 0, g) == "010000";
    assert Reverse("010000") == "000010";
    Emptys("000010");
  }

  lemma OctalLongIs()
    ensures Is("%#.5o", [Word(8)], OCTAL_LONG, Word(8), HASH, 0, Some(5), 8)
  {
    SingleDigit(5);
    Unzeroed(5);
  }

  lemma OctalLongStandard()
    ensures IntegerConversion('o', HASH, 0, Some(5), 8) == "00010"
  {
    OctalEight();
    assert Repeat('0', 3) == "000" && Repeat('0', 0) == "";
    assert NumberOf('o', HASH, Some(5), 8) == "00010";
    assert Unpadded('o', HASH, 0, Some(5), 8) == "00010";
    Emptys("00010");
  }

  /** %#.5o of 8 prints a zero too many. */
  lemma {:induction false} OctalZeroTwice()
    ensures Render("%#.5o", 0, [Word(8)]) == Some("000010")
    ensures StandardInteger(OCTAL_LONG, 8) == "00010"
  {
    OctalLongIs();
    OctalLongStandard();
    forall f | Shows(f, HASH, true)
      ensures IntegerText('o', f, 0, 5, 8) == "000010"
    {
      SixDigits(f);
    }
    Prints("%#.5o", [Word(8)], OCTAL_LONG, Word(8), HASH, 0, Some(5), 8, "000010");
    Prescribed("%#.5o", [Word(8)], OCTAL_LONG, Word(8), HASH, 0, Some(5), 8);
  }

  // --------------------------------------------------------------- 32 characters

  const FORTY: Directive := Directive("", Absent, Given(40, 0), NoLength, 'd')

  lemma {:induction false} ThirtyTwo(f: Flags)
    requires Shows(f, NONE, true)
    ensures IntegerText('d', f, 0, 40, 1) == Repeat('0', 31) + "1"
  {
    var g := PlainFlags('d', f);
    UnmarkedNumber('d', f, NONE, 0, Some(40), 1);
    IntegerFlagsAre('d', f, NONE, true);
    assert DigitsOf(1, 10, false) == "1";
    RevDigitsIs(1, 10, false, NTOA_BUFFER_SIZE);
    assert Reverse("1") == "1";
    var rev := "1" + Repeat('0', 31);
    assert Zeroed("1", false, 40, 0, g) == rev;
    assert Body("1", false, 10, 40, 0, g) == rev;
    assert Reverse(rev) == Repeat('0', 31) + "1";
    Emptys(Reverse(rev));
  }

  lemma FortyIs()
    ensures Is("%.40d", [Word(1)], FORTY, Word(1), NONE, 0, Some(40), 1)
  {
    assert DigitsOf(40, 10, false) == "40" by { assert DigitsOf(4, 10, false) == "4"; }
    Unzeroed(40);
  }

  lemma FortyStandard()
    ensures IntegerConversion('d', NONE, 0, Some(40), 1) == Repeat('0', 39) + "1"
  {
    var t := Repeat('0', 39) + "1";
    assert DigitsOf(1, 10, false) == "1";
    assert NumberOf('d', NONE, Some(40), 1) == t;
    assert Repeat('0', 0) == "";
    Emptys(t);
    assert Unpadded('d', NONE, 0, Some(40), 1) == t;
  }

  /** %.40d of 1 ends after 32 characters. */
  lemma {:induction false} BufferCutsZeros()
    ensures Render("%.40d", 0, [Word(1)]) == Some(Repeat('0', 31) + "1")
    ensures StandardInteger(FORTY, 1) == Repeat('0', 39) + "1"
  {
    FortyIs();
    FortyStandard();
    forall f | Shows(f, NONE, true)
      ensures IntegerText('d', f, 0, 40, 1) == Repeat('0', 31) + "1"
    {
      ThirtyTwo(f);
    }
    Prints("%.40d", [Word(1)], FORTY, Word(1), NONE, 0, Some(40), 1, Repeat('0', 31) + "1");
    Prescribed("%.40d", [Word(1)], FORTY, Word(1), NONE, 0, Some(40), 1);
  }

  // ------------------------------------------------------------------ wide strings

  const WIDE_STRING: Directive := Directive("", Absent, Absent, L, 's')

  /** %ls of a wide hi, in two or four bytes a character, prints h. */
  lemma {:induction false} WideStringCut(size: nat)
    requires 2 <= size
    ensures Render("%ls", 0, [Str(Seen("hi", size))]) == Some("h")
    ensures StandardString(WIDE_STRING, "hi") == "hi"
  {
    var d := WIDE_STRING;
    assert FormatOf(d) == "%ls" && ArgsOf(d, Str(Seen("hi", size))) == [Str(Seen("hi", size))];
    WidePrinted(d, "hi", size);
    assert Repeat(' ', 0) == "" && "hi"[..1] == "h";
    Emptys("h");
    Emptys("hi");
  }
}
