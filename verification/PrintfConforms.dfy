/** Exactly when an integer conversion of printf.c prints what the standard
    prescribes. */
module PrintfConforms {
  import opened Options
  import opened Sequences
  import opened PrintfModel
  import opened PrintfUnmarked
  import opened PrintfReference
  import opened PrintfFacts
  import opened PrintfInk

  /** The flags of the code for some marks. */
  predicate Shows(f: Flags, m: Marks, given: bool) {
    && f.zeropad == m.zero && f.left == m.minus && f.plus == m.plus && f.space == m.space && f.hash == m.hash
    && !f.upper && f.precision == given
  }

  /** The precision as the code keeps it. */
  function Clipped(prec: Option<int>): nat {
    match prec case None => 0 case Some(n) => if n > 0 then n else 0
  }

  // ------------------------------------------------------------------ condition

  function DigitCountOf(c: char, value: int): nat {
    |DigitsOf(Abs(value), Base(c), c == 'X')|
  }

  /** # has something to show. */
  predicate Marked(c: char, m: Marks, value: int) {
    m.hash && Base(c) != 10 && value != 0
  }

  /** Sign, marker, zeros and digits fit the conversion buffer, or all that is
      lost is a blank that padding happens to replace. */
  predicate Fits(c: char, m: Marks, width: nat, prec: Option<int>, value: int) {
    var n := |Unpadded(c, m, width, Effective(prec), value)|;
    || n <= NTOA_BUFFER_SIZE
    || (n == NTOA_BUFFER_SIZE + 1 <= width && SignOf(c, m, value) == " " && !m.minus && !(m.zero && prec == None))
  }

  /** Without a precision the marker takes the place of padding zeros; the zeros
      it takes must be there, and as many as it needs. */
  predicate KeepsDigits(c: char, m: Marks, width: nat, digits: nat) {
    if !m.zero || m.minus then width != digits
    else if c == 'o' then width != digits
    else if c == 'b' then width < digits || width == digits + 1
    else width < digits || digits + 2 <= width
  }

  /** The precision asks for no zeros that the code leaves out or adds. */
  predicate PrecisionHeld(c: char, m: Marks, prec: Option<int>, value: int) {
    var digits, octal := DigitCountOf(c, value), m.hash && c == 'o';
    match Effective(prec)
    case None => true
    case Some(p) =>
      && (m.minus ==> p <= digits + if octal && value != 0 then 1 else 0)
      && (octal && value == 0 ==> p != 0)
      && (octal && value != 0 && !m.minus ==> p <= digits || p == NTOA_BUFFER_SIZE)
  }

  /** A negative precision hides neither a zero value nor a filling with zeros. */
  predicate NegativeHarmless(c: char, m: Marks, width: nat, prec: Option<int>, value: int) {
    prec.Some? && prec.value < 0 ==>
      value != 0 &&
      Filling(m, width, None, |SignOf(c, m, value) + MarkOf(c, m, value)| + |NumberOf(c, m, None, value)|) == 0
  }

  predicate Agrees(c: char, m: Marks, width: nat, prec: Option<int>, value: int) {
    && Fits(c, m, width, prec, value)
    && PrecisionHeld(c, m, prec, value)
    && NegativeHarmless(c, m, width, prec, value)
    && (Marked(c, m, value) && prec == None ==> KeepsDigits(c, m, width, DigitCountOf(c, value)))
  }

  // --------------------------------------------------------------------- digits

  lemma {:induction false} DigitsOfFacts(v: nat, base: nat, upper: bool)
    requires 2 <= base <= 16
    ensures forall i :: 0 <= i < |DigitsOf(v, base, upper)| ==> !IsSign(DigitsOf(v, base, upper)[i])
    ensures v > 0 ==> DigitsOf(v, base, upper) != "" && DigitsOf(v, base, upper)[0] != '0'
    decreases v
  {
    if v > 0 {
      QuotientSmaller(v, base);
      DigitsOfFacts(Quotient(v, base), base, upper);
      DivMod(v, base);
    }
  }

  /** The digits of the code, if they fit. */
  lemma {:induction false} RevDigitsIs(v: nat, base: nat, upper: bool, room: nat)
    requires 2 <= base <= 16 && v > 0 && |DigitsOf(v, base, upper)| <= room
    ensures RevDigits(v, base, upper, room) == Reverse(DigitsOf(v, base, upper))
    decreases room
  {
    var q, c := Quotient(v, base), DigitChar(Remainder(v, base), upper);
    QuotientSmaller(v, base);
    var more := DigitsOf(q, base, upper);
    assert DigitsOf(v, base, upper) == more + [c];
    ReverseAppend(more, c);
    if q > 0 {
      RevDigitsIs(q, base, upper, room - 1);
    } else {
      assert Reverse(more) == "";
    }
  }

  // ------------------------------------------------------------------------ ink

  lemma {:induction false} InkJustified(t: Text, m: Marks, width: nat)
    ensures Ink(Justified(t, m, width)) == Ink(t)
  {
    if |t| < width { InkBlanks(width - |t|); }
    InkConcat(t, Spaces(width, |t|));
    InkConcat(Spaces(width, |t|), t);
  }

  lemma {:induction false} NumberFacts(c: char, m: Marks, prec: Option<nat>, value: int)
    ensures Ink(NumberOf(c, m, prec, value)) == |NumberOf(c, m, prec, value)|
    ensures |NumberOf(c, m, prec, value)| >= DigitCountOf(c, value)
  {
    DigitsOfFacts(Abs(value), Base(c), c == 'X');
    InkFull(NumberOf(c, m, prec, value));
  }

  /** All of a standard conversion but a blank sign is ink. */
  lemma {:induction false} InkStandard(c: char, m: Marks, width: nat, prec: Option<nat>, value: int)
    ensures var t := Unpadded(c, m, width, prec, value);
            Ink(IntegerConversion(c, m, width, prec, value)) == |t| - if SignOf(c, m, value) == " " then 1 else 0
  {
    var sign, mark, number := SignOf(c, m, value), MarkOf(c, m, value), NumberOf(c, m, prec, value);
    var fill := Repeat('0', Filling(m, width, prec, |sign + mark| + |number|));
    NumberFacts(c, m, prec, value);
    InkFull(fill);
    InkFull(mark);
    SignInk(sign);
    InkConcat(sign + mark + fill, number);
    InkConcat(sign + mark, fill);
    InkConcat(sign, mark);
    InkJustified(Unpadded(c, m, width, prec, value), m, width);
  }

  lemma SignInk(sign: Text)
    requires |sign| <= 1
    ensures Ink(sign) == |sign| - if sign == " " then 1 else 0
  {
    if sign != "" { assert sign[1..] == ""; }
  }

  /** The conversion buffer bounds the body. */
  lemma {:induction false} BodyBound(rev: Text, negative: bool, base: nat, prec: nat, width: nat, f: Flags)
    requires |rev| <= NTOA_BUFFER_SIZE
    ensures |Body(rev, negative, base, prec, width, f)| <= NTOA_BUFFER_SIZE
  {
    var z := Zeroed(rev, negative, prec, width, f);
    assert |z| <= NTOA_BUFFER_SIZE;
    assert |HashRoom(z, base, prec, NarrowedWidth(negative, width, f), f)| <= NTOA_BUFFER_SIZE;
  }

  lemma {:induction false} DigitsBound(v: nat, base: nat, f: Flags)
    requires 2 <= base <= 16
    ensures |Digits(v, base, f)| <= NTOA_BUFFER_SIZE
  {
    DigitsDenote(v, base, f.upper, NTOA_BUFFER_SIZE);
  }

  lemma {:induction false} InkOfNumber(v: nat, negative: bool, base: nat, prec: nat, width: nat, f: Flags)
    requires 2 <= base <= 16
    ensures Ink(Number(v, negative, base, prec, width, f)) <= NTOA_BUFFER_SIZE
  {
    var g := if v == 0 then f.(hash := false) else f;
    var rev := Digits(v, base, g);
    DigitsBound(v, base, g);
    BodyBound(rev, negative, base, prec, width, g);
    InkField(Body(rev, negative, base, prec, width, g), NarrowedWidth(negative, width, g), g);
    InkBound(Body(rev, negative, base, prec, width, g));
  }

  /** Whatever is longer than the conversion buffer is not printed whole. */
  lemma {:induction false} TooLong(c: char, f: Flags, m: Marks, width: nat, prec: Option<int>, value: int)
    requires Ink(IntegerConversion(c, m, width, Effective(prec), value)) > NTOA_BUFFER_SIZE
    ensures IntegerText(c, f, width, Clipped(prec), value) != IntegerConversion(c, m, width, Effective(prec), value)
  {
    InkOfNumber(Abs(value), value < 0, Base(c), Clipped(prec), width, IntegerFlags(c, f));
  }

  // ------------------------------------------------------------ without a marker

  lemma IntegerFlagsAre(c: char, f: Flags, m: Marks, given: bool)
    requires Shows(f, m, given)
    ensures var g := IntegerFlags(c, f);
            && g.left == m.minus && g.precision == given && g.zeropad == (m.zero && !given)
            && g.hash == (m.hash && Base(c) != 10) && g.upper == (c == 'X')
            && g.plus == (m.plus && IsSigned(c)) && g.space == (m.space && IsSigned(c))
  {}

  /** The flags _ntoa_long works with when there is no marker to show. */
  function PlainFlags(c: char, f: Flags): Flags { IntegerFlags(c, f).(hash := false) }

  lemma SameFlags(i: Flags)
    requires !i.hash
    ensures i.(hash := false) == i
  {}

  lemma NumberPlain(v: nat, negative: bool, base: nat, prec: nat, width: nat, i: Flags)
    requires 2 <= base <= 16 && (v == 0 || !i.hash)
    ensures var g := i.(hash := false);
            Number(v, negative, base, prec, width, i) == Formatted(Digits(v, base, g), negative, base, prec, width, g)
  {
    if v != 0 { SameFlags(i); }
  }

  lemma {:induction false} UnmarkedNumber(c: char, f: Flags, m: Marks, width: nat, prec: Option<int>, value: int)
    requires Shows(f, m, prec.Some?) && !Marked(c, m, value)
    ensures var g := PlainFlags(c, f);
            IntegerText(c, f, width, Clipped(prec), value)
            == Formatted(Digits(Abs(value), Base(c), g), value < 0, Base(c), Clipped(prec), width, g)
  {
    IntegerFlagsAre(c, f, m, prec.Some?);
    var i, v := IntegerFlags(c, f), Abs(value);
    assert v == 0 <==> value == 0;
    NumberPlain(v, value < 0, Base(c), Clipped(prec), width, i);
  }

  /** The digits the code starts from. */
  lemma {:induction false} DigitsAre(v: nat, base: nat, g: Flags)
    requires 2 <= base <= 16 && |DigitsOf(v, base, g.upper)| <= NTOA_BUFFER_SIZE
    ensures Digits(v, base, g) ==
            if v == 0 then (if g.precision then "" else "0") else Reverse(DigitsOf(v, base, g.upper))
  {
    if v > 0 {
      RevDigitsIs(v, base, g.upper, NTOA_BUFFER_SIZE);
    }
  }

  lemma {:induction false} DigitsConform(v: nat, base: nat, prec: nat, g: Flags)
    requires 2 <= base <= 16 && |DigitsOf(v, base, g.upper)| <= NTOA_BUFFER_SIZE
    requires !g.hash && if g.precision then !g.zeropad else prec == 0
    ensures Conversion(Digits(v, base, g), prec, g)
  {
    DigitsAre(v, base, g);
    DigitsOfFacts(v, base, g.upper);
  }

  lemma ReverseTwice(t: Text)
    ensures Reverse(Reverse(t)) == t && Reverse("0") == "0" && Reverse("") == ""
  {}

  /** The zeros a precision puts before the digits. */
  function Extension(digits: nat, prec: Option<nat>): nat {
    if digits < Least(prec) then Least(prec) - digits else 0
  }

  /** The number where # does not change it. */
  lemma {:induction false} NumberUnmarked(c: char, m: Marks, prec: Option<nat>, value: int)
    requires !(m.hash && c == 'o') || (value == 0 && prec != Some(0))
    ensures var digits := DigitsOf(Abs(value), Base(c), c == 'X');
            NumberOf(c, m, prec, value) == Repeat('0', Extension(|digits|, prec)) + digits
  {
    Emptys(DigitsOf(Abs(value), Base(c), c == 'X'));
    assert Repeat('0', 0) == "";
  }

  /** What the code starts from, the right way round. */
  lemma {:induction false} StartIs(c: char, f: Flags, m: Marks, given: bool, value: int)
    requires Shows(f, m, given) && DigitCountOf(c, value) <= NTOA_BUFFER_SIZE
    ensures var rev := Digits(Abs(value), Base(c), PlainFlags(c, f));
            Reverse(rev) == if value == 0 && !given then "0" else DigitsOf(Abs(value), Base(c), c == 'X')
  {
    IntegerFlagsAre(c, f, m, given);
    DigitsAre(Abs(value), Base(c), PlainFlags(c, f));
    ReverseTwice(DigitsOf(Abs(value), Base(c), c == 'X'));
  }

  lemma {:induction false} SignsAre(c: char, f: Flags, m: Marks, given: bool, value: int)
    requires Shows(f, m, given) && (value < 0 ==> IsSigned(c))
    ensures Sign(value < 0, PlainFlags(c, f)) == SignOf(c, m, value)
  {
    IntegerFlagsAre(c, f, m, given);
  }

  /** With no precision the two fill up to the width alike. */
  lemma {:induction false} FillAlike(m: Marks, width: nat, sign: nat, digits: nat, g: Flags)
    requires g.left == m.minus && !g.precision && g.zeropad == m.zero
    ensures Zeros(digits, sign, 0, width, g) == Filling(m, width, None, sign + digits)
  {}

  /** The zeros and digits of the two layouts are the same. */
  predicate SameTail(c: char, f: Flags, m: Marks, width: nat, prec: Option<int>, value: int, sign: nat) {
    var g, eff := PlainFlags(c, f), Effective(prec);
    var rev, number := Digits(Abs(value), Base(c), g), NumberOf(c, m, eff, value);
    Repeat('0', Zeros(|rev|, sign, Clipped(prec), width, g)) + Reverse(rev)
    == Repeat('0', Filling(m, width, eff, sign + |number|)) + number
  }

  lemma {:induction false} TailGiven(c: char, f: Flags, m: Marks, width: nat, prec: Option<int>, value: int, sign: nat)
    requires Shows(f, m, true) && !Marked(c, m, value) && DigitCountOf(c, value) <= NTOA_BUFFER_SIZE
    requires Effective(prec).Some? && (m.hash && c == 'o' && value == 0 ==> Effective(prec) != Some(0))
    ensures SameTail(c, f, m, width, prec, value, sign)
  {
    var number := NumberOf(c, m, Effective(prec), value);
    StartIs(c, f, m, true, value);
    NumberUnmarked(c, m, Effective(prec), value);
    IntegerFlagsAre(c, f, m, true);
    Emptys(number);
    assert Repeat('0', 0) == "";
    var g := PlainFlags(c, f);
    var rev, digits := Digits(Abs(value), Base(c), g), DigitsOf(Abs(value), Base(c), c == 'X');
    assert Reverse(rev) == digits && |rev| == |digits|;
    assert Zeros(|rev|, sign, Clipped(prec), width, g) == Extension(|digits|, Effective(prec));
    assert Filling(m, width, Effective(prec), sign + |number|) == 0;
  }

  lemma {:induction false} TailAbsent(c: char, f: Flags, m: Marks, width: nat, value: int, sign: nat)
    requires Shows(f, m, false) && !Marked(c, m, value) && DigitCountOf(c, value) <= NTOA_BUFFER_SIZE
    ensures SameTail(c, f, m, width, None, value, sign)
  {
    var g := PlainFlags(c, f);
    var rev := Digits(Abs(value), Base(c), g);
    StartIs(c, f, m, false, value);
    NumberAbsent(c, m, value);
    IntegerFlagsAre(c, f, m, false);
    FillAlike(m, width, sign, |rev|, g);
    var number := NumberOf(c, m, None, value);
    assert number == Reverse(rev) && |number| == |rev|;
    assert Effective(None) == None && Clipped(None) == 0;
  }

  lemma {:induction false} NumberAbsent(c: char, m: Marks, value: int)
    requires !Marked(c, m, value)
    ensures NumberOf(c, m, None, value) == if value == 0 then "0" else DigitsOf(Abs(value), Base(c), c == 'X')
  {
    var digits := DigitsOf(Abs(value), Base(c), c == 'X');
    NumberUnmarked(c, m, None, value);
    DigitsOfFacts(Abs(value), Base(c), c == 'X');
    Emptys(digits);
    assert Repeat('0', 0) == "" && Repeat('0', 1) == "0";
  }

  lemma {:induction false} TailNegative(c: char, f: Flags, m: Marks, width: nat, prec: Option<int>, value: int,
                                        sign: nat)
    requires Shows(f, m, true) && !Marked(c, m, value) && DigitCountOf(c, value) <= NTOA_BUFFER_SIZE
    requires prec.Some? && prec.value < 0 && value != 0
    requires Filling(m, width, None, sign + |NumberOf(c, m, None, value)|) == 0
    ensures SameTail(c, f, m, width, prec, value, sign)
  {
    StartIs(c, f, m, true, value);
    NumberUnmarked(c, m, None, value);
    IntegerFlagsAre(c, f, m, true);
    DigitsOfFacts(Abs(value), Base(c), c == 'X');
    assert Repeat('0', 0) == "";
    Emptys(DigitsOf(Abs(value), Base(c), c == 'X'));
  }

  lemma {:induction false} UnpaddedUnmarked(c: char, m: Marks, width: nat, prec: Option<nat>, value: int)
    requires !Marked(c, m, value)
    ensures var sign, number := SignOf(c, m, value), NumberOf(c, m, prec, value);
            Unpadded(c, m, width, prec, value)
            == sign + (Repeat('0', Filling(m, width, prec, |sign| + |number|)) + number)
  {
    var sign, number := SignOf(c, m, value), NumberOf(c, m, prec, value);
    Emptys(sign);
    Regroup(sign, Repeat('0', Filling(m, width, prec, |sign| + |number|)), number);
  }

  lemma {:induction false} SameLayout(c: char, f: Flags, m: Marks, width: nat, prec: Option<int>, value: int)
    requires Shows(f, m, prec.Some?) && !Marked(c, m, value) && (value < 0 ==> IsSigned(c))
    requires DigitCountOf(c, value) <= NTOA_BUFFER_SIZE
    requires NegativeHarmless(c, m, width, prec, value)
    requires m.hash && c == 'o' && value == 0 ==> Effective(prec) != Some(0)
    ensures UnmarkedBody(Digits(Abs(value), Base(c), PlainFlags(c, f)), value < 0, Clipped(prec), width,
                         PlainFlags(c, f))
         == Unpadded(c, m, width, Effective(prec), value)
  {
    var g, sign := PlainFlags(c, f), SignOf(c, m, value);
    var rev := Digits(Abs(value), Base(c), g);
    SignsAre(c, f, m, prec.Some?, value);
    if Effective(prec).Some? {
      TailGiven(c, f, m, width, prec, value, |sign|);
    } else if prec == None {
      TailAbsent(c, f, m, width, value, |sign|);
    } else {
      Emptys(sign);
      TailNegative(c, f, m, width, prec, value, |sign|);
    }
    UnpaddedUnmarked(c, m, width, Effective(prec), value);
    Regroup(sign, Repeat('0', Zeros(|rev|, |sign|, Clipped(prec), width, g)), Reverse(rev));
  }

  lemma {:induction false} InkSignMark(rev: Text, negative: bool, f: Flags)
    ensures Ink(SignMark(rev, negative, f)) <= |rev| + Ink(Sign(negative, f))
  {
    InkBound(rev);
    var sign := Sign(negative, f);
    if sign != "" && |rev| < NTOA_BUFFER_SIZE {
      assert sign == [sign[0]];
      InkConcat(rev, sign);
    }
  }

  /** With a precision that comes to zero the code prints sign and digits only. */
  lemma {:induction false} InkBare(rev: Text, negative: bool, base: nat, width: nat, g: Flags)
    requires !g.hash && !g.zeropad
    ensures Ink(Formatted(rev, negative, base, 0, width, g)) <= |rev| + Ink(Sign(negative, g))
  {
    var w, body := NarrowedWidth(negative, width, g), Body(rev, negative, base, 0, width, g);
    assert Zeroed(rev, negative, 0, width, g) == rev;
    BodyIs(rev, negative, base, 0, width, g, rev);
    InkSignMark(rev, negative, g);
    InkField(body, w, g);
  }

  /** A negative precision that matters: the standard prints more. */
  lemma {:induction false} NegativeDiffers(c: char, f: Flags, m: Marks, width: nat, prec: Option<int>, value: int)
    requires Shows(f, m, prec.Some?) && !Marked(c, m, value) && (value < 0 ==> IsSigned(c))
    requires DigitCountOf(c, value) <= NTOA_BUFFER_SIZE && !NegativeHarmless(c, m, width, prec, value)
    ensures IntegerText(c, f, width, Clipped(prec), value) != IntegerConversion(c, m, width, Effective(prec), value)
  {
    var g, sign := PlainFlags(c, f), SignOf(c, m, value);
    var rev := Digits(Abs(value), Base(c), g);
    UnmarkedNumber(c, f, m, width, prec, value);
    IntegerFlagsAre(c, f, m, true);
    SignsAre(c, f, m, true, value);
    StartIs(c, f, m, true, value);
    InkBare(rev, value < 0, Base(c), width, g);
    InkStandard(c, m, width, None, value);
    UnpaddedUnmarked(c, m, width, None, value);
    NumberAbsent(c, m, value);
    SignInk(sign);
    Emptys(sign);
  }

  /** %#.0o of zero. */
  lemma {:induction false} OctalZeroDiffers(c: char, f: Flags, m: Marks, width: nat, prec: Option<int>)
    requires Shows(f, m, true) && m.hash && c == 'o' && Effective(prec) == Some(0)
    ensures IntegerText(c, f, width, Clipped(prec), 0) != IntegerConversion(c, m, width, Effective(prec), 0)
  {
    var g := PlainFlags(c, f);
    UnmarkedNumber(c, f, m, width, prec, 0);
    IntegerFlagsAre(c, f, m, true);
    InkBare(Digits(0, 8, g), false, 8, width, g);
    InkStandard(c, m, width, Some(0), 0);
    UnpaddedUnmarked(c, m, width, Some(0), 0);
    SignInk("");
    Emptys("");
    assert NumberOf(c, m, Some(0), 0) == "0";
  }

  /** Only a left justified precision asks for zeros the code leaves out. */
  lemma {:induction false} PrecisionHeldIs(c: char, f: Flags, m: Marks, prec: Option<int>, value: int)
    requires Shows(f, m, prec.Some?) && !Marked(c, m, value) && DigitCountOf(c, value) <= NTOA_BUFFER_SIZE
    requires m.hash && c == 'o' && value == 0 ==> Effective(prec) != Some(0)
    ensures PrecisionHeld(c, m, prec, value)
            <==> !(m.minus && |Digits(Abs(value), Base(c), PlainFlags(c, f))| < Clipped(prec))
  {
    StartIs(c, f, m, prec.Some?, value);
  }

  lemma {:induction false} UnmarkedAgreesIs(c: char, f: Flags, m: Marks, width: nat, prec: Option<int>, value: int)
    requires Shows(f, m, prec.Some?) && !Marked(c, m, value) && (value < 0 ==> IsSigned(c))
    requires DigitCountOf(c, value) <= NTOA_BUFFER_SIZE && NegativeHarmless(c, m, width, prec, value)
    requires m.hash && c == 'o' && value == 0 ==> Effective(prec) != Some(0)
    ensures var g := PlainFlags(c, f);
            UnmarkedAgrees(Digits(Abs(value), Base(c), g), value < 0, Clipped(prec), width, g)
            <==> Agrees(c, m, width, prec, value)
  {
    SameLayout(c, f, m, width, prec, value);
    PrecisionHeldIs(c, f, m, prec, value);
    IntegerFlagsAre(c, f, m, prec.Some?);
    SignsAre(c, f, m, prec.Some?, value);
    var g := PlainFlags(c, f);
    assert g.left == m.minus && g.zeropad == (m.zero && prec == None);
  }

  lemma {:induction false} UnmarkedConforms(c: char, f: Flags, m: Marks, width: nat, prec: Option<int>, value: int)
    requires Shows(f, m, prec.Some?) && !Marked(c, m, value) && (value < 0 ==> IsSigned(c))
    requires DigitCountOf(c, value) <= NTOA_BUFFER_SIZE
    ensures IntegerText(c, f, width, Clipped(prec), value) == IntegerConversion(c, m, width, Effective(prec), value)
            <==> Agrees(c, m, width, prec, value)
  {
    if !NegativeHarmless(c, m, width, prec, value) {
      NegativeDiffers(c, f, m, width, prec, value);
    } else if m.hash && c == 'o' && value == 0 && Effective(prec) == Some(0) {
      OctalZeroDiffers(c, f, m, width, prec);
    } else {
      var g := PlainFlags(c, f);
      var rev := Digits(Abs(value), Base(c), g);
      IntegerFlagsAre(c, f, m, prec.Some?);
      UnmarkedNumber(c, f, m, width, prec, value);
      SameLayout(c, f, m, width, prec, value);
      UnmarkedAgreesIs(c, f, m, width, prec, value);
      DigitsConform(Abs(value), Base(c), Clipped(prec), g);
      UnmarkedIff(rev, value < 0, Clipped(prec), width, g, Base(c));
      assert UnmarkedText(rev, value < 0, Clipped(prec), width, g)
          == IntegerConversion(c, m, width, Effective(prec), value);
    }
  }
}
