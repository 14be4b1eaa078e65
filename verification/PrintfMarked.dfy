/** The conversions on which # has something to show: how many padding zeros the
    code leaves between marker and digits, against how many the standard puts
    there. */
module PrintfMarked {
  import opened Options
  import opened Sequences
  import opened Numbers
  import opened PrintfModel
  import opened PrintfFacts
  import opened PrintfUnmarked
  import opened PrintfReference
  import opened PrintfInk
  import opened PrintfConforms

  predicate HasMarker(c: char) { c == 'x' || c == 'X' || c == 'o' || c == 'b' }

  /** The marker, the right way round. */
  function Marker(c: char): Text {
    if c == 'x' then "0x" else if c == 'X' then "0X" else if c == 'b' then "0b" else "0"
  }

  /** Marker, zeros and digits. */
  function Layout(c: char, zeros: nat, digits: Text): Text {
    Marker(c) + Repeat('0', zeros) + digits
  }

  // --------------------------------------------------------------- the standard

  /** The zeros of the standard after the marker. */
  function StandardZeros(c: char, m: Marks, width: nat, prec: Option<nat>, digits: nat): nat {
    var x := Extension(digits, prec);
    var more := if c == 'o' && x > 0 then x - 1 else x;
    more + Filling(m, width, prec, |Marker(c)| + more + digits)
  }

  lemma {:induction false} RepeatJoins(c: char, a: nat, b: nat)
    ensures Repeat(c, a) + Repeat(c, b) == Repeat(c, a + b)
  {}

  lemma {:induction false} MarkedNumber(c: char, m: Marks, prec: Option<nat>, value: int)
    requires HasMarker(c) && Marked(c, m, value)
    ensures var digits := DigitsOf(Abs(value), Base(c), c == 'X');
            var x := Extension(|digits|, prec);
            NumberOf(c, m, prec, value) == Repeat('0', if c == 'o' && x == 0 then 1 else x) + digits
  {
    var digits := DigitsOf(Abs(value), Base(c), c == 'X');
    DigitsOfFacts(Abs(value), Base(c), c == 'X');
    Emptys(digits);
    assert Repeat('0', 0) == "" && Repeat('0', 1) == "0";
  }

  lemma OneZero(n: nat)
    ensures "0" + Repeat('0', n) == Repeat('0', n + 1)
  {}

  lemma {:induction false} PrefixLayout(c: char, m: Marks, width: nat, prec: Option<nat>, value: int)
    requires HasMarker(c) && c != 'o' && Marked(c, m, value) && value > 0
    ensures var digits := DigitsOf(Abs(value), Base(c), c == 'X');
            Unpadded(c, m, width, prec, value) == Layout(c, StandardZeros(c, m, width, prec, |digits|), digits)
  {
    var digits, mark := DigitsOf(Abs(value), Base(c), c == 'X'), Marker(c);
    var x := Extension(|digits|, prec);
    var fill := Filling(m, width, prec, |mark| + x + |digits|);
    MarkedNumber(c, m, prec, value);
    Emptys(mark);
    Regroup(mark + Repeat('0', fill), Repeat('0', x), digits);
    Regroup(mark, Repeat('0', fill), Repeat('0', x));
    RepeatJoins('0', fill, x);
  }

  lemma {:induction false} OctalLayout(m: Marks, width: nat, prec: Option<nat>, value: int)
    requires Marked('o', m, value) && value > 0
    ensures var digits := DigitsOf(Abs(value), 8, false);
            Unpadded('o', m, width, prec, value) == Layout('o', StandardZeros('o', m, width, prec, |digits|), digits)
  {
    var digits := DigitsOf(Abs(value), 8, false);
    var x := Extension(|digits|, prec);
    var lead := if x == 0 then 1 else x;
    var fill := Filling(m, width, prec, lead + |digits|);
    MarkedNumber('o', m, prec, value);
    Emptys("");
    Emptys(Repeat('0', fill));
    Regroup(Repeat('0', fill), Repeat('0', lead), digits);
    RepeatJoins('0', fill, lead);
    OneZero(fill + lead - 1);
    assert StandardZeros('o', m, width, prec, |digits|) == fill + lead - 1;
    assert Unpadded('o', m, width, prec, value) == Repeat('0', fill + lead) + digits;
  }

  /** The standard's text before blanks. */
  lemma {:induction false} StandardLayout(c: char, m: Marks, width: nat, prec: Option<nat>, value: int)
    requires HasMarker(c) && Marked(c, m, value) && value > 0
    ensures var digits := DigitsOf(Abs(value), Base(c), c == 'X');
            Unpadded(c, m, width, prec, value) == Layout(c, StandardZeros(c, m, width, prec, |digits|), digits)
  {
    if c == 'o' {
      OctalLayout(m, width, prec, value);
    } else {
      PrefixLayout(c, m, width, prec, value);
    }
  }

  // ------------------------------------------------------------------- the code

  /** The zeros the code fills in before it makes room for the marker. */
  function Filled(m: Marks, width: nat, prec: Option<int>, digits: nat): nat {
    var goal := if m.minus then 0 else if prec.Some? then Clipped(prec) else if m.zero then width else 0;
    var bounded := Min(goal, NTOA_BUFFER_SIZE);
    if digits < bounded then bounded - digits else 0
  }

  /** What it removes to make room. */
  function Removed(c: char, width: nat, prec: Option<int>, length: nat): nat {
    if prec.Some? || length != width then 0 else if Base(c) == 16 && length > 1 then 2 else 1
  }

  /** The zeros it is left with; negative if it has removed digits. */
  function KeptZeros(c: char, m: Marks, width: nat, prec: Option<int>, digits: nat): int {
    var z := Filled(m, width, prec, digits);
    z - Removed(c, width, prec, digits + z)
  }

  lemma {:induction false} ZeroedIs(rev: Text, m: Marks, width: nat, prec: Option<int>, g: Flags)
    requires rev != "" && |rev| <= NTOA_BUFFER_SIZE
    requires g.left == m.minus && g.precision == prec.Some? && g.zeropad == (m.zero && prec == None)
    requires !g.plus && !g.space
    ensures Zeroed(rev, false, Clipped(prec), width, g) == rev + Repeat('0', Filled(m, width, prec, |rev|))
    ensures NarrowedWidth(false, width, g) == width
  {
    Emptys(rev);
    assert Repeat('0', 0) == "";
  }

  /** Making room takes zeros while there are any. */
  lemma {:induction false} RoomIs(c: char, rev: Text, z: nat, width: nat, prec: Option<int>, g: Flags)
    requires rev != "" && g.precision == prec.Some? && HasMarker(c)
    ensures var r := HashRoom(rev + Repeat('0', z), Base(c), Clipped(prec), width, g);
            var kept := z - Removed(c, width, prec, |rev| + z);
            |r| == |rev| + kept && (kept >= 0 ==> r == rev + Repeat('0', kept))
  {
    var all := rev + Repeat('0', z);
    if z >= 1 { assert all[..|all| - 1] == rev + Repeat('0', z - 1); }
    if z >= 2 { assert all[..|all| - 2] == rev + Repeat('0', z - 2); }
  }

  /** The marker is put on whole if it fits. */
  lemma {:induction false} MarkerPut(c: char, r: Text, g: Flags)
    requires HasMarker(c) && g.upper == (c == 'X') && |r| + |Marker(c)| <= NTOA_BUFFER_SIZE
    ensures MarkOn(r, Base(c), g) == r + Reverse(Marker(c))
  {
    assert Reverse(Marker(c)) == if c == 'x' then "x0" else if c == 'X' then "X0" else if c == 'b' then "b0" else "0";
  }

  /** The end of the # part of _ntoa_format. */
  function MarkOn(r: Text, base: nat, g: Flags): Text {
    var m := if base == 16 then Append(r, if g.upper then 'X' else 'x')
             else if base == 2 then Append(r, 'b') else r;
    Append(m, '0')
  }

  lemma {:induction false} MarkOnBound(c: char, r: Text, g: Flags)
    requires HasMarker(c) && |r| <= NTOA_BUFFER_SIZE
    ensures |MarkOn(r, Base(c), g)| <= NTOA_BUFFER_SIZE && |MarkOn(r, Base(c), g)| <= |r| + |Marker(c)|
  {}

  /** The buffer of the code before the marker goes on. */
  function Room(c: char, f: Flags, width: nat, prec: Option<int>, value: int): Text {
    var g := IntegerFlags(c, f);
    var rev := Digits(Abs(value), Base(c), g);
    HashRoom(Zeroed(rev, false, Clipped(prec), width, g), Base(c), Clipped(prec), width, g)
  }

  lemma {:induction false} BodyMarked(rev: Text, base: nat, prec: nat, width: nat, g: Flags)
    requires g.hash && !g.plus && !g.space && NarrowedWidth(false, width, g) == width
    ensures Body(rev, false, base, prec, width, g)
         == MarkOn(HashRoom(Zeroed(rev, false, prec, width, g), base, prec, width, g), base, g)
  {}

  /** What the code starts from here. */
  lemma {:induction false} StartMarked(c: char, f: Flags, m: Marks, given: bool, value: int)
    requires HasMarker(c) && Shows(f, m, given) && Marked(c, m, value) && DigitCountOf(c, value) <= NTOA_BUFFER_SIZE
    ensures var rev := Digits(Abs(value), Base(c), IntegerFlags(c, f));
            rev != "" && Reverse(rev) == DigitsOf(Abs(value), Base(c), c == 'X')
  {
    IntegerFlagsAre(c, f, m, given);
    DigitsAre(Abs(value), Base(c), IntegerFlags(c, f));
    ReverseTwice(DigitsOf(Abs(value), Base(c), c == 'X'));
    DigitsOfFacts(Abs(value), Base(c), c == 'X');
  }

  lemma {:induction false} TextMarked(c: char, f: Flags, m: Marks, width: nat, prec: Option<int>, value: int)
    requires HasMarker(c) && Shows(f, m, prec.Some?) && Marked(c, m, value) && value > 0
    requires DigitCountOf(c, value) <= NTOA_BUFFER_SIZE
    ensures var g := IntegerFlags(c, f);
            IntegerText(c, f, width, Clipped(prec), value)
            == Field(MarkOn(Room(c, f, width, prec, value), Base(c), g), width, g)
  {
    var g := IntegerFlags(c, f);
    var rev := Digits(Abs(value), Base(c), g);
    IntegerFlagsAre(c, f, m, prec.Some?);
    StartMarked(c, f, m, prec.Some?, value);
    ZeroedIs(rev, m, width, prec, g);
    BodyMarked(rev, Base(c), Clipped(prec), width, g);
  }

  lemma {:induction false} RoomMarked(c: char, f: Flags, m: Marks, width: nat, prec: Option<int>, value: int)
    requires HasMarker(c) && Shows(f, m, prec.Some?) && Marked(c, m, value) && value > 0
    requires DigitCountOf(c, value) <= NTOA_BUFFER_SIZE
    ensures var kept := KeptZeros(c, m, width, prec, DigitCountOf(c, value));
            var digits := DigitsOf(Abs(value), Base(c), c == 'X');
            var r := Room(c, f, width, prec, value);
            |r| == |digits| + kept && (kept >= 0 ==> Reverse(r) == Repeat('0', kept) + digits)
  {
    var g := IntegerFlags(c, f);
    var rev := Digits(Abs(value), Base(c), g);
    IntegerFlagsAre(c, f, m, prec.Some?);
    StartMarked(c, f, m, prec.Some?, value);
    ZeroedIs(rev, m, width, prec, g);
    RoomIs(c, rev, Filled(m, width, prec, |rev|), width, prec, g);
    var kept := KeptZeros(c, m, width, prec, |rev|);
    if kept >= 0 { ReverseZeros(rev, kept); }
  }

  // ----------------------------------------------------------------- comparison

  lemma {:induction false} ReverseJoins(a: Text, b: Text)
    ensures Reverse(a + Reverse(b)) == b + Reverse(a)
  {}

  lemma {:induction false} InkLayout(c: char, zeros: nat, value: int)
    requires HasMarker(c)
    ensures var t := Layout(c, zeros, DigitsOf(Abs(value), Base(c), c == 'X'));
            Ink(t) == |t|
  {
    DigitsOfFacts(Abs(value), Base(c), c == 'X');
    InkFull(Layout(c, zeros, DigitsOf(Abs(value), Base(c), c == 'X')));
  }

  /** All of the standard's text is ink. */
  lemma {:induction false} InkStandardMarked(c: char, m: Marks, width: nat, prec: Option<nat>, value: int)
    requires HasMarker(c) && Marked(c, m, value) && value > 0
    ensures var digits := DigitCountOf(c, value);
            Ink(IntegerConversion(c, m, width, prec, value))
            == |Marker(c)| + StandardZeros(c, m, width, prec, digits) + digits
  {
    InkStandard(c, m, width, prec, value);
    StandardLayout(c, m, width, prec, value);
  }

  /** What the code prints where the marker fits. */
  lemma {:induction false} CodeLayout(c: char, f: Flags, m: Marks, width: nat, prec: Option<int>, value: int)
    returns (body: Text)
    requires HasMarker(c) && Shows(f, m, prec.Some?) && Marked(c, m, value) && value > 0
    requires DigitCountOf(c, value) <= NTOA_BUFFER_SIZE
    requires var kept := KeptZeros(c, m, width, prec, DigitCountOf(c, value));
             kept >= 0 && |Marker(c)| + kept + DigitCountOf(c, value) <= NTOA_BUFFER_SIZE
    ensures IntegerText(c, f, width, Clipped(prec), value) == Field(body, width, IntegerFlags(c, f))
    ensures Reverse(body)
         == Layout(c, KeptZeros(c, m, width, prec, DigitCountOf(c, value)), DigitsOf(Abs(value), Base(c), c == 'X'))
  {
    var g, r := IntegerFlags(c, f), Room(c, f, width, prec, value);
    var digits := DigitsOf(Abs(value), Base(c), c == 'X');
    var kept := KeptZeros(c, m, width, prec, |digits|);
    IntegerFlagsAre(c, f, m, prec.Some?);
    TextMarked(c, f, m, width, prec, value);
    RoomMarked(c, f, m, width, prec, value);
    MarkerPut(c, r, g);
    ReverseJoins(r, Marker(c));
    Regroup(Marker(c), Repeat('0', kept), digits);
    body := MarkOn(r, Base(c), g);
  }

  /** Where the marker fits, the code agrees iff it keeps the right zeros. */
  lemma {:induction false} FittingIff(c: char, f: Flags, m: Marks, width: nat, prec: Option<int>, value: int)
    requires HasMarker(c) && Shows(f, m, prec.Some?) && Marked(c, m, value) && value > 0
    requires DigitCountOf(c, value) <= NTOA_BUFFER_SIZE
    requires var kept := KeptZeros(c, m, width, prec, DigitCountOf(c, value));
             kept >= 0 && |Marker(c)| + kept + DigitCountOf(c, value) <= NTOA_BUFFER_SIZE
    ensures var digits := DigitCountOf(c, value);
            IntegerText(c, f, width, Clipped(prec), value) == IntegerConversion(c, m, width, Effective(prec), value)
            <==> KeptZeros(c, m, width, prec, digits) == StandardZeros(c, m, width, Effective(prec), digits)
  {
    var g := IntegerFlags(c, f);
    var digits := DigitsOf(Abs(value), Base(c), c == 'X');
    var kept, std := KeptZeros(c, m, width, prec, |digits|), StandardZeros(c, m, width, Effective(prec), |digits|);
    IntegerFlagsAre(c, f, m, prec.Some?);
    var body := CodeLayout(c, f, m, width, prec, value);
    InkField(body, width, g);
    InkReverse(body);
    InkLayout(c, kept, value);
    InkStandardMarked(c, m, width, Effective(prec), value);
    if kept == std {
      StandardLayout(c, m, width, Effective(prec), value);
      FieldIsJustified(body, Layout(c, std, digits), width, g, m);
    }
  }

  lemma {:induction false} FieldIsJustified(body: Text, t: Text, width: nat, g: Flags, m: Marks)
    requires Reverse(body) == t && g.left == m.minus && (!m.minus && g.zeropad ==> width <= |t|)
    ensures Field(body, width, g) == Justified(t, m, width)
  {
    Emptys(t);
    Emptys(Spaces(width, |t|) + t);
  }

  /** Where digits were removed, the standard prints more. */
  lemma {:induction false} CutDiffers(c: char, f: Flags, m: Marks, width: nat, prec: Option<int>, value: int)
    requires HasMarker(c) && Shows(f, m, prec.Some?) && Marked(c, m, value) && value > 0
    requires DigitCountOf(c, value) <= NTOA_BUFFER_SIZE
    requires KeptZeros(c, m, width, prec, DigitCountOf(c, value)) < 0
    ensures IntegerText(c, f, width, Clipped(prec), value) != IntegerConversion(c, m, width, Effective(prec), value)
  {
    var g, r := IntegerFlags(c, f), Room(c, f, width, prec, value);
    TextMarked(c, f, m, width, prec, value);
    RoomMarked(c, f, m, width, prec, value);
    MarkOnBound(c, r, g);
    InkField(MarkOn(r, Base(c), g), width, g);
    InkBound(MarkOn(r, Base(c), g));
    InkStandardMarked(c, m, width, Effective(prec), value);
  }

  // -------------------------------------------------------------------- counting

  /** Agrees, in numbers. */
  predicate AgreesInNumbers(c: char, m: Marks, width: nat, prec: Option<int>, digits: nat) {
    var eff, octal := Effective(prec), c == 'o';
    && |Marker(c)| + StandardZeros(c, m, width, eff, digits) + digits <= NTOA_BUFFER_SIZE
    && (eff.Some? && m.minus ==> eff.value <= digits + if octal then 1 else 0)
    && (eff.Some? && octal && !m.minus ==> eff.value <= digits || eff.value == NTOA_BUFFER_SIZE)
    && (prec.Some? && prec.value < 0 ==> Filling(m, width, None, |Marker(c)| + digits) == 0)
    && (prec == None ==> KeepsDigits(c, m, width, digits))
  }

  lemma {:induction false} AgreesMarked(c: char, m: Marks, width: nat, prec: Option<int>, value: int)
    requires HasMarker(c) && Marked(c, m, value) && value > 0
    ensures Agrees(c, m, width, prec, value) <==> AgreesInNumbers(c, m, width, prec, DigitCountOf(c, value))
  {
    StandardLayout(c, m, width, Effective(prec), value);
    FrontMarked(c, m, value);
    HeldMarked(c, m, prec, value);
  }

  lemma {:induction false} FrontMarked(c: char, m: Marks, value: int)
    requires HasMarker(c) && Marked(c, m, value) && value > 0
    ensures SignOf(c, m, value) == ""
    ensures |SignOf(c, m, value) + MarkOf(c, m, value)| + |NumberOf(c, m, None, value)|
         == |Marker(c)| + DigitCountOf(c, value)
  {
    MarkedNumber(c, m, None, value);
    DigitsOfFacts(Abs(value), Base(c), c == 'X');
  }

  lemma {:induction false} HeldMarked(c: char, m: Marks, prec: Option<int>, value: int)
    requires HasMarker(c) && Marked(c, m, value) && value > 0
    ensures var eff, digits := Effective(prec), DigitCountOf(c, value);
            PrecisionHeld(c, m, prec, value) <==>
              (eff.Some? && m.minus ==> eff.value <= digits + if c == 'o' then 1 else 0)
              && (eff.Some? && c == 'o' && !m.minus ==> eff.value <= digits || eff.value == NTOA_BUFFER_SIZE)
  {}

  /** The buffer is full before an octal marker that a precision has made
      superfluous. */
  predicate OctalFull(c: char, m: Marks, prec: Option<int>) {
    c == 'o' && !m.minus && prec == Some(NTOA_BUFFER_SIZE)
  }

  /** The buffer is full after half of a binary marker. */
  predicate BinaryFull(c: char, m: Marks, width: nat, prec: Option<int>, digits: nat) {
    c == 'b' && !m.minus && m.zero && prec == None && width == NTOA_BUFFER_SIZE && digits < width
  }

  predicate MarkerFits(c: char, m: Marks, width: nat, prec: Option<int>, digits: nat) {
    |Marker(c)| + KeptZeros(c, m, width, prec, digits) + digits <= NTOA_BUFFER_SIZE
  }

  lemma {:induction false} CountsFit(c: char, m: Marks, width: nat, prec: Option<int>, digits: nat)
    requires HasMarker(c) && 1 <= digits <= NTOA_BUFFER_SIZE && MarkerFits(c, m, width, prec, digits)
    requires KeptZeros(c, m, width, prec, digits) >= 0
    ensures AgreesInNumbers(c, m, width, prec, digits)
            <==> KeptZeros(c, m, width, prec, digits) == StandardZeros(c, m, width, Effective(prec), digits)
  {}

  lemma {:induction false} CountsCut(c: char, m: Marks, width: nat, prec: Option<int>, digits: nat)
    requires HasMarker(c) && 1 <= digits <= NTOA_BUFFER_SIZE && KeptZeros(c, m, width, prec, digits) < 0
    ensures !AgreesInNumbers(c, m, width, prec, digits)
  {}

  lemma {:induction false} CountsDoNotFit(c: char, m: Marks, width: nat, prec: Option<int>, digits: nat)
    requires HasMarker(c) && 1 <= digits <= NTOA_BUFFER_SIZE && !MarkerFits(c, m, width, prec, digits)
    requires KeptZeros(c, m, width, prec, digits) >= 0
    ensures OctalFull(c, m, prec) ==> (AgreesInNumbers(c, m, width, prec, digits) <==> digits < NTOA_BUFFER_SIZE)
    ensures BinaryFull(c, m, width, prec, digits) ==> !AgreesInNumbers(c, m, width, prec, digits)
    ensures (OctalFull(c, m, prec) ==> digits == NTOA_BUFFER_SIZE) && !BinaryFull(c, m, width, prec, digits) ==>
              |Marker(c)| + StandardZeros(c, m, width, Effective(prec), digits) + digits > NTOA_BUFFER_SIZE
  {}

  // ------------------------------------------------------------- a full buffer

  lemma {:induction false} OctalFullAgrees(f: Flags, m: Marks, width: nat, value: int)
    requires Shows(f, m, true) && Marked('o', m, value) && value > 0 && !m.minus
    requires DigitCountOf('o', value) < NTOA_BUFFER_SIZE
    ensures IntegerText('o', f, width, NTOA_BUFFER_SIZE, value)
         == IntegerConversion('o', m, width, Some(NTOA_BUFFER_SIZE), value)
  {
    var prec: Option<int> := Some(NTOA_BUFFER_SIZE);
    var g, r := IntegerFlags('o', f), Room('o', f, width, prec, value);
    var digits := DigitsOf(Abs(value), 8, false);
    IntegerFlagsAre('o', f, m, true);
    TextMarked('o', f, m, width, prec, value);
    RoomMarked('o', f, m, width, prec, value);
    assert |r| == NTOA_BUFFER_SIZE && MarkOn(r, 8, g) == r;
    StandardLayout('o', m, width, Some(NTOA_BUFFER_SIZE), value);
    OneZero(NTOA_BUFFER_SIZE - |digits| - 1);
    FieldIsJustified(r, Repeat('0', NTOA_BUFFER_SIZE - |digits|) + digits, width, g, m);
  }

  lemma {:induction false} BinaryFullDiffers(f: Flags, m: Marks, width: nat, value: int)
    requires Shows(f, m, false) && Marked('b', m, value) && value > 0
    requires BinaryFull('b', m, width, None, DigitCountOf('b', value))
    ensures IntegerText('b', f, width, 0, value) != IntegerConversion('b', m, width, None, value)
  {
    var g, r := IntegerFlags('b', f), Room('b', f, width, None, value);
    IntegerFlagsAre('b', f, m, false);
    TextMarked('b', f, m, width, None, value);
    RoomMarked('b', f, m, width, None, value);
    assert |r| == NTOA_BUFFER_SIZE - 1;
    assert MarkOn(r, 2, g) == r + ['b'];
    ReverseAppend(r, 'b');
    Emptys(Reverse(r + ['b']));
    assert Field(r + ['b'], width, g)[0] == 'b';
    StandardLayout('b', m, width, None, value);
    StartsWithMarker(m, width, value);
  }

  lemma {:induction false} StartsWithMarker(m: Marks, width: nat, value: int)
    requires Marked('b', m, value) && value > 0 && BinaryFull('b', m, width, None, DigitCountOf('b', value))
    ensures IntegerConversion('b', m, width, None, value)[0] == '0'
  {
    StandardLayout('b', m, width, None, value);
    var t := Unpadded('b', m, width, None, value);
    assert t[0] == '0' && |t| >= width;
    assert Spaces(width, |t|) == "";
  }

  lemma {:induction false} LongDiffers(c: char, f: Flags, m: Marks, width: nat, prec: Option<int>, value: int)
    requires HasMarker(c) && Marked(c, m, value) && value > 0
    requires |Marker(c)| + StandardZeros(c, m, width, Effective(prec), DigitCountOf(c, value)) + DigitCountOf(c, value)
           > NTOA_BUFFER_SIZE
    ensures IntegerText(c, f, width, Clipped(prec), value) != IntegerConversion(c, m, width, Effective(prec), value)
  {
    InkStandardMarked(c, m, width, Effective(prec), value);
    TooLong(c, f, m, width, prec, value);
  }

  lemma {:induction false} MarkedConforms(c: char, f: Flags, m: Marks, width: nat, prec: Option<int>, value: int)
    requires HasMarker(c) && Shows(f, m, prec.Some?) && Marked(c, m, value) && value > 0
    requires DigitCountOf(c, value) <= NTOA_BUFFER_SIZE
    ensures IntegerText(c, f, width, Clipped(prec), value) == IntegerConversion(c, m, width, Effective(prec), value)
            <==> Agrees(c, m, width, prec, value)
  {
    var digits := DigitCountOf(c, value);
    DigitsOfFacts(Abs(value), Base(c), c == 'X');
    AgreesMarked(c, m, width, prec, value);
    if KeptZeros(c, m, width, prec, digits) < 0 {
      CountsCut(c, m, width, prec, digits);
      CutDiffers(c, f, m, width, prec, value);
    } else if MarkerFits(c, m, width, prec, digits) {
      CountsFit(c, m, width, prec, digits);
      FittingIff(c, f, m, width, prec, value);
    } else {
      CountsDoNotFit(c, m, width, prec, digits);
      if OctalFull(c, m, prec) && digits < NTOA_BUFFER_SIZE {
        OctalFullAgrees(f, m, width, value);
      } else if BinaryFull(c, m, width, prec, digits) {
        BinaryFullDiffers(f, m, width, value);
      } else {
        LongDiffers(c, f, m, width, prec, value);
      }
    }
  }

  // --------------------------------------------------------------------- theorem

  /** Digits that do not fit the buffer: 64-bit values in base 2. */
  lemma {:induction false} ManyDigitsDiffer(c: char, f: Flags, m: Marks, width: nat, prec: Option<int>, value: int)
    requires DigitCountOf(c, value) > NTOA_BUFFER_SIZE
    ensures IntegerText(c, f, width, Clipped(prec), value) != IntegerConversion(c, m, width, Effective(prec), value)
    ensures !Agrees(c, m, width, prec, value)
  {
    var eff := Effective(prec);
    NumberFacts(c, m, eff, value);
    InkStandard(c, m, width, eff, value);
    assert |Unpadded(c, m, width, eff, value)| >= |SignOf(c, m, value)| + DigitCountOf(c, value);
    TooLong(c, f, m, width, prec, value);
  }

  /** Exactly when an integer conversion prints what the standard prescribes. */
  lemma {:induction false} ConformsIff(c: char, f: Flags, m: Marks, width: nat, prec: Option<int>, value: int)
    requires IsInteger(c) && Shows(f, m, prec.Some?) && (value < 0 ==> IsSigned(c))
    ensures IntegerText(c, f, width, Clipped(prec), value) == IntegerConversion(c, m, width, Effective(prec), value)
            <==> Agrees(c, m, width, prec, value)
  {
    if DigitCountOf(c, value) > NTOA_BUFFER_SIZE {
      ManyDigitsDiffer(c, f, m, width, prec, value);
    } else if Marked(c, m, value) {
      MarkedConforms(c, f, m, width, prec, value);
    } else {
      UnmarkedConforms(c, f, m, width, prec, value);
    }
  }
}
