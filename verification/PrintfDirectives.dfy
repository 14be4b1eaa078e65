/** printf.c on a directive as written: what its parser makes of flags, width,
    precision and length, and exactly when it prints what the standard prescribes. */
module PrintfDirectives {
  import opened Options
  import opened Sequences
  import opened PrintfModel
  import opened PrintfFacts
  import opened PrintfRoundTrip
  import opened PrintfUnmarked
  import opened PrintfReference
  import opened PrintfConforms
  import opened PrintfMarked
  import opened PrintfInk

  // -------------------------------------------------------------- written text

  /** A number as written. */
  function Numeral(n: nat): Text {
    if n == 0 then "0" else DigitsOf(n, 10, false)
  }

  function AmountText(a: Amount): Text {
    match a
    case Given(n, zeros) => Repeat('0', zeros) + Numeral(n)
    case Star(_) => "*"
    case _ => ""
  }

  function PrecisionText(a: Amount): Text {
    if a.Absent? then "" else "." + AmountText(a)
  }

  function LengthText(len: LengthModifier): Text {
    match len
    case HH => "hh"
    case H => "h"
    case NoLength => ""
    case L => "l"
    case LL => "ll"
    case J => "j"
    case Z => "z"
    case T => "t"
  }

  function AfterPrecision(d: Directive): Text { LengthText(d.len) + [d.c] }

  function AfterWidth(d: Directive): Text { PrecisionText(d.prec) + AfterPrecision(d) }

  function AfterFlags(d: Directive): Text { AmountText(d.width) + AfterWidth(d) }

  /** The directive in a format string, after its %. */
  function Written(d: Directive): Text { d.flags + AfterFlags(d) }

  function StarArg(a: Amount): seq<Arg> {
    if a.Star? then [Word(a.w)] else []
  }

  /** The arguments it takes. */
  function ArgsOf(d: Directive, a: Arg): seq<Arg> {
    StarArg(d.width) + (StarArg(d.prec) + [a])
  }

  // -------------------------------------------------------------------- reading

  /** From i on the format is x and then rest. */
  predicate Continues(fmt: Text, i: nat, x: Text, rest: Text) {
    i <= |fmt| && fmt[i..] == x + rest
  }

  lemma {:induction false} Advance(fmt: Text, i: nat, x: Text, rest: Text)
    requires Continues(fmt, i, x, rest)
    ensures i + |x| <= |fmt| && fmt[i + |x|..] == rest && fmt[i..i + |x|] == x
    ensures x != "" ==> At(fmt, i) == x[0]
    ensures rest != "" ==> At(fmt, i + |x|) == rest[0]
    ensures rest == "" ==> At(fmt, i + |x|) == '\0'
  {
    assert fmt[i..][|x|..] == rest && fmt[i..][..|x|] == x;
    if rest != "" { assert fmt[i..][|x|] == rest[0]; }
  }

  function WithFlags(f: Flags, flags: Text): Flags
    decreases |flags|
  {
    if flags == "" then f else WithFlags(WithFlag(f, flags[0]), flags[1..])
  }

  lemma {:induction false} FlagsRead(fmt: Text, i: nat, flags: Text, rest: Text, f: Flags)
    requires Continues(fmt, i, flags, rest) && (forall k :: 0 <= k < |flags| ==> IsFlag(flags[k]))
    requires rest != "" && !IsFlag(rest[0])
    ensures ParseFlags(fmt, i, f) == (WithFlags(f, flags), i + |flags|)
    decreases |flags|
  {
    Advance(fmt, i, flags, rest);
    if flags != "" {
      assert fmt[i + 1..] == fmt[i..][1..] == flags[1..] + rest;
      FlagsRead(fmt, i + 1, flags[1..], rest, WithFlag(f, flags[0]));
    }
  }

  lemma FlagMeans(f: Flags, c: char)
    requires IsFlag(c)
    ensures Marking(WithFlag(f, c)) == Union(Marking(f), c == '-', c == '+', c == ' ', c == '#', c == '0')
    ensures Others(WithFlag(f, c)) == Others(f)
  {}

  /** The marks a flag value stands for. */
  function Marking(f: Flags): Marks { Marks(f.left, f.plus, f.space, f.hash, f.zeropad) }

  function Union(m: Marks, minus: bool, plus: bool, space: bool, hash: bool, zero: bool): Marks {
    Marks(m.minus || minus, m.plus || plus, m.space || space, m.hash || hash, m.zero || zero)
  }

  datatype Rest = Rest(upper: bool, precision: bool, char_: bool, short_: bool, long_: bool, longLong: bool)

  /** The flags that no flag character sets. */
  function Others(f: Flags): Rest { Rest(f.upper, f.precision, f.char_, f.short_, f.long_, f.longLong) }

  lemma InFront(c: char, t: Text)
    requires t != ""
    ensures c in t <==> c == t[0] || c in t[1..]
  {
    assert t == [t[0]] + t[1..];
  }

  lemma {:induction false} FlagsMean(f: Flags, flags: Text)
    requires forall k :: 0 <= k < |flags| ==> IsFlag(flags[k])
    ensures Marking(WithFlags(f, flags))
         == Union(Marking(f), '-' in flags, '+' in flags, ' ' in flags, '#' in flags, '0' in flags)
    ensures Others(WithFlags(f, flags)) == Others(f)
    decreases |flags|
  {
    if flags != "" {
      var g := WithFlag(f, flags[0]);
      FlagMeans(f, flags[0]);
      FlagsMean(g, flags[1..]);
      InFront('-', flags);
      InFront('+', flags);
      InFront(' ', flags);
      InFront('#', flags);
      InFront('0', flags);
    }
  }

  lemma {:induction false} NumeralFacts(n: nat)
    ensures Numeral(n) != "" && IsDigit(Numeral(n)[0]) && AllDigits(Reverse(Numeral(n)))
    ensures n > 0 ==> Numeral(n)[0] != '0'
  {
    if n > 0 {
      DigitsOfFacts(n, 10, false);
      DecimalNumeral(n);
    }
  }

  lemma {:induction false} DecimalNumeral(n: nat)
    ensures forall i :: 0 <= i < |DigitsOf(n, 10, false)| ==> IsDigit(DigitsOf(n, 10, false)[i])
  {
    if n > 0 {
      DecimalNumeral(Quotient(n, 10));
      DigitCharValue(Remainder(n, 10), false);
    }
  }

  lemma {:induction false} NumeralDenotes(n: nat)
    ensures Denoted(Reverse(Numeral(n)), 10) == n
    decreases n
  {
    if n > 0 {
      var q, c := Quotient(n, 10), DigitChar(Remainder(n, 10), false);
      DigitCharValue(Remainder(n, 10), false);
      ReverseAppend(DigitsOf(q, 10, false), c);
      DenotedCons(c, Reverse(DigitsOf(q, 10, false)), 10);
      NumeralDenotes(q);
      DivMod(n, 10);
      assert Reverse("") == "";
    } else {
      assert Reverse("0") == "0";
    }
  }

  /** A number in a format is read as what it denotes. */
  lemma {:induction false} NumberRead(fmt: Text, i: nat, n: nat, rest: Text)
    requires Continues(fmt, i, Numeral(n), rest) && n < WORD && rest != "" && !IsDigit(rest[0])
    ensures Atoi(fmt, i, 0) == (n, i + |Numeral(n)|) && IsDigit(At(fmt, i))
  {
    NumeralFacts(n);
    NumeralDenotes(n);
    ReverseTwice(Numeral(n));
    DigitTextRead(fmt, i, Numeral(n), Reverse(Numeral(n)), n, rest);
  }

  lemma Unzeroed(n: nat)
    ensures Repeat('0', 0) + Numeral(n) == Numeral(n)
  {}

  /** Zeros in front make no difference. */
  lemma {:induction false} ZerosRead(fmt: Text, i: nat, n: nat, zeros: nat, rest: Text)
    requires Continues(fmt, i, Repeat('0', zeros) + Numeral(n), rest) && n < WORD && rest != "" && !IsDigit(rest[0])
    ensures Atoi(fmt, i, 0) == (n, i + |Repeat('0', zeros) + Numeral(n)|) && IsDigit(At(fmt, i))
    decreases zeros
  {
    if zeros == 0 {
      Unzeroed(n);
      NumberRead(fmt, i, n, rest);
    } else {
      var x, less := Repeat('0', zeros) + Numeral(n), Repeat('0', zeros - 1) + Numeral(n);
      Advance(fmt, i, x, rest);
      assert x[0] == '0' && x[1..] == less;
      assert fmt[i + 1..] == fmt[i..][1..] == less + rest;
      ZerosRead(fmt, i + 1, n, zeros - 1, rest);
    }
  }

  lemma {:induction false} DigitTextRead(fmt: Text, i: nat, t: Text, rev: Text, n: nat, rest: Text)
    requires Continues(fmt, i, t, rest) && t == Reverse(rev) && n < WORD && rest != "" && !IsDigit(rest[0])
    requires rev != "" && AllDigits(rev) && Denoted(rev, 10) == n
    ensures Atoi(fmt, i, 0) == (n, i + |t|) && IsDigit(At(fmt, i))
  {
    Advance(fmt, i, t, rest);
    assert Reads(fmt, i, rev);
    assert t[0] == rev[|rev| - 1];
    DigitsRead(fmt, i, rev, n);
  }

  lemma {:induction false} DigitsRead(fmt: Text, i: nat, rev: Text, n: nat)
    requires Reads(fmt, i, rev) && AllDigits(rev) && Denoted(rev, 10) == n && n < WORD
    ensures Atoi(fmt, i, 0) == (n, i + |rev|)
  {
    AtoiReads(fmt, i, 0, rev);
    ExtendFromZero(|rev|, n);
  }

  lemma {:induction false} ExtendFromZero(k: nat, n: nat)
    requires n < WORD
    ensures Extend(0, k, n) == n
  {
    assert 0 * Pow(10, k) == 0;
  }

  /** What follows a width: neither a digit, nor a star, nor a flag. */
  predicate Ends(rest: Text) { rest != "" && !IsDigit(rest[0]) && rest[0] != '*' && !IsFlag(rest[0]) }

  function LeftIf(f: Flags, negative: bool): Flags {
    if negative then f.(left := true) else f
  }

  predicate IsNegative(a: Amount) { a.Star? && AsInt(a.w, WORD) < 0 }

  lemma {:induction false} WidthGivenRead(fmt: Text, i: nat, n: nat, j: nat, f: Flags, more: seq<Arg>)
    requires IsDigit(At(fmt, i)) && Atoi(fmt, i, 0) == (n, j)
    ensures ParseWidth(fmt, Spot(f, 0, 0, i, more)) == Some(Spot(f, n, 0, j, more))
  {}

  lemma {:induction false} WidthStarRead(fmt: Text, i: nat, w: nat, rest: Text, f: Flags, more: seq<Arg>)
    requires Continues(fmt, i, "*", rest) && w < WORD
    ensures ParseWidth(fmt, Spot(f, 0, 0, i, [Word(w)] + more)) ==
            if w == 0x8000_0000 then None
            else Some(Spot(LeftIf(f, AsInt(w, WORD) < 0), Abs(AsInt(w, WORD)), 0, i + 1, more))
  {
    Advance(fmt, i, "*", rest);
    var s := Spot(f, 0, 0, i, [Word(w)] + more);
    assert s.args[0] == Word(w) && s.args[1..] == more;
  }

  /** What the parser makes of a width: a negative argument stands for - and a
      width; one that cannot be negated is not defined. */
  lemma {:induction false} WidthRead(fmt: Text, i: nat, width: Amount, rest: Text, f: Flags, more: seq<Arg>)
    requires Continues(fmt, i, AmountText(width), rest) && Ends(rest)
    requires !width.Empty? && (width.Given? ==> width.n < WORD) && (width.Star? ==> width.w < WORD)
    ensures ParseWidth(fmt, Spot(f, 0, 0, i, StarArg(width) + more)) ==
            if width == Star(0x8000_0000) then None
            else Some(Spot(LeftIf(f, IsNegative(width)), WidthOf(width), 0, i + |AmountText(width)|, more))
  {
    Emptys(more);
    match width
    case Given(n, zeros) =>
      ZerosRead(fmt, i, n, zeros, rest);
      WidthGivenRead(fmt, i, n, i + |AmountText(width)|, f, more);
    case Star(w) => WidthStarRead(fmt, i, w, rest, f, more);
    case _ => Advance(fmt, i, "", rest);
  }

  lemma {:induction false} AfterPeriod(fmt: Text, i: nat, x: Text, rest: Text)
    requires Continues(fmt, i, "." + x, rest)
    ensures At(fmt, i) == '.' && Continues(fmt, i + 1, x, rest)
  {
    Advance(fmt, i, "." + x, rest);
    assert fmt[i + 1..] == fmt[i..][1..];
    assert ("." + x + rest)[1..] == x + rest;
  }

  /** The spot after a precision. */
  function Precise(s: Spot, prec: nat, i: nat, args: seq<Arg>): Spot {
    Spot(s.f.(precision := true), s.width, prec, i, args)
  }

  lemma {:induction false} PrecisionGivenRead(fmt: Text, s: Spot, n: nat, j: nat)
    requires At(fmt, s.i) == '.' && IsDigit(At(fmt, s.i + 1)) && Atoi(fmt, s.i + 1, 0) == (n, j)
    ensures ParsePrecision(fmt, s) == Some(Precise(s, n, j, s.args))
  {}

  lemma {:induction false} PrecisionEmptyRead(fmt: Text, s: Spot)
    requires At(fmt, s.i) == '.' && !IsDigit(At(fmt, s.i + 1)) && At(fmt, s.i + 1) != '*' && s.prec == 0
    ensures ParsePrecision(fmt, s) == Some(Precise(s, 0, s.i + 1, s.args))
  {}

  lemma {:induction false} PrecisionStarRead(fmt: Text, s: Spot, w: nat, rest: Text, more: seq<Arg>)
    requires At(fmt, s.i) == '.' && Continues(fmt, s.i + 1, "*", rest) && w < WORD
    requires s.args == [Word(w)] + more
    ensures ParsePrecision(fmt, s) == Some(Precise(s, Clipped(Some(AsInt(w, WORD))), s.i + 2, more))
  {
    Advance(fmt, s.i + 1, "*", rest);
    assert s.args[0] == Word(w) && s.args[1..] == more;
  }

  lemma {:induction false} PrecisionAbsentRead(fmt: Text, s: Spot)
    requires At(fmt, s.i) != '.'
    ensures ParsePrecision(fmt, s) == Some(s)
  {}

  /** Where the parser stands after a precision. */
  function AfterPrecisionOf(s: Spot, prec: Amount, more: seq<Arg>): Spot {
    if prec.Absent? then s else Precise(s, Clipped(PrecisionOf(prec)), s.i + |PrecisionText(prec)|, more)
  }

  lemma {:induction false} PrecisionGivenAfter(fmt: Text, s: Spot, n: nat, zeros: nat, rest: Text)
    requires At(fmt, s.i) == '.' && Continues(fmt, s.i + 1, Repeat('0', zeros) + Numeral(n), rest) && Ends(rest)
    requires n < WORD
    ensures ParsePrecision(fmt, s) == Some(AfterPrecisionOf(s, Given(n, zeros), s.args))
  {
    var j := s.i + 1 + |Repeat('0', zeros) + Numeral(n)|;
    ZerosRead(fmt, s.i + 1, n, zeros, rest);
    PrecisionGivenRead(fmt, s, n, j);
    assert AfterPrecisionOf(s, Given(n, zeros), s.args) == Precise(s, n, j, s.args);
  }

  /** What it makes of a precision: a negative argument counts as zero. */
  lemma {:induction false} PrecisionRead(fmt: Text, s: Spot, prec: Amount, rest: Text, more: seq<Arg>)
    requires Continues(fmt, s.i, PrecisionText(prec), rest) && Ends(rest) && rest[0] != '.'
    requires (prec.Given? ==> prec.n < WORD) && (prec.Star? ==> prec.w < WORD)
    requires s.args == StarArg(prec) + more && s.prec == 0
    ensures ParsePrecision(fmt, s) == Some(AfterPrecisionOf(s, prec, more))
  {
    if prec.Absent? {
      Emptys(more);
      Advance(fmt, s.i, "", rest);
      PrecisionAbsentRead(fmt, s);
    } else {
      AfterPeriod(fmt, s.i, AmountText(prec), rest);
      if prec.Star? {
        PrecisionStarRead(fmt, s, prec.w, rest, more);
      } else {
        Emptys(more);
        if prec.Given? {
          PrecisionGivenAfter(fmt, s, prec.n, prec.zeros, rest);
        } else {
          Advance(fmt, s.i + 1, "", rest);
          PrecisionEmptyRead(fmt, s);
        }
      }
    }
  }

  /** The flags after a length modifier. */
  function WithLength(f: Flags, len: LengthModifier): Flags {
    f.(short_ := f.short_ || len == HH || len == H, char_ := f.char_ || len == HH,
       long_ := f.long_ || len == L || len == LL || len == Z || len == T, longLong := f.longLong || TakesWide(len))
  }

  /** A conversion character that cannot be taken for part of the directive. */
  predicate Converts(c: char) { IsInteger(c) || c == 's' || c == 'c' || c == 'p' }

  /** The two characters ahead show the length modifier. */
  predicate Ahead(len: LengthModifier, first: char, second: char) {
    match len
    case HH => first == 'h' && second == 'h'
    case H => first == 'h' && second != 'h'
    case NoLength => first !in "lhtzj"
    case L => first == 'l' && second != 'l'
    case LL => first == 'l' && second == 'l'
    case J => first == 'j'
    case Z => first == 'z'
    case T => first == 't'
  }

  lemma {:induction false} LengthFrom(fmt: Text, s: Spot, len: LengthModifier)
    requires Ahead(len, At(fmt, s.i), At(fmt, s.i + 1))
    ensures ParseLength(fmt, s) == Spot(WithLength(s.f, len), s.width, s.prec, s.i + |LengthText(len)|, s.args)
  {}

  lemma {:induction false} LengthRead(fmt: Text, s: Spot, len: LengthModifier, c: char)
    requires Continues(fmt, s.i, LengthText(len), [c]) && Converts(c)
    ensures ParseLength(fmt, s) == Spot(WithLength(s.f, len), s.width, s.prec, s.i + |LengthText(len)|, s.args)
  {
    var rest := LengthText(len) + [c];
    assert At(fmt, s.i) == rest[0];
    if |rest| > 1 { assert At(fmt, s.i + 1) == fmt[s.i..][1] == rest[1]; }
    LengthFrom(fmt, s, len);
  }

  lemma LengthKeeps(f: Flags, len: LengthModifier)
    ensures Marking(WithLength(f, len)) == Marking(f)
    ensures WithLength(f, len).upper == f.upper && WithLength(f, len).precision == f.precision
  {}

  lemma EndsAfter(d: Directive)
    requires Converts(d.c)
    ensures Ends(AfterPrecision(d)) && AfterPrecision(d)[0] != '.' && Ends(AfterWidth(d))
  {
    if d.prec.Absent? { Emptys(AfterPrecision(d)); }
  }

  lemma StartsAfter(d: Directive)
    requires ValidDirective(d) && Converts(d.c)
    ensures AfterFlags(d) != "" && !IsFlag(AfterFlags(d)[0])
  {
    EndsAfter(d);
    match d.width
    case Given(n, _) =>
      NumeralFacts(n);
      Emptys(Numeral(n));
    case Star(_) =>
    case _ => Emptys(AfterWidth(d));
  }

  // ----------------------------------------------------------- a whole directive

  function FlagsBefore(d: Directive): Flags {
    LeftIf(WithFlags(NO_FLAGS, d.flags), IsNegative(d.width))
  }

  /** Where the parser stands when it comes to the conversion. */
  function SpotOf(d: Directive, a: Arg): Spot {
    Spot(WithLength(PrecisionIf(FlagsBefore(d), !d.prec.Absent?), d.len), WidthOf(d.width),
         Clipped(PrecisionOf(d.prec)), |Written(d)|, [a])
  }

  function FormatOf(d: Directive): Text { "%" + Written(d) }

  /** Where the parser stands after the width. */
  function AfterWidthOf(d: Directive, a: Arg): Spot {
    Spot(FlagsBefore(d), WidthOf(d.width), 0, 1 + |d.flags| + |AmountText(d.width)|, StarArg(d.prec) + [a])
  }

  lemma {:induction false} FlagsParsed(d: Directive)
    requires ValidDirective(d) && Converts(d.c)
    ensures var fmt, i := FormatOf(d), 1 + |d.flags|;
            && ParseFlags(fmt, 1, NO_FLAGS) == (WithFlags(NO_FLAGS, d.flags), i)
            && Continues(fmt, i, AmountText(d.width), AfterWidth(d))
  {
    var fmt := FormatOf(d);
    assert fmt[1..] == Written(d);
    StartsAfter(d);
    FlagsRead(fmt, 1, d.flags, AfterFlags(d), NO_FLAGS);
    Advance(fmt, 1, d.flags, AfterFlags(d));
  }

  /** The width, read where it stands. */
  lemma {:induction false} WidthStep(fmt: Text, i: nat, d: Directive, f: Flags, more: seq<Arg>)
    requires ValidDirective(d) && Converts(d.c) && Continues(fmt, i, AmountText(d.width), AfterWidth(d))
    ensures Continues(fmt, i + |AmountText(d.width)|, PrecisionText(d.prec), AfterPrecision(d))
    ensures ParseWidth(fmt, Spot(f, 0, 0, i, StarArg(d.width) + more)) ==
            if d.width == Star(0x8000_0000) then None
            else Some(Spot(LeftIf(f, IsNegative(d.width)), WidthOf(d.width), 0, i + |AmountText(d.width)|, more))
  {
    EndsAfter(d);
    WidthRead(fmt, i, d.width, AfterWidth(d), f, more);
    Advance(fmt, i, AmountText(d.width), AfterWidth(d));
  }

  lemma {:induction false} WidthParsed(d: Directive, a: Arg)
    requires ValidDirective(d) && Converts(d.c)
    ensures var fmt, i := FormatOf(d), 1 + |d.flags|;
            && ParseFlags(fmt, 1, NO_FLAGS) == (WithFlags(NO_FLAGS, d.flags), i)
            && Continues(fmt, AfterWidthOf(d, a).i, PrecisionText(d.prec), AfterPrecision(d))
            && ParseWidth(fmt, Spot(WithFlags(NO_FLAGS, d.flags), 0, 0, i, ArgsOf(d, a))) ==
               if d.width == Star(0x8000_0000) then None else Some(AfterWidthOf(d, a))
  {
    FlagsParsed(d);
    WidthStep(FormatOf(d), 1 + |d.flags|, d, WithFlags(NO_FLAGS, d.flags), StarArg(d.prec) + [a]);
  }

  lemma {:induction false} PrecisionParsed(fmt: Text, s: Spot, d: Directive, a: Arg)
    requires ValidDirective(d) && Converts(d.c) && s.args == StarArg(d.prec) + [a] && s.prec == 0
    requires Continues(fmt, s.i, PrecisionText(d.prec), AfterPrecision(d))
    ensures var s2 := AfterPrecisionOf(s, d.prec, [a]);
            && ParsePrecision(fmt, s) == Some(s2) && s2.args == [a]
            && s2.i == s.i + |PrecisionText(d.prec)| && Continues(fmt, s2.i, LengthText(d.len), [d.c])
  {
    EndsAfter(d);
    PrecisionRead(fmt, s, d.prec, AfterPrecision(d), [a]);
    Advance(fmt, s.i, PrecisionText(d.prec), AfterPrecision(d));
    Emptys([a]);
  }

  function PrecisionIf(f: Flags, given: bool): Flags {
    if given then f.(precision := true) else f
  }

  lemma AfterPrecisionFields(s: Spot, prec: Amount, more: seq<Arg>)
    requires prec.Absent? ==> s.args == more && s.prec == 0
    ensures AfterPrecisionOf(s, prec, more)
         == Spot(PrecisionIf(s.f, !prec.Absent?), s.width, Clipped(PrecisionOf(prec)), s.i + |PrecisionText(prec)|,
                 more)
  {}

  lemma ParsedFrom(fmt: Text, i: nat, args: seq<Arg>, f: Flags, j: nat, s1: Spot, s2: Spot)
    requires ParseFlags(fmt, i, NO_FLAGS) == (f, j) && ParseWidth(fmt, Spot(f, 0, 0, j, args)) == Some(s1)
    requires ParsePrecision(fmt, s1) == Some(s2)
    ensures Parsed(fmt, i, args) == Some(ParseLength(fmt, s2))
  {}

  lemma WrittenLength(d: Directive)
    ensures |Written(d)|
         == |d.flags| + |AmountText(d.width)| + |PrecisionText(d.prec)| + |LengthText(d.len)| + 1
  {}

  /** Flags, width and precision are read as meant. */
  lemma {:induction false} FieldsRead(d: Directive, a: Arg)
    requires ValidDirective(d) && Converts(d.c) && d.width != Star(0x8000_0000)
    ensures var fmt, s2 := FormatOf(d), AfterPrecisionOf(AfterWidthOf(d, a), d.prec, [a]);
            && Parsed(fmt, 1, ArgsOf(d, a)) == Some(ParseLength(fmt, s2))
            && Continues(fmt, s2.i, LengthText(d.len), [d.c])
  {
    var fmt, s1 := FormatOf(d), AfterWidthOf(d, a);
    WidthParsed(d, a);
    PrecisionParsed(fmt, s1, d, a);
    ParsedFrom(fmt, 1, ArgsOf(d, a), WithFlags(NO_FLAGS, d.flags), 1 + |d.flags|, s1,
               AfterPrecisionOf(s1, d.prec, [a]));
  }

  lemma {:induction false} SpotAfter(d: Directive, a: Arg)
    ensures var s2 := AfterPrecisionOf(AfterWidthOf(d, a), d.prec, [a]);
            SpotOf(d, a) == Spot(WithLength(s2.f, d.len), s2.width, s2.prec, s2.i + |LengthText(d.len)|, s2.args)
  {
    Emptys([a]);
    AfterPrecisionFields(AfterWidthOf(d, a), d.prec, [a]);
    WrittenLength(d);
  }

  lemma {:induction false} LengthParsed(d: Directive, a: Arg)
    requires Converts(d.c)
    requires Continues(FormatOf(d), AfterPrecisionOf(AfterWidthOf(d, a), d.prec, [a]).i, LengthText(d.len), [d.c])
    ensures ParseLength(FormatOf(d), AfterPrecisionOf(AfterWidthOf(d, a), d.prec, [a])) == SpotOf(d, a)
  {
    var s2 := AfterPrecisionOf(AfterWidthOf(d, a), d.prec, [a]);
    SpotAfter(d, a);
    LengthRead(FormatOf(d), s2, d.len, d.c);
  }

  /** The parser reads a directive as it is meant. */
  lemma {:induction false} DirectiveRead(d: Directive, a: Arg)
    requires ValidDirective(d) && Converts(d.c)
    ensures Parsed(FormatOf(d), 1, ArgsOf(d, a)) == if d.width == Star(0x8000_0000) then None else Some(SpotOf(d, a))
  {
    if d.width == Star(0x8000_0000) {
      WidthParsed(d, a);
      UndefinedWidth(FormatOf(d), 1, ArgsOf(d, a), WithFlags(NO_FLAGS, d.flags), 1 + |d.flags|);
    } else {
      FieldsRead(d, a);
      LengthParsed(d, a);
    }
  }

  lemma WrittenEnds(d: Directive)
    ensures FormatOf(d)[|FormatOf(d)| - 1] == d.c
  {
    assert AfterPrecision(d)[|AfterPrecision(d)| - 1] == d.c;
    assert AfterWidth(d)[|AfterWidth(d)| - 1] == d.c;
    assert AfterFlags(d)[|AfterFlags(d)| - 1] == d.c;
  }

  lemma UndefinedWidth(fmt: Text, i: nat, args: seq<Arg>, f: Flags, j: nat)
    requires ParseFlags(fmt, i, NO_FLAGS) == (f, j) && ParseWidth(fmt, Spot(f, 0, 0, j, args)) == None
    ensures Parsed(fmt, i, args) == None
  {}

  lemma LeftIfMeans(f: Flags, negative: bool)
    ensures Marking(LeftIf(f, negative)) == Union(Marking(f), negative, false, false, false, false)
    ensures Others(LeftIf(f, negative)) == Others(f)
  {}

  lemma PrecisionIfMeans(f: Flags, given: bool)
    ensures Marking(PrecisionIf(f, given)) == Marking(f)
    ensures PrecisionIf(f, given).precision == (f.precision || given) && PrecisionIf(f, given).upper == f.upper
  {}

  /** The flags before the precision are those in force. */
  lemma {:induction false} BeforeShows(d: Directive)
    requires ValidDirective(d)
    ensures var f := FlagsBefore(d);
            Marking(f) == MarksOf(d) && !f.upper && !f.precision
  {
    var f := WithFlags(NO_FLAGS, d.flags);
    FlagsMean(NO_FLAGS, d.flags);
    LeftIfMeans(f, IsNegative(d.width));
    assert Others(f) == Others(NO_FLAGS);
  }

  lemma {:induction false} AfterShows(f: Flags, given: bool, len: LengthModifier)
    requires !f.upper && !f.precision
    ensures Shows(WithLength(PrecisionIf(f, given), len), Marking(f), given)
  {
    var g := PrecisionIf(f, given);
    PrecisionIfMeans(f, given);
    LengthKeeps(g, len);
    var h := WithLength(g, len);
    assert Marking(h) == Marking(f);
  }

  /** The flags are those in force. */
  lemma {:induction false} FlagsShow(d: Directive, a: Arg)
    requires ValidDirective(d)
    ensures Shows(SpotOf(d, a).f, MarksOf(d), PrecisionOf(d.prec).Some?)
  {
    BeforeShows(d);
    AfterShows(FlagsBefore(d), !d.prec.Absent?, d.len);
  }

  // ---------------------------------------------------------------------- values

  /** The payload of an integer argument. */
  function RawOf(a: Arg): nat {
    match a case Word(w) => w case Wide(ww) => ww case Str(_) => 0
  }

  /** An argument of the size the length modifier names. */
  predicate Fitting(d: Directive, a: Arg) {
    ValidArg(a) && if TakesWide(d.len) then a.Wide? else a.Word?
  }

  /** The most negative value, which the code cannot negate. */
  predicate CannotNegate(d: Directive, raw: nat) {
    IsSigned(d.c) && d.len != HH && d.len != H && 2 * raw == Range(d.len)
  }

  /** hh with d or i: the code takes the value for unsigned. */
  predicate SignMissed(d: Directive, raw: nat) {
    IsSigned(d.c) && d.len == HH && raw % 0x100 >= 0x80
  }

  lemma WithLengthIs(f: Flags, len: LengthModifier)
    requires !f.longLong && !f.long_ && !f.short_ && !f.char_
    ensures WithLength(f, len).longLong == TakesWide(len)
    ensures WithLength(f, len).char_ == (len == HH)
    ensures WithLength(f, len).short_ == (len == HH || len == H)
    ensures WithLength(f, len).long_ <==> len == L || len == LL || len == Z || len == T
  {}

  lemma PrecisionIfKeeps(f: Flags, given: bool)
    ensures Others(PrecisionIf(f, given)) == Others(f).(precision := f.precision || given)
  {}

  lemma {:induction false} SpotLength(d: Directive, a: Arg)
    requires ValidDirective(d)
    ensures var g, len := SpotOf(d, a).f, d.len;
            && g.longLong == TakesWide(len) && g.char_ == (len == HH) && g.short_ == (len == HH || len == H)
            && (g.long_ <==> len == L || len == LL || len == Z || len == T)
  {
    FlagsMean(NO_FLAGS, d.flags);
    LeftIfMeans(WithFlags(NO_FLAGS, d.flags), IsNegative(d.width));
    var f := PrecisionIf(FlagsBefore(d), !d.prec.Absent?);
    PrecisionIfKeeps(FlagsBefore(d), !d.prec.Absent?);
    WithLengthIs(f, d.len);
  }

  /** The value the code takes is the standard's, but for hh with a sign. */
  lemma {:induction false} ValueRead(d: Directive, a: Arg, f: Flags)
    requires Fitting(d, a) && IsInteger(d.c)
    requires f.longLong == TakesWide(d.len) && f.char_ == (d.len == HH) && f.short_ == (d.len == HH || d.len == H)
    requires f.long_ <==> d.len == L || d.len == LL || d.len == Z || d.len == T
    ensures IntegerValue(d.c, f, a) ==
            if CannotNegate(d, RawOf(a)) then None
            else if SignMissed(d, RawOf(a)) then Some(RawOf(a) % 0x100)
            else Some(ValueOf(d.c, d.len, RawOf(a)))
  {
    var raw := RawOf(a);
    if d.len != HH && d.len != H { assert raw % Range(d.len) == raw; }
  }

  // -------------------------------------------------------------------- theorem

  /** Exactly when the code prints an integer directive as prescribed: the width
      and the value can be negated, no sign is missed, and Agrees holds. */
  predicate PrintedAsPrescribed(d: Directive, raw: nat) {
    && d.width != Star(0x8000_0000) && !CannotNegate(d, raw) && !SignMissed(d, raw)
    && Agrees(d.c, MarksOf(d), WidthOf(d.width), PrecisionOf(d.prec), ValueOf(d.c, d.len, raw))
  }

  /** What the code prints for a single directive. */
  lemma {:induction false} RenderOne(d: Directive, a: Arg)
    requires ValidDirective(d) && Converts(d.c)
    ensures Render(FormatOf(d), 0, ArgsOf(d, a)) ==
            if d.width == Star(0x8000_0000) then None
            else match Convert(d.c, SpotOf(d, a)) case None => None case Some(r) => Some(r.0)
  {
    var fmt := FormatOf(d);
    DirectiveRead(d, a);
    WrittenEnds(d);
    RenderFrom(fmt, ArgsOf(d, a));
  }

  lemma {:induction false} RenderFrom(fmt: Text, args: seq<Arg>)
    requires fmt != "" && fmt[0] == '%'
    requires var p := Parsed(fmt, 1, args); p.Some? ==> p.value.i == |fmt| - 1
    ensures Render(fmt, 0, args) ==
            match Parsed(fmt, 1, args)
            case None => None
            case Some(s) => match Convert(fmt[|fmt| - 1], s) case None => None case Some(r) => Some(r.0)
  {
    var d := PrintfModel.Directive(fmt, 1, args);
    if d.Some? {
      assert Render(fmt, |fmt|, d.value.2) == Some("");
      Emptys(d.value.0);
    }
  }

  lemma ConvertInteger(c: char, s: Spot, a: Arg)
    requires IsInteger(c) && s.args == [a]
    ensures Convert(c, s) == match IntegerValue(c, s.f, a)
                             case None => None
                             case Some(v) => Some((IntegerText(c, s.f, s.width, s.prec, v), []))
  {
    assert s.args[1..] == [];
  }

  predicate NoDash(t: Text) { '-' !in t }

  /** Without a negative value the code prints no dash. */
  lemma {:induction false} NumberHasNoDash(v: nat, prec: nat, width: nat, f: Flags)
    requires !f.hash
    ensures NoDash(Number(v, false, 10, prec, width, f))
  {
    NumberPlain(v, false, 10, prec, width, f);
    var g := f.(hash := false);
    var rev := Digits(v, 10, g);
    DigitsAreNoSigns(v, 10, g.upper, NTOA_BUFFER_SIZE);
    assert NoDash(Zeroed(rev, false, prec, width, g));
    BodyIs(rev, false, 10, prec, width, g, Zeroed(rev, false, prec, width, g));
    FieldHasNoDash(Body(rev, false, 10, prec, width, g), NarrowedWidth(false, width, g), g);
  }

  lemma FieldHasNoDash(rev: Text, width: nat, f: Flags)
    requires NoDash(rev)
    ensures NoDash(Field(rev, width, f))
  {
    assert NoDash(Reverse(rev)) && NoDash(Spaces(width, |rev|));
  }

  lemma StandardHasDash(c: char, m: Marks, width: nat, prec: Option<nat>, value: int)
    requires IsSigned(c) && value < 0
    ensures '-' in IntegerConversion(c, m, width, prec, value)
  {
    var t := Unpadded(c, m, width, prec, value);
    assert t[0] == '-';
    assert t[0] in Justified(t, m, width);
  }

  /** A sign that is missed: the standard prints a dash, the code does not. */
  lemma {:induction false} DashMissing(c: char, f: Flags, m: Marks, width: nat, prec: Option<int>, taken: nat,
                                       value: int)
    requires IsSigned(c) && value < 0 && Shows(f, m, prec.Some?)
    ensures IntegerText(c, f, width, Clipped(prec), taken) != IntegerConversion(c, m, width, Effective(prec), value)
  {
    IntegerFlagsAre(c, f, m, prec.Some?);
    NumberHasNoDash(taken, Clipped(prec), width, IntegerFlags(c, f));
    StandardHasDash(c, m, width, Effective(prec), value);
  }

  /** What the code prints for an integer directive. */
  lemma {:induction false} RenderInteger(d: Directive, a: Arg)
    requires ValidDirective(d) && IsInteger(d.c) && Fitting(d, a)
    ensures Render(FormatOf(d), 0, ArgsOf(d, a)) ==
            if d.width == Star(0x8000_0000) || CannotNegate(d, RawOf(a)) then None
            else Some(IntegerText(d.c, SpotOf(d, a).f, WidthOf(d.width), Clipped(PrecisionOf(d.prec)),
                                  if SignMissed(d, RawOf(a)) then RawOf(a) % 0x100 else ValueOf(d.c, d.len, RawOf(a))))
  {
    RenderOne(d, a);
    if d.width != Star(0x8000_0000) {
      ConvertInteger(d.c, SpotOf(d, a), a);
      SpotLength(d, a);
      ValueRead(d, a, SpotOf(d, a).f);
    }
  }

  /** A directive whose meaning and text are known. */
  lemma {:induction false} RenderAs(d: Directive, a: Arg, m: Marks, width: nat, prec: Option<int>, value: int, t: Text)
    requires ValidDirective(d) && IsInteger(d.c) && Fitting(d, a) && d.width != Star(0x8000_0000)
    requires !CannotNegate(d, RawOf(a)) && !SignMissed(d, RawOf(a))
    requires MarksOf(d) == m && WidthOf(d.width) == width && PrecisionOf(d.prec) == prec
    requires ValueOf(d.c, d.len, RawOf(a)) == value
    requires forall f | Shows(f, m, prec.Some?) :: IntegerText(d.c, f, width, Clipped(prec), value) == t
    ensures Render(FormatOf(d), 0, ArgsOf(d, a)) == Some(t)
  {
    FlagsShow(d, a);
    RenderInteger(d, a);
  }

  /** The characters of an integer directive are those the standard prescribes
      exactly under that condition. */
  lemma {:induction false} DirectiveConformsIff(d: Directive, a: Arg)
    requires ValidDirective(d) && IsInteger(d.c) && Fitting(d, a)
    ensures Render(FormatOf(d), 0, ArgsOf(d, a)) == Some(StandardInteger(d, RawOf(a)))
            <==> PrintedAsPrescribed(d, RawOf(a))
  {
    var f, m, value := SpotOf(d, a).f, MarksOf(d), ValueOf(d.c, d.len, RawOf(a));
    RenderInteger(d, a);
    FlagsShow(d, a);
    if SignMissed(d, RawOf(a)) {
      DashMissing(d.c, f, m, WidthOf(d.width), PrecisionOf(d.prec), RawOf(a) % 0x100, value);
    } else {
      ConformsIff(d.c, f, m, WidthOf(d.width), PrecisionOf(d.prec), value);
    }
  }

  // ---------------------------------------------------------- ordinary directives

  lemma {:induction false} DigitsOfCount(v: nat, base: nat, upper: bool, k: nat)
    requires 2 <= base <= 16 && v < Pow(base, k)
    ensures |DigitsOf(v, base, upper)| <= k
    decreases k
  {
    if v > 0 {
      assert Pow(base, 0) == 1;
      QuotientBelow(v, base, Pow(base, k - 1));
      QuotientSmaller(v, base);
      DigitsOfCount(Quotient(v, base), base, upper, k - 1);
    }
  }

  /** No %b, no #, no negative precision, no precision beside -; a precision below
      the size of the conversion buffer, and a width no larger than it where zeros
      fill it; a 32-bit type but not signed hh. */
  predicate Ordinary(d: Directive) {
    var m, prec := MarksOf(d), PrecisionOf(d.prec);
    && d.c != 'b' && !m.hash && !TakesWide(d.len) && !(d.len == HH && IsSigned(d.c))
    && (prec.Some? ==> !m.minus && 0 <= prec.value < NTOA_BUFFER_SIZE)
    && (m.zero ==> WidthOf(d.width) <= NTOA_BUFFER_SIZE)
  }

  lemma {:induction false} ShortLayout(c: char, m: Marks, width: nat, prec: Option<nat>, value: int)
    requires !m.hash && DigitCountOf(c, value) < NTOA_BUFFER_SIZE
    requires (m.zero ==> width <= NTOA_BUFFER_SIZE) && (prec.Some? ==> prec.value < NTOA_BUFFER_SIZE)
    ensures |Unpadded(c, m, width, prec, value)| <= NTOA_BUFFER_SIZE
  {}

  lemma {:induction false} ShortAgrees(c: char, m: Marks, width: nat, prec: Option<int>, value: int)
    requires !m.hash && DigitCountOf(c, value) < NTOA_BUFFER_SIZE
    requires prec.Some? ==> !m.minus && 0 <= prec.value < NTOA_BUFFER_SIZE
    requires m.zero ==> width <= NTOA_BUFFER_SIZE
    ensures Agrees(c, m, width, prec, value)
  {
    ShortLayout(c, m, width, Effective(prec), value);
  }

  /** Every ordinary directive prints every value as prescribed, but for the most
      negative one, which it cannot negate. */
  lemma {:induction false} OrdinaryConforms(d: Directive, a: Arg)
    requires ValidDirective(d) && IsInteger(d.c) && Fitting(d, a) && Ordinary(d)
    requires d.width != Star(0x8000_0000) && !CannotNegate(d, RawOf(a))
    ensures Render(FormatOf(d), 0, ArgsOf(d, a)) == Some(StandardInteger(d, RawOf(a)))
  {
    var value := ValueOf(d.c, d.len, RawOf(a));
    assert Abs(value) < WORD;
    WordsAreShort(Abs(value), Base(d.c));
    DigitsOfCount(Abs(value), Base(d.c), d.c == 'X', NTOA_BUFFER_SIZE - 1);
    ShortAgrees(d.c, MarksOf(d), WidthOf(d.width), PrecisionOf(d.prec), value);
    DirectiveConformsIff(d, a);
  }
}
