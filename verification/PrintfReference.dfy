/** The integer and string conversions of section 7.21.6.1 of ISO/IEC 9899:2011,
    from a directive as it is written and the argument as it is passed; none of
    the parsing or formatting of printf.c is used.  The base 2 conversion, an
    extension, is given the # marker 0b. */
module PrintfReference {
  import opened Options
  import opened Numbers
  import opened PrintfModel
  import opened PrintfFacts

  // ----------------------------------------------------------------- directives

  datatype LengthModifier = HH | H | NoLength | L | LL | J | Z | T

  /** A width or a precision as written: a number, with so many zeros before it,
      or a star, which comes with the word passed.  In front of a width zeros are
      flags. */
  datatype Amount = Absent | Empty | Given(n: nat, zeros: nat) | Star(w: nat)

  /** % flags width precision length conversion */
  datatype Directive = Directive(flags: Text, width: Amount, prec: Amount, len: LengthModifier, c: char)

  predicate ValidDirective(d: Directive) {
    && (forall i :: 0 <= i < |d.flags| ==> IsFlag(d.flags[i]))
    && !d.width.Empty? && (d.width.Given? ==> 0 < d.width.n < WORD && d.width.zeros == 0)
    && (d.width.Star? ==> d.width.w < WORD)
    && (d.prec.Given? ==> d.prec.n < WORD) && (d.prec.Star? ==> d.prec.w < WORD)
  }

  /** The flags in force; a negative width argument stands for - and a width. */
  datatype Marks = Marks(minus: bool, plus: bool, space: bool, hash: bool, zero: bool)

  function MarksOf(d: Directive): Marks {
    Marks('-' in d.flags || (d.width.Star? && AsInt(d.width.w, WORD) < 0),
          '+' in d.flags, ' ' in d.flags, '#' in d.flags, '0' in d.flags)
  }

  function WidthOf(a: Amount): nat {
    match a
    case Given(n, _) => n
    case Star(w) => Abs(AsInt(w, WORD))
    case _ => 0
  }

  /** The precision as written, if any: a lone period means zero. */
  function PrecisionOf(a: Amount): Option<int> {
    match a
    case Absent => None
    case Empty => Some(0)
    case Given(n, _) => Some(n)
    case Star(w) => Some(AsInt(w, WORD))
  }

  /** A negative precision is taken as if it were omitted. */
  function Effective(p: Option<int>): Option<nat> {
    match p
    case None => None
    case Some(n) => if n < 0 then None else Some(n)
  }

  // --------------------------------------------------------------------- values

  /** The range of the type a length modifier names. */
  function Range(len: LengthModifier): nat {
    match len
    case HH => 0x100
    case H => 0x1_0000
    case LL => WIDE
    case J => WIDE
    case _ => WORD
  }

  predicate TakesWide(len: LengthModifier) { len == LL || len == J }

  /** The argument, converted to the type the directive names. */
  function ValueOf(c: char, len: LengthModifier, raw: nat): int {
    var r := raw % Range(len);
    if IsSigned(c) then AsInt(r, Range(len)) else r
  }

  // ----------------------------------------------------------------------- text

  lemma QuotientSmaller(v: nat, base: nat)
    requires 2 <= base && 0 < v
    ensures Quotient(v, base) < v
  {
    DivMod(v, base);
    MulStep(v / base, 1, base);
  }

  /** The digits of a value, the most significant first; none for zero. */
  function DigitsOf(v: nat, base: nat, upper: bool): Text
    requires 2 <= base <= 16
    decreases v
  {
    if v == 0 then ""
    else
      QuotientSmaller(v, base);
      DigitsOf(Quotient(v, base), base, upper) + [DigitChar(Remainder(v, base), upper)]
  }

  function SignOf(c: char, m: Marks, value: int): Text {
    if !IsSigned(c) then ""
    else if value < 0 then "-"
    else if m.plus then "+"
    else if m.space then " "
    else ""
  }

  /** # puts 0x, 0X or 0b before a value that is not zero. */
  function MarkOf(c: char, m: Marks, value: int): Text {
    if !m.hash || value == 0 then ""
    else if c == 'x' then "0x" else if c == 'X' then "0X" else if c == 'b' then "0b" else ""
  }

  function Least(prec: Option<nat>): nat {
    match prec case None => 1 case Some(p) => p
  }

  /** At least as many digits as the precision, by default one; # makes the first
      octal digit a zero. */
  function NumberOf(c: char, m: Marks, prec: Option<nat>, value: int): Text {
    var digits := DigitsOf(Abs(value), Base(c), c == 'X');
    var least := Least(prec);
    var number := if |digits| < least then Repeat('0', least - |digits|) + digits else digits;
    if m.hash && c == 'o' && (number == "" || number[0] != '0') then "0" + number else number
  }

  /** The zeros the 0 flag puts in front of the number, after sign and marker. */
  function Filling(m: Marks, width: nat, prec: Option<nat>, length: nat): nat {
    if m.zero && !m.minus && prec == None && length < width then width - length else 0
  }

  /** An integer conversion before it is padded with blanks. */
  function Unpadded(c: char, m: Marks, width: nat, prec: Option<nat>, value: int): Text {
    var front, number := SignOf(c, m, value) + MarkOf(c, m, value), NumberOf(c, m, prec, value);
    front + Repeat('0', Filling(m, width, prec, |front| + |number|)) + number
  }

  function Justified(t: Text, m: Marks, width: nat): Text {
    if m.minus then t + Spaces(width, |t|) else Spaces(width, |t|) + t
  }

  function IntegerConversion(c: char, m: Marks, width: nat, prec: Option<nat>, value: int): Text {
    Justified(Unpadded(c, m, width, prec, value), m, width)
  }

  function StringConversion(s: Text, m: Marks, width: nat, prec: Option<nat>): Text {
    Justified(match prec case None => s case Some(p) => s[..Min(|s|, p)], m, width)
  }

  /** What an integer directive prints for an argument. */
  function StandardInteger(d: Directive, raw: nat): Text {
    IntegerConversion(d.c, MarksOf(d), WidthOf(d.width), Effective(PrecisionOf(d.prec)), ValueOf(d.c, d.len, raw))
  }

  /** What a string directive prints. */
  function StandardString(d: Directive, s: Text): Text {
    StringConversion(s, MarksOf(d), WidthOf(d.width), Effective(PrecisionOf(d.prec)))
  }

  /** What a character directive prints: its argument as an unsigned char. */
  function StandardChar(d: Directive, raw: nat): Text {
    Justified([(raw % 0x100) as char], MarksOf(d), WidthOf(d.width))
  }
}
