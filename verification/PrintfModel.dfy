/** What printf.c prints when nothing limits the output. */
module PrintfModel {
  import opened Options
  import opened Numbers

  const NTOA_BUFFER_SIZE: nat := 32
  const WORD: nat := 0x1_0000_0000                 // unsigned int, unsigned long, size_t
  const WIDE: nat := 0x1_0000_0000_0000_0000       // unsigned long long

  type Text = seq<char>

  /** A variadic argument as passed: a 32-bit word (int, long, pointer, and what
      promotes to them), a 64-bit word, or a terminated string without its NUL. */
  datatype Arg = Word(w: nat) | Wide(ww: nat) | Str(s: Text)

  /** The characters of a C string before its terminator. */
  predicate NoNul(t: Text) {
    forall i :: 0 <= i < |t| ==> t[i] != '\0'
  }

  predicate ValidArg(a: Arg) {
    match a
    case Word(w) => w < WORD
    case Wide(ww) => ww < WIDE
    case Str(s) => |s| < WORD && NoNul(s)
  }

  /** The FLAGS_ bits. */
  datatype Flags = Flags(zeropad: bool, left: bool, plus: bool, space: bool, hash: bool, upper: bool,
                         char_: bool, short_: bool, long_: bool, longLong: bool, precision: bool)

  const NO_FLAGS: Flags := Flags(false, false, false, false, false, false, false, false, false, false, false)

  // --------------------------------------------------------------------- digits

  function DigitChar(d: nat, upper: bool): char
    requires d < 16
  {
    if d < 10 then '0' + d as char else (if upper then 'A' else 'a') + (d - 10) as char
  }

  function Quotient(v: nat, base: nat): (q: nat)
    requires 0 < base
  {
    v / base
  }

  function Remainder(v: nat, base: nat): (r: nat)
    requires 0 < base
    ensures r < base
  {
    v % base
  }

  /** The digits of a value, the least significant first, at most room of them;
      one digit even for zero. */
  function RevDigits(value: nat, base: nat, upper: bool, room: nat): Text
    requires 2 <= base <= 16
    decreases room
  {
    if room == 0 then ""
    else
      var rest := Quotient(value, base);
      [DigitChar(Remainder(value, base), upper)] + if rest == 0 then "" else RevDigits(rest, base, upper, room - 1)
  }

  /** The buffer of _ntoa_long before formatting. */
  function Digits(value: nat, base: nat, f: Flags): Text
    requires 2 <= base <= 16
  {
    if f.precision && value == 0 then "" else RevDigits(value, base, f.upper, NTOA_BUFFER_SIZE)
  }

  // ----------------------------------------------------------------- formatting

  function Repeat(c: char, n: nat): (t: Text)
    ensures |t| == n
  {
    seq(n, _ => c)
  }

  /** Zeros up to n characters, within the buffer. */
  function ZeroFill(rev: Text, n: nat): Text {
    var goal := Min(n, NTOA_BUFFER_SIZE);
    if |rev| < goal then rev + Repeat('0', goal - |rev|) else rev
  }

  function Append(rev: Text, c: char): Text {
    if |rev| < NTOA_BUFFER_SIZE then rev + [c] else rev
  }

  function Signed(f: Flags, negative: bool): bool { negative || f.plus || f.space }

  /** The leading zeros of _ntoa_format. */
  function Zeroed(rev: Text, negative: bool, prec: nat, width: nat, f: Flags): Text {
    if f.left then rev
    else
      var r := ZeroFill(rev, prec);
      if f.zeropad then ZeroFill(r, NarrowedWidth(negative, width, f)) else r
  }

  /** The width once the sign has been allowed for. */
  function NarrowedWidth(negative: bool, width: nat, f: Flags): nat {
    if !f.left && width > 0 && f.zeropad && Signed(f, negative) then width - 1 else width
  }

  /** The base marker of the # flag. */
  function Hashed(rev: Text, base: nat, prec: nat, width: nat, f: Flags): Text {
    if !f.hash then rev
    else
      var r := HashRoom(rev, base, prec, width, f);
      var m := if base == 16 then Append(r, if f.upper then 'X' else 'x')
               else if base == 2 then Append(r, 'b') else r;
      Append(m, '0')
  }

  /** Zeros of padding give way to the marker. */
  function HashRoom(rev: Text, base: nat, prec: nat, width: nat, f: Flags): Text {
    if !f.precision && rev != [] && (|rev| == prec || |rev| == width) then
      var r := rev[..|rev| - 1];
      if r != [] && base == 16 then r[..|r| - 1] else r
    else rev
  }

  function SignMark(rev: Text, negative: bool, f: Flags): Text {
    if negative then Append(rev, '-')
    else if f.plus then Append(rev, '+')
    else if f.space then Append(rev, ' ')
    else rev
  }

  /** The conversion buffer when _ntoa_format hands it on, in reverse. */
  function Body(rev: Text, negative: bool, base: nat, prec: nat, width: nat, f: Flags): Text {
    var w := NarrowedWidth(negative, width, f);
    SignMark(Hashed(Zeroed(rev, negative, prec, width, f), base, prec, w, f), negative, f)
  }

  function Reverse(t: Text): (r: Text)
    ensures |r| == |t|
    ensures forall i :: 0 <= i < |t| ==> r[i] == t[|t| - 1 - i]
  {
    seq(|t|, i requires 0 <= i < |t| => t[|t| - 1 - i])
  }

  function Spaces(width: nat, n: nat): Text {
    if n < width then Repeat(' ', width - n) else ""
  }

  /** _out_rev */
  function Field(rev: Text, width: nat, f: Flags): Text {
    (if !f.left && !f.zeropad then Spaces(width, |rev|) else "")
      + Reverse(rev)
      + (if !f.left then "" else Spaces(width, |rev|))
  }

  /** _ntoa_format */
  function Formatted(rev: Text, negative: bool, base: nat, prec: nat, width: nat, f: Flags): Text {
    Field(Body(rev, negative, base, prec, width, f), NarrowedWidth(negative, width, f), f)
  }

  /** _ntoa_long and _ntoa_long_long */
  function Number(value: nat, negative: bool, base: nat, prec: nat, width: nat, f: Flags): Text
    requires 2 <= base <= 16
  {
    var g := if value == 0 then f.(hash := false) else f;
    Formatted(Digits(value, base, g), negative, base, prec, width, g)
  }

  // -------------------------------------------------------------------- parsing

  /** The character at i of a terminated format. */
  function At(fmt: Text, i: nat): char {
    if i < |fmt| then fmt[i] else '\0'
  }

  predicate IsDigit(c: char) { '0' <= c <= '9' }

  /** _atoi from i on: the value, modulo the range of unsigned int, and the end. */
  function Atoi(fmt: Text, i: nat, value: nat): (r: (nat, nat))
    ensures i <= r.1
    decreases if i < |fmt| then |fmt| - i else 0
  {
    if IsDigit(At(fmt, i)) then Atoi(fmt, i + 1, (value * 10 + (fmt[i] - '0') as nat) % WORD) else (value, i)
  }

  predicate IsFlag(c: char) { c == '0' || c == '-' || c == '+' || c == ' ' || c == '#' }

  function WithFlag(f: Flags, c: char): Flags {
    if c == '0' then f.(zeropad := true)
    else if c == '-' then f.(left := true)
    else if c == '+' then f.(plus := true)
    else if c == ' ' then f.(space := true)
    else f.(hash := true)
  }

  function ParseFlags(fmt: Text, i: nat, f: Flags): (r: (Flags, nat))
    ensures i <= r.1
    decreases if i < |fmt| then |fmt| - i else 0
  {
    if IsFlag(At(fmt, i)) then ParseFlags(fmt, i + 1, WithFlag(f, fmt[i])) else (f, i)
  }

  function AsInt(w: nat, bits: nat): int {
    if 2 * w < bits then w else w - bits
  }

  /** Where the formatter stands between two fields of a directive. */
  datatype Spot = Spot(f: Flags, width: nat, prec: nat, i: nat, args: seq<Arg>)

  function ParseWidth(fmt: Text, s: Spot): (r: Option<Spot>)
    ensures r.Some? ==> s.i <= r.value.i
  {
    if IsDigit(At(fmt, s.i)) then
      var (w, j) := Atoi(fmt, s.i, 0);
      Some(s.(width := w, i := j))
    else if At(fmt, s.i) == '*' then
      if s.args == [] || !s.args[0].Word? then None
      else
        var w := AsInt(s.args[0].w, WORD);
        var t := s.(i := s.i + 1, args := s.args[1..]);
        if w == -0x8000_0000 then None                    // cannot be negated
        else Some(t.(f := if w < 0 then t.f.(left := true) else t.f, width := Abs(w)))
    else Some(s)
  }

  function ParsePrecision(fmt: Text, s: Spot): (r: Option<Spot>)
    ensures r.Some? ==> s.i <= r.value.i
  {
    if At(fmt, s.i) != '.' then Some(s)
    else
      var t := s.(f := s.f.(precision := true), i := s.i + 1);
      if IsDigit(At(fmt, t.i)) then
        var (p, j) := Atoi(fmt, t.i, 0);
        Some(t.(prec := p, i := j))
      else if At(fmt, t.i) == '*' then
        if t.args == [] || !t.args[0].Word? then None
        else
          var p := AsInt(t.args[0].w, WORD);
          Some(t.(prec := if p > 0 then p else 0, i := t.i + 1, args := t.args[1..]))
      else Some(t)
  }

  function ParseLength(fmt: Text, s: Spot): (r: Spot)
    ensures s.i <= r.i
  {
    var c := At(fmt, s.i);
    if c == 'l' then
      if At(fmt, s.i + 1) == 'l' then s.(f := s.f.(long_ := true, longLong := true), i := s.i + 2)
      else s.(f := s.f.(long_ := true), i := s.i + 1)
    else if c == 'h' then
      if At(fmt, s.i + 1) == 'h' then s.(f := s.f.(short_ := true, char_ := true), i := s.i + 2)
      else s.(f := s.f.(short_ := true), i := s.i + 1)
    else if c == 't' || c == 'z' then s.(f := s.f.(long_ := true), i := s.i + 1)     // as wide as long
    else if c == 'j' then s.(f := s.f.(longLong := true), i := s.i + 1)
    else s
  }

  // ---------------------------------------------------------------- conversions

  predicate IsInteger(c: char) { c in "diuxXob" }

  predicate IsFloat(c: char) { c in "fFeEgG" }

  predicate IsSigned(c: char) { c == 'd' || c == 'i' }

  function Base(c: char): (b: nat)
    ensures 2 <= b <= 16
  {
    if c == 'x' || c == 'X' then 16 else if c == 'o' then 8 else if c == 'b' then 2 else 10
  }

  /** The flags an integer conversion keeps. */
  function IntegerFlags(c: char, f: Flags): Flags {
    f.(hash := f.hash && Base(c) != 10,
       upper := f.upper || c == 'X',
       plus := f.plus && IsSigned(c),
       space := f.space && IsSigned(c),
       zeropad := f.zeropad && !f.precision)
  }

  /** The value an integer conversion takes from its argument; none if the
      argument is of another size or cannot be negated. */
  function IntegerValue(c: char, f: Flags, a: Arg): Option<int> {
    if f.longLong then
      if !a.Wide? then None
      else if !IsSigned(c) then Some(a.ww)
      else if AsInt(a.ww, WIDE) == -0x8000_0000_0000_0000 then None
      else Some(AsInt(a.ww, WIDE))
    else if !a.Word? then None
    else if f.long_ then Plain(c, a.w)
    else if f.char_ then Some(a.w % 0x100)               // char is unsigned here
    else if f.short_ then Some(if IsSigned(c) then AsInt(a.w % 0x1_0000, 0x1_0000) else a.w % 0x1_0000)
    else Plain(c, a.w)
  }

  function Plain(c: char, w: nat): Option<int> {
    if !IsSigned(c) then Some(w)
    else if AsInt(w, WORD) == -0x8000_0000 then None
    else Some(AsInt(w, WORD))
  }

  function Abs(v: int): nat { if v > 0 then v else 0 - v }

  function IntegerText(c: char, f: Flags, width: nat, prec: nat, value: int): Text {
    Number(Abs(value), value < 0, Base(c), prec, width, IntegerFlags(c, f))
  }

  function Padded(t: Text, shown: nat, width: nat, f: Flags): Text {
    (if f.left then "" else Spaces(width, shown)) + t + (if f.left then Spaces(width, shown) else "")
  }

  function CharText(w: nat, width: nat, f: Flags): Text {
    Padded([(w % 0x100) as char], 1, width, f)
  }

  function StringText(s: Text, width: nat, prec: nat, f: Flags): Text {
    var shown := if f.precision then s[..Min(|s|, prec)] else s;
    Padded(shown, |shown|, width, f)
  }

  function PointerText(w: nat, prec: nat, f: Flags): Text {
    Number(w, false, 16, prec, 8, f.(zeropad := true, upper := true))
  }

  /** One conversion of an argument: its text. */
  function Converted(c: char, f: Flags, width: nat, prec: nat, a: Arg): Option<Text> {
    if IsInteger(c) then
      match IntegerValue(c, f, a)
      case None => None
      case Some(v) => Some(IntegerText(c, f, width, prec, v))
    else if c == 's' then
      if a.Str? then Some(StringText(a.s, width, prec, f)) else None
    else if !a.Word? then None
    else if c == 'c' then Some(CharText(a.w, width, f))
    else Some(PointerText(a.w, prec, f))
  }

  /** One conversion: its text and the arguments left. */
  function Convert(c: char, s: Spot): Option<(Text, seq<Arg>)> {
    if IsInteger(c) || c == 'c' || c == 's' || c == 'p' then
      if s.args == [] then None
      else
        match Converted(c, s.f, s.width, s.prec, s.args[0])
        case None => None
        case Some(t) => Some((t, s.args[1..]))
    else if IsFloat(c) then None
    else Some(([c], s.args))
  }

  /** The fields of a directive, from the character after its %: where the parser
      stands when it comes to the conversion. */
  function Parsed(fmt: Text, i: nat, args: seq<Arg>): (r: Option<Spot>)
    ensures r.Some? ==> i <= r.value.i
  {
    var (f, j) := ParseFlags(fmt, i, NO_FLAGS);
    match ParseWidth(fmt, Spot(f, 0, 0, j, args))
    case None => None
    case Some(s1) =>
      match ParsePrecision(fmt, s1)
      case None => None
      case Some(s2) => Some(ParseLength(fmt, s2))
  }

  /** The conversion, once the fields are parsed. */
  function Finished(fmt: Text, s: Option<Spot>): (r: Option<(Text, nat, seq<Arg>)>)
    ensures r.Some? ==> s.Some? && s.value.i < r.value.1 <= |fmt|
  {
    match s
    case None => None
    case Some(t) =>
      if t.i >= |fmt| then None                            // runs past the terminator
      else
        match Convert(fmt[t.i], t)
        case None => None
        case Some(r) => Some((r.0, t.i + 1, r.1))
  }

  /** A whole directive. */
  function Directive(fmt: Text, i: nat, args: seq<Arg>): (r: Option<(Text, nat, seq<Arg>)>)
    ensures r.Some? ==> i < r.value.1 <= |fmt|
  {
    Finished(fmt, Parsed(fmt, i, args))
  }

  function Cons(t: Text, rest: Option<Text>): Option<Text> {
    match rest
    case None => None
    case Some(r) => Some(t + r)
  }

  /** The whole output from i on; none where C leaves the behaviour undefined or
      a floating-point conversion is asked for. */
  function Render(fmt: Text, i: nat, args: seq<Arg>): Option<Text>
    decreases if i < |fmt| then |fmt| - i else 0
  {
    if i >= |fmt| then Some("")
    else if fmt[i] != '%' then Cons([fmt[i]], Render(fmt, i + 1, args))
    else
      match Directive(fmt, i + 1, args)
      case None => None
      case Some(d) => Cons(d.0, Render(fmt, d.1, d.2))
  }
}
