/** Whole formats: ordinary text, %% and directives in any order print what each of
    them prints, with its own arguments. */
module PrintfPieces {
  import opened Options
  import opened Sequences
  import opened PrintfModel
  import opened PrintfFacts
  import opened PrintfRoundTrip
  import opened PrintfReference
  import opened PrintfConforms
  import opened PrintfMarked
  import opened PrintfDirectives
  import opened PrintfStrings
  import opened PrintfOutput

  /** A piece of a format, the arguments it takes and what it prints. */
  datatype Piece = Piece(fmt: Text, args: seq<Arg>, text: Text)

  predicate Prints(p: Piece) {
    Render(p.fmt, 0, p.args) == Some(p.text) && Unused(p.fmt, 0, p.args) == []
  }

  function Formats(ps: seq<Piece>): Text { if ps == [] then "" else ps[0].fmt + Formats(ps[1..]) }

  function Args(ps: seq<Piece>): seq<Arg> { if ps == [] then [] else ps[0].args + Args(ps[1..]) }

  function Texts(ps: seq<Piece>): Text { if ps == [] then "" else ps[0].text + Texts(ps[1..]) }

  /** Pieces in a row print one after another. */
  lemma {:induction false} InOrder(ps: seq<Piece>)
    requires forall p :: p in ps ==> Prints(p)
    ensures Render(Formats(ps), 0, Args(ps)) == Some(Texts(ps))
  {
    if ps != [] {
      assert ps[0] in ps;
      InOrder(ps[1..]);
      InSequence(ps[0].fmt, Formats(ps[1..]), ps[0].args, Args(ps[1..]));
    }
  }

  lemma PlainPrints(t: Text)
    requires '%' !in t
    ensures Prints(Piece(t, [], t))
  {
    PlainFrom(t, 0, []);
    assert t[0..] == t;
  }

  /** A character that is neither a field of a directive nor a conversion; % is one. */
  predicate IsOther(c: char) {
    !IsFlag(c) && !IsDigit(c) && c !in "*.lhtzj" && !Converts(c) && !IsFloat(c)
  }

  /** After a % any other character prints itself; %% prints a percent sign. */
  lemma {:induction false} OtherPrints(c: char)
    requires IsOther(c)
    ensures Prints(Piece(['%', c], [], [c]))
  {
    var fmt, s := ['%', c], Spot(NO_FLAGS, 0, 0, 1, []);
    assert c != '*' && c != '.' && c != 'l' && c != 'h' && c != 't' && c != 'z' && c != 'j';
    OtherParsed(fmt, s, c);
    assert Convert(c, s) == Some(([c], []));
    FinishedBy(fmt, s, c, Some(([c], [])));
    assert PrintfModel.Directive(fmt, 1, []) == Some(([c], 2, []));
    assert Render(fmt, 2, []) == Some("");
    Emptys([c]);
  }

  lemma OtherParsed(fmt: Text, s: Spot, c: char)
    requires fmt == ['%', c] && s == Spot(NO_FLAGS, 0, 0, 1, []) && !IsFlag(c) && !IsDigit(c)
    requires c != '*' && c != '.' && c != 'l' && c != 'h' && c != 't' && c != 'z' && c != 'j'
    ensures Parsed(fmt, 1, []) == Some(s)
  {
    assert ParseFlags(fmt, 1, NO_FLAGS) == (NO_FLAGS, 1);
    assert ParseWidth(fmt, s) == Some(s) && ParsePrecision(fmt, s) == Some(s) && ParseLength(fmt, s) == s;
  }

  lemma PercentPrints()
    ensures Prints(Piece("%%", [], "%"))
  {
    assert IsOther('%');
    OtherPrints('%');
  }

  /** A directive uses up its arguments. */
  lemma {:induction false} UsesArgs(d: PrintfReference.Directive, a: Arg)
    requires ValidDirective(d) && Converts(d.c) && d.width != Star(0x8000_0000)
    requires Render(FormatOf(d), 0, ArgsOf(d, a)).Some?
    ensures Unused(FormatOf(d), 0, ArgsOf(d, a)) == []
  {
    var fmt, s := FormatOf(d), SpotOf(d, a);
    DirectiveRead(d, a);
    WrittenEnds(d);
    ConvertUses(d.c, s);
    UnusedAfter(fmt, ArgsOf(d, a), Some(s), Convert(d.c, s));
  }

  lemma ConvertUses(c: char, s: Spot)
    requires Converts(c) && |s.args| == 1
    ensures Convert(c, s).Some? ==> Convert(c, s).value.1 == []
  {
    assert s.args[1..] == [];
  }

  lemma {:induction false} UnusedAfter(fmt: Text, args: seq<Arg>, s: Option<Spot>, r: Option<(Text, seq<Arg>)>)
    requires fmt != "" && fmt[0] == '%' && Parsed(fmt, 1, args) == s && s.Some? && s.value.i == |fmt| - 1
    requires r == Convert(fmt[|fmt| - 1], s.value) && Render(fmt, 0, args).Some?
    ensures r.Some? && Unused(fmt, 0, args) == r.value.1
  {
    FinishedTo(fmt, s, r);
    assert PrintfModel.Directive(fmt, 1, args) == Finished(fmt, s);
  }

  lemma FinishedTo(fmt: Text, s: Option<Spot>, r: Option<(Text, seq<Arg>)>)
    requires fmt != "" && s.Some? && s.value.i == |fmt| - 1 && r == Convert(fmt[|fmt| - 1], s.value)
    ensures Finished(fmt, s) == match r case None => None case Some(v) => Some((v.0, |fmt|, v.1))
  {}

  /** A directive that the standard and the code agree on, as a piece. */
  function IntegerPiece(d: PrintfReference.Directive, a: Arg): Piece {
    Piece(FormatOf(d), ArgsOf(d, a), StandardInteger(d, RawOf(a)))
  }

  lemma {:induction false} IntegerPrints(d: PrintfReference.Directive, a: Arg)
    requires ValidDirective(d) && IsInteger(d.c) && Fitting(d, a) && PrintedAsPrescribed(d, RawOf(a))
    ensures Prints(IntegerPiece(d, a))
  {
    DirectiveConformsIff(d, a);
    UsesArgs(d, a);
  }

  lemma {:induction false} StringPrints(d: PrintfReference.Directive, s: Text)
    requires ValidString(d) && d.len.NoLength? && d.width != Star(0x8000_0000) && !NegativePrecision(d)
    ensures Prints(Piece(FormatOf(d), ArgsOf(d, Str(s)), StandardString(d, s)))
  {
    StringConformsIff(d, s);
    UsesArgs(d, Str(s));
  }

  lemma {:induction false} CharPrints(d: PrintfReference.Directive, w: nat)
    requires ValidChar(d) && w < WORD && d.width != Star(0x8000_0000)
    ensures Prints(Piece(FormatOf(d), ArgsOf(d, Word(w)), StandardChar(d, w)))
  {
    CharConformsIff(d, w);
    UsesArgs(d, Word(w));
  }

  // -------------------------------------------------------------------- pointers

  const POINTER_MARKS: Marks := Marks(false, false, false, false, true)

  lemma {:induction false} PointerText08X(w: nat)
    requires w < WORD
    ensures PointerText(w, 0, NO_FLAGS) == IntegerConversion('X', POINTER_MARKS, 8, None, w)
  {
    var f := NO_FLAGS.(zeropad := true);
    assert IntegerFlags('X', f) == NO_FLAGS.(zeropad := true, upper := true);
    assert PointerText(w, 0, NO_FLAGS) == IntegerText('X', f, 8, 0, w);
    WordsAreShort(w, 16);
    DigitsOfCount(w, 16, true, NTOA_BUFFER_SIZE - 1);
    ShortAgrees('X', POINTER_MARKS, 8, None, w);
    ConformsIff('X', f, POINTER_MARKS, 8, None, w);
  }

  /** %p prints the address as %08X would. */
  lemma {:induction false} PointerPrints(w: nat)
    requires w < WORD
    ensures Prints(Piece("%p", [Word(w)], IntegerConversion('X', POINTER_MARKS, 8, None, w)))
  {
    var d := PrintfReference.Directive.Directive("", Absent, Absent, NoLength, 'p');
    var s := SpotOf(d, Word(w));
    assert FormatOf(d) == "%p" && ArgsOf(d, Word(w)) == [Word(w)];
    RenderOne(d, Word(w));
    PlainSpot(d, w);
    ConvertPointer(s, w);
    PointerText08X(w);
    UsesArgs(d, Word(w));
  }

  lemma PlainSpot(d: PrintfReference.Directive, w: nat)
    requires d == PrintfReference.Directive.Directive("", Absent, Absent, NoLength, 'p')
    ensures SpotOf(d, Word(w)) == Spot(NO_FLAGS, 0, 0, |Written(d)|, [Word(w)])
  {}

  lemma ConvertPointer(s: Spot, w: nat)
    requires s.args == [Word(w)]
    ensures Convert('p', s) == Some((PointerText(w, s.prec, s.f), []))
  {
    assert s.args[1..] == [];
  }

  /** For instance: a name, an equals sign and a number in one format. */
  lemma {:induction false} NameAndNumber(name: Text, value: nat)
    requires '%' !in name && value < WORD
    ensures Render(name + "%u", 0, [Word(value)]) == Some(name + Decimal(value))
  {
    PlainUnsigned(value);
    PrintfOutput.PlainText(name, "%u", [Word(value)]);
  }
}
