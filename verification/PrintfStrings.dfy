/** %s and %ls: exactly when printf.c prints what the standard prescribes. */
module PrintfStrings {
  import opened Options
  import opened Sequences
  import opened Numbers
  import opened PrintfModel
  import opened PrintfReference
  import opened PrintfConforms
  import opened PrintfDirectives
  import opened PrintfInk
  import opened PrintfMarked

  lemma {:induction false} RenderString(d: Directive, s: Text)
    requires ValidDirective(d) && d.c == 's' && d.width != Star(0x8000_0000)
    ensures Render(FormatOf(d), 0, ArgsOf(d, Str(s)))
         == Some(StringText(s, WidthOf(d.width), Clipped(PrecisionOf(d.prec)), SpotOf(d, Str(s)).f))
  {
    RenderOne(d, Str(s));
    ConvertString(SpotOf(d, Str(s)), s);
  }

  lemma ConvertString(spot: Spot, s: Text)
    requires spot.args == [Str(s)]
    ensures Convert('s', spot) == Some((StringText(s, spot.width, spot.prec, spot.f), []))
  {
    assert spot.args[1..] == [];
  }

  lemma PaddedIsJustified(t: Text, width: nat, f: Flags, m: Marks)
    requires f.left == m.minus
    ensures Padded(t, |t|, width, f) == Justified(t, m, width)
  {
    Emptys(t);
    Emptys(Spaces(width, |t|) + t);
  }

  lemma {:induction false} BlankText(t: Text)
    requires Ink(t) == 0
    ensures t == Repeat(' ', |t|)
  {
    if t != "" {
      BlankText(t[1..]);
      assert t == [t[0]] + t[1..];
      assert Repeat(' ', |t|) == [' '] + Repeat(' ', |t| - 1);
    }
  }

  /** Nothing printed for something: only blanks that padding makes up for. */
  lemma {:induction false} EmptiedIff(t: Text, m: Marks, width: nat)
    ensures Justified("", m, width) == Justified(t, m, width) <==> Ink(t) == 0 && |t| <= width
  {
    InkJustified("", m, width);
    InkJustified(t, m, width);
    Emptys(Spaces(width, 0));
    if Ink(t) == 0 {
      BlankText(t);
      if |t| <= width {
        RepeatJoins(' ', |t|, width - |t|);
        RepeatJoins(' ', width - |t|, |t|);
      }
    }
  }

  /** The standard gives %s no # or 0 flag and no length modifier but l. */
  predicate ValidString(d: Directive) {
    ValidDirective(d) && d.c == 's' && !MarksOf(d).hash && !MarksOf(d).zero && (d.len.NoLength? || d.len.L?)
  }

  predicate NegativePrecision(d: Directive) {
    PrecisionOf(d.prec).Some? && PrecisionOf(d.prec).value < 0
  }

  /** The characters of s that a precision leaves. */
  function Cut(s: Text, prec: Option<nat>): Text {
    match prec case None => s case Some(p) => s[..Min(|s|, p)]
  }

  /** What the code prints for the characters it finds. */
  lemma {:induction false} StringPrinted(d: Directive, s: Text)
    requires ValidDirective(d) && d.c == 's' && d.width != Star(0x8000_0000)
    ensures var shown := if NegativePrecision(d) then "" else Cut(s, Effective(PrecisionOf(d.prec)));
            Render(FormatOf(d), 0, ArgsOf(d, Str(s))) == Some(Justified(shown, MarksOf(d), WidthOf(d.width)))
  {
    var m, width, prec, f := MarksOf(d), WidthOf(d.width), PrecisionOf(d.prec), SpotOf(d, Str(s)).f;
    RenderString(d, s);
    FlagsShow(d, Str(s));
    var shown := if prec.Some? then s[..Min(|s|, Clipped(prec))] else s;
    PaddedIsJustified(shown, width, f, m);
  }

  // ------------------------------------------------------------------- narrow

  /** A string directive prints what is prescribed unless a negative precision,
      which the code takes for zero, hides more than padding puts back. */
  lemma {:induction false} StringConformsIff(d: Directive, s: Text)
    requires ValidString(d) && d.len.NoLength?
    ensures Render(FormatOf(d), 0, ArgsOf(d, Str(s))) == Some(StandardString(d, s)) <==>
              d.width != Star(0x8000_0000) && (NegativePrecision(d) ==> Ink(s) == 0 && |s| <= WidthOf(d.width))
  {
    if d.width == Star(0x8000_0000) {
      RenderOne(d, Str(s));
    } else {
      StringPrinted(d, s);
      EmptiedIff(s, MarksOf(d), WidthOf(d.width));
    }
  }

  // --------------------------------------------------------------------- wide

  /** A wide string of basic characters in memory, each of so many bytes, the
      lowest first, with its terminator. */
  function Stored(w: Text, size: nat): Text
    requires 0 < size
  {
    if w == "" then Repeat('\0', size) else [w[0]] + Repeat('\0', size - 1) + Stored(w[1..], size)
  }

  /** The string of bytes that a pointer to it is taken for. */
  function UpToNul(memory: Text): Text {
    if memory == "" || memory[0] == '\0' then "" else [memory[0]] + UpToNul(memory[1..])
  }

  /** Characters that are single bytes in every locale. */
  predicate Basic(w: Text) {
    forall i :: 0 <= i < |w| ==> 0 < w[i] as int < 0x80
  }

  function Seen(w: Text, size: nat): Text
    requires 0 < size
  {
    UpToNul(Stored(w, size))
  }

  /** Of a wide string the code sees the first character. */
  lemma {:induction false} SeesFirst(w: Text, size: nat)
    requires 2 <= size && Basic(w)
    ensures Seen(w, size) == w[..Min(1, |w|)]
  {
    if w != "" {
      var rest := Repeat('\0', size - 1) + Stored(w[1..], size);
      assert Stored(w, size) == [w[0]] + rest && ([w[0]] + rest)[1..] == rest && rest[0] == '\0';
      assert UpToNul(rest) == "";
    }
  }

  /** A text whose first character looks like the whole. */
  predicate FirstIsEnough(t: Text, m: Marks, width: nat) {
    |t| <= 1 || (Ink(t[1..]) == 0 && |t| <= width && (m.minus || t[0] == ' '))
  }

  lemma {:induction false} BlankAt(t: Text, k: nat)
    requires k < |t| && Ink(t) == 0
    ensures t[k] == ' '
  {
    BlankText(t);
  }

  lemma {:induction false} FirstLeft(t: Text, m: Marks, width: nat)
    requires |t| > 1 && m.minus
    ensures Justified(t[..1], m, width) == Justified(t, m, width) <==> Ink(t[1..]) == 0 && |t| <= width
  {
    var c, r := t[..1], t[1..];
    assert t == c + r;
    InkConcat(c, r);
    InkJustified(c, m, width);
    InkJustified(t, m, width);
    if Ink(r) == 0 && |t| <= width {
      BlankText(r);
      RepeatJoins(' ', |r|, width - |t|);
      Regroup(c, r, Spaces(width, |t|));
    }
  }

  lemma {:induction false} FirstRight(t: Text, m: Marks, width: nat)
    requires |t| > 1 && !m.minus
    ensures Justified(t[..1], m, width) == Justified(t, m, width) <==>
            Ink(t[1..]) == 0 && |t| <= width && t[0] == ' '
  {
    var c, r := t[..1], t[1..];
    assert t == c + r;
    InkConcat(c, r);
    InkJustified(c, m, width);
    InkJustified(t, m, width);
    if Ink(r) == 0 && |t| <= width {
      if t[0] == ' ' {
        BlankText(t);
        RepeatJoins(' ', width - 1, 1);
        RepeatJoins(' ', width - |t|, |t|);
      } else {
        assert Justified(c, m, width)[width - 1] == t[0];
        assert Justified(t, m, width)[width - 1] == t[|t| - 1];
        BlankAt(r, |r| - 1);
      }
    }
  }

  lemma {:induction false} FirstIff(t: Text, m: Marks, width: nat)
    ensures Justified(t[..Min(1, |t|)], m, width) == Justified(t, m, width) <==> FirstIsEnough(t, m, width)
  {
    if |t| <= 1 {
      assert t[..Min(1, |t|)] == t;
    } else if m.minus {
      FirstLeft(t, m, width);
    } else {
      FirstRight(t, m, width);
    }
  }

  lemma CutOfFirst(w: Text, prec: Option<nat>)
    ensures var t := Cut(w, prec);
            Cut(w[..Min(1, |w|)], prec) == t[..Min(1, |t|)]
  {}

  /** What the code prints for a wide string. */
  lemma {:induction false} WidePrinted(d: Directive, w: Text, size: nat)
    requires ValidString(d) && d.width != Star(0x8000_0000) && Basic(w) && 2 <= size
    ensures var t := if NegativePrecision(d) then "" else Cut(w, Effective(PrecisionOf(d.prec)));
            Render(FormatOf(d), 0, ArgsOf(d, Str(Seen(w, size))))
            == Some(Justified(t[..Min(1, |t|)], MarksOf(d), WidthOf(d.width)))
  {
    StringPrinted(d, Seen(w, size));
    SeesFirst(w, size);
    CutOfFirst(w, Effective(PrecisionOf(d.prec)));
  }

  /** %ls prints of a wide string what a string of its first character gives; that
      is what the standard prescribes exactly if the first character looks like the
      whole, and with a negative precision if nothing does. */
  lemma {:induction false} WideConformsIff(d: Directive, w: Text, size: nat)
    requires ValidString(d) && d.len.L? && Basic(w) && 2 <= size
    ensures Render(FormatOf(d), 0, ArgsOf(d, Str(Seen(w, size)))) == Some(StandardString(d, w)) <==>
              d.width != Star(0x8000_0000)
              && if NegativePrecision(d) then Ink(w) == 0 && |w| <= WidthOf(d.width)
                 else FirstIsEnough(Cut(w, Effective(PrecisionOf(d.prec))), MarksOf(d), WidthOf(d.width))
  {
    if d.width == Star(0x8000_0000) {
      RenderOne(d, Str(Seen(w, size)));
    } else {
      WidePrinted(d, w, size);
      EmptiedIff(w, MarksOf(d), WidthOf(d.width));
      FirstIff(Cut(w, Effective(PrecisionOf(d.prec))), MarksOf(d), WidthOf(d.width));
    }
  }

  // --------------------------------------------------------------- characters

  /** The standard gives %c no # or 0 flag, no precision and no length modifier but
      l, for wide characters. */
  predicate ValidChar(d: Directive) {
    ValidDirective(d) && d.c == 'c' && !MarksOf(d).hash && !MarksOf(d).zero && d.prec.Absent? && d.len.NoLength?
  }

  lemma ConvertChar(spot: Spot, w: nat)
    requires spot.args == [Word(w)]
    ensures Convert('c', spot) == Some((CharText(w, spot.width, spot.f), []))
  {
    assert spot.args[1..] == [];
  }

  /** A character directive prints its argument, as an unsigned char, padded to the
      width as prescribed, unless the width cannot be negated. */
  lemma {:induction false} CharConformsIff(d: Directive, w: nat)
    requires ValidChar(d) && w < WORD
    ensures Render(FormatOf(d), 0, ArgsOf(d, Word(w))) == Some(StandardChar(d, w)) <==> d.width != Star(0x8000_0000)
  {
    RenderOne(d, Word(w));
    if d.width != Star(0x8000_0000) {
      var s := SpotOf(d, Word(w));
      ConvertChar(s, w);
      FlagsShow(d, Word(w));
      PaddedIsJustified([(w % 0x100) as char], s.width, s.f, MarksOf(d));
    }
  }
}
