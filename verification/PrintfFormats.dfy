/** Which formats printf.c reads to their terminator and no further. */
module PrintfFormats {
  import opened Options
  import opened PrintfModel

  // ----------------------------------------------- the index of the format loop

  /** Past the width, past the precision and past the length that start at i: the
      arguments play no part in it. */
  function PastWidth(fmt: Text, i: nat): nat {
    if IsDigit(At(fmt, i)) then Atoi(fmt, i, 0).1 else if At(fmt, i) == '*' then i + 1 else i
  }

  function PastPrecision(fmt: Text, i: nat): nat {
    if At(fmt, i) == '.' then PastWidth(fmt, i + 1) else i
  }

  function PastLength(fmt: Text, i: nat): nat {
    ParseLength(fmt, Spot(NO_FLAGS, 0, 0, i, [])).i
  }

  /** Where the code looks for the conversion of a directive whose % is before i. */
  function Conversion(fmt: Text, i: nat): nat {
    PastLength(fmt, PastPrecision(fmt, PastWidth(fmt, ParseFlags(fmt, i, NO_FLAGS).1)))
  }

  /** The index that a directive is parsed to is that one. */
  lemma {:induction false} ParsedTo(fmt: Text, i: nat, args: seq<Arg>)
    requires Parsed(fmt, i, args).Some?
    ensures Parsed(fmt, i, args).value.i == Conversion(fmt, i)
  {
    var (f, j) := ParseFlags(fmt, i, NO_FLAGS);
    var s1 := ParseWidth(fmt, Spot(f, 0, 0, j, args)).value;
    var s2 := ParsePrecision(fmt, s1).value;
    assert s1.i == PastWidth(fmt, j) && s2.i == PastPrecision(fmt, s1.i);
  }

  /** One turn of the loop: whatever it finds for a conversion, the terminator
      included, it steps over. */
  function Turn(fmt: Text, i: nat): nat {
    if At(fmt, i) == '%' then Conversion(fmt, i + 1) + 1 else i + 1
  }

  /** The index meets the terminator at the top of the loop, where it is noticed. */
  predicate StaysInside(fmt: Text, i: nat)
    requires i <= |fmt|
    decreases |fmt| - i
  {
    i == |fmt| || (i < Turn(fmt, i) <= |fmt| && StaysInside(fmt, Turn(fmt, i)))
  }

  // ---------------------------------------------------------- the text by itself

  predicate AllFlags(t: Text) { forall k :: 0 <= k < |t| ==> IsFlag(t[k]) }

  /** A number, a star or nothing. */
  predicate IsAmount(t: Text) { t == "*" || forall k :: 0 <= k < |t| ==> IsDigit(t[k]) }

  predicate IsPrecision(t: Text) { t == "" || (t[0] == '.' && IsAmount(t[1..])) }

  predicate IsLength(t: Text) { t in {"", "h", "hh", "l", "ll", "j", "z", "t"} }

  /** t is flags up to a, width up to b, precision up to c, and length. */
  predicate Split(t: Text, a: nat, b: nat, c: nat) {
    a <= b <= c <= |t| && AllFlags(t[..a]) && IsAmount(t[a..b]) && IsPrecision(t[b..c]) && IsLength(t[c..])
  }

  /** A directive after its % and without its conversion. */
  ghost predicate Fields(t: Text) {
    exists a: nat, b: nat, c: nat :: Split(t, a, b, c)
  }

  /** The first k characters are fields, and no more of them are. */
  ghost predicate LongestFields(t: Text, k: nat) {
    k <= |t| && Fields(t[..k]) && forall j :: k < j <= |t| ==> !Fields(t[..j])
  }

  /** Every % is followed by fields and one more character, the conversion. */
  ghost predicate Complete(t: Text)
    decreases |t|
  {
    t == "" ||
    if t[0] != '%' then Complete(t[1..])
    else exists k: nat :: LongestFields(t[1..], k) && k + 1 < |t| && Complete(t[k + 2..])
  }

  // ------------------------------------------------------ the fields are skipped

  lemma {:induction false} DigitsSpan(fmt: Text, i: nat, v: nat)
    requires i <= |fmt|
    ensures var j := Atoi(fmt, i, v).1;
            i <= j <= |fmt| && !IsDigit(At(fmt, j)) && forall k :: i <= k < j ==> IsDigit(fmt[k])
    decreases |fmt| - i
  {
    if IsDigit(At(fmt, i)) {
      DigitsSpan(fmt, i + 1, (v * 10 + (fmt[i] - '0') as nat) % WORD);
    }
  }

  lemma {:induction false} FlagsSpan(fmt: Text, i: nat, f: Flags)
    requires i <= |fmt|
    ensures var j := ParseFlags(fmt, i, f).1;
            i <= j <= |fmt| && !IsFlag(At(fmt, j)) && forall k :: i <= k < j ==> IsFlag(fmt[k])
    decreases |fmt| - i
  {
    if IsFlag(At(fmt, i)) {
      FlagsSpan(fmt, i + 1, WithFlag(f, fmt[i]));
    }
  }

  lemma {:induction false} WidthSpan(fmt: Text, i: nat)
    requires i <= |fmt|
    ensures i <= PastWidth(fmt, i) <= |fmt| && IsAmount(fmt[i..PastWidth(fmt, i)])
  {
    DigitsSpan(fmt, i, 0);
  }

  lemma {:induction false} PrecisionSpan(fmt: Text, i: nat)
    requires i <= |fmt|
    ensures i <= PastPrecision(fmt, i) <= |fmt| && IsPrecision(fmt[i..PastPrecision(fmt, i)])
  {
    if At(fmt, i) == '.' {
      WidthSpan(fmt, i + 1);
      var j := PastWidth(fmt, i + 1);
      assert fmt[i..j][1..] == fmt[i + 1..j];
    }
  }

  lemma {:induction false} LengthSpan(fmt: Text, i: nat)
    requires i <= |fmt|
    ensures i <= PastLength(fmt, i) <= |fmt| && IsLength(fmt[i..PastLength(fmt, i)])
  {
    var t := fmt[i..PastLength(fmt, i)];
    if t != "" { assert fmt[i] == t[0]; }
    assert t == "" || t == [fmt[i]] || t == [fmt[i], fmt[i + 1]];
    assert t == "" || t == "h" || t == "hh" || t == "l" || t == "ll" || t == "j" || t == "z" || t == "t";
  }

  lemma Within(s: Text, i: nat, e: nat, a: nat, b: nat)
    requires i <= e <= |s| && a <= b <= e - i
    ensures s[i..e][a..b] == s[i + a..i + b]
  {
    var x, y := s[i..e][a..b], s[i + a..i + b];
    assert |x| == |y| && forall k :: 0 <= k < |x| ==> x[k] == y[k];
  }

  lemma {:induction false} Splits(fmt: Text, i: nat, a: nat, b: nat, c: nat, e: nat)
    requires i <= a <= b <= c <= e <= |fmt| && AllFlags(fmt[i..a]) && IsAmount(fmt[a..b])
    requires IsPrecision(fmt[b..c]) && IsLength(fmt[c..e])
    ensures Fields(fmt[i..e])
  {
    var t := fmt[i..e];
    Within(fmt, i, e, 0, a - i);
    Within(fmt, i, e, a - i, b - i);
    Within(fmt, i, e, b - i, c - i);
    Within(fmt, i, e, c - i, e - i);
    assert Split(t, a - i, b - i, c - i);
  }

  /** What the code skips are fields. */
  lemma {:induction false} SkipsFields(fmt: Text, i: nat)
    requires i <= |fmt|
    ensures i <= Conversion(fmt, i) <= |fmt| && Fields(fmt[i..Conversion(fmt, i)])
  {
    var a := ParseFlags(fmt, i, NO_FLAGS).1;
    var b := PastWidth(fmt, a);
    var c := PastPrecision(fmt, b);
    FlagsSpan(fmt, i, NO_FLAGS);
    WidthSpan(fmt, a);
    PrecisionSpan(fmt, b);
    LengthSpan(fmt, c);
    Splits(fmt, i, a, b, c, PastLength(fmt, c));
  }

  // ------------------------------------------------- and no more can be skipped

  /** Neither flag nor digit nor star comes at j, if anything does before `end`. */
  predicate Stops(fmt: Text, j: nat, end: nat) {
    j <= end <= |fmt| && (j < end ==> !IsFlag(fmt[j]) && !IsDigit(fmt[j]) && fmt[j] != '*')
  }

  /** A number or a star ends where the code says, or sooner if nothing follows. */
  lemma {:induction false} AmountSkipped(fmt: Text, i: nat, j: nat, end: nat)
    requires i <= j <= |fmt| && IsAmount(fmt[i..j]) && Stops(fmt, j, end)
    ensures j <= PastWidth(fmt, i) && (j < end ==> j == PastWidth(fmt, i))
  {
    DigitsSpan(fmt, i, 0);
    if fmt[i..j] == "*" {
      assert fmt[i] == fmt[i..j][0];
    } else {
      forall k | i <= k < j ensures IsDigit(fmt[k]) { assert fmt[k] == fmt[i..j][k - i]; }
    }
  }

  /** Flags and width together: a zero may be either. */
  lemma {:induction false} WidthSkipped(fmt: Text, i: nat, a: nat, b: nat, end: nat)
    requires i <= a <= b <= |fmt| && AllFlags(fmt[i..a]) && IsAmount(fmt[a..b]) && Stops(fmt, b, end)
    ensures var w := PastWidth(fmt, ParseFlags(fmt, i, NO_FLAGS).1);
            b <= w && (b < end ==> b == w)
  {
    var f := ParseFlags(fmt, i, NO_FLAGS).1;
    FlagsSpan(fmt, i, NO_FLAGS);
    forall k | i <= k < a ensures IsFlag(fmt[k]) { assert fmt[k] == fmt[i..a][k - i]; }
    assert a <= f;
    WidthSpan(fmt, f);
    if f <= b {
      if f > a && fmt[a..b] == "*" {
        assert fmt[a] == fmt[a..b][0];
      }
      assert IsAmount(fmt[f..b]) by {
        if f > a { forall k | f <= k < b ensures IsDigit(fmt[k]) { assert fmt[k] == fmt[a..b][k - a]; } }
      }
      AmountSkipped(fmt, f, b, end);
    }
  }

  lemma {:induction false} PrecisionSkipped(fmt: Text, b: nat, c: nat, end: nat)
    requires b <= c <= |fmt| && IsPrecision(fmt[b..c]) && Stops(fmt, c, end) && (c < end ==> fmt[c] != '.')
    ensures c <= PastPrecision(fmt, b) && (c < end ==> c == PastPrecision(fmt, b))
  {
    if b < c {
      assert fmt[b] == fmt[b..c][0] && fmt[b + 1..c] == fmt[b..c][1..];
      AmountSkipped(fmt, b + 1, c, end);
    } else {
      PrecisionSpan(fmt, b);
    }
  }

  lemma {:induction false} LengthSkipped(fmt: Text, c: nat, e: nat)
    requires c <= e <= |fmt| && IsLength(fmt[c..e])
    ensures e <= PastLength(fmt, c)
  {
    var t := fmt[c..e];
    if |t| > 0 { assert fmt[c] == t[0]; }
    if |t| > 1 { assert fmt[c + 1] == t[1]; }
  }

  lemma LengthStops(t: Text)
    requires IsLength(t) && t != ""
    ensures t[0] in "hljzt"
  {}

  lemma {:induction false} SplitWithin(fmt: Text, i: nat, e: nat, a: nat, b: nat, c: nat)
    requires i <= e <= |fmt| && Split(fmt[i..e], a, b, c)
    ensures AllFlags(fmt[i..i + a]) && IsAmount(fmt[i + a..i + b])
    ensures IsPrecision(fmt[i + b..i + c]) && IsLength(fmt[i + c..e])
  {
    Within(fmt, i, e, 0, a);
    Within(fmt, i, e, a, b);
    Within(fmt, i, e, b, c);
    Within(fmt, i, e, c, e - i);
  }

  /** The code skips as many fields as there are. */
  lemma {:induction false} SkipsAll(fmt: Text, i: nat, e: nat)
    requires i <= e <= |fmt| && Fields(fmt[i..e])
    ensures e <= Conversion(fmt, i)
  {
    var t := fmt[i..e];
    var a: nat, b: nat, c: nat :| Split(t, a, b, c);
    SplitSkipped(fmt, i, e, a, b, c);
  }

  lemma {:induction false} SplitSkipped(fmt: Text, i: nat, e: nat, a: nat, b: nat, c: nat)
    requires i <= e <= |fmt| && Split(fmt[i..e], a, b, c)
    ensures e <= Conversion(fmt, i)
  {
    SplitWithin(fmt, i, e, a, b, c);
    FieldsSkipped(fmt, i, i + a, i + b, i + c, e);
  }

  lemma {:induction false} FieldsSkipped(fmt: Text, i: nat, a: nat, b: nat, c: nat, e: nat)
    requires i <= a <= b <= c <= e <= |fmt| && AllFlags(fmt[i..a]) && IsAmount(fmt[a..b])
    requires IsPrecision(fmt[b..c]) && IsLength(fmt[c..e])
    ensures e <= Conversion(fmt, i)
  {
    if c < e {
      LengthStops(fmt[c..e]);
      assert fmt[c] == fmt[c..e][0];
    }
    if b < c { assert fmt[b] == fmt[b..c][0]; }
    WidthSkipped(fmt, i, a, b, e);
    var w := PastWidth(fmt, ParseFlags(fmt, i, NO_FLAGS).1);
    FlagsSpan(fmt, i, NO_FLAGS);
    WidthSpan(fmt, ParseFlags(fmt, i, NO_FLAGS).1);
    PrecisionSpan(fmt, w);
    LengthSpan(fmt, PastPrecision(fmt, w));
    if b < e {
      PrecisionSkipped(fmt, b, c, e);
      if c < e { LengthSkipped(fmt, c, e); }
    }
  }

  lemma {:induction false} LongestIs(fmt: Text, i: nat, k: nat)
    requires i <= |fmt|
    ensures LongestFields(fmt[i..], k) <==> i + k == Conversion(fmt, i)
  {
    var t, e := fmt[i..], Conversion(fmt, i) - i;
    SkipsFields(fmt, i);
    forall j | 0 <= j <= |t| ensures t[..j] == fmt[i..i + j] {}
    assert Fields(t[..e]);
    forall j | e < j <= |t| ensures !Fields(t[..j]) {
      if Fields(t[..j]) { SkipsAll(fmt, i, i + j); }
    }
  }

  // ------------------------------------------------------------------- theorems

  /** A text that begins with a directive, whose conversion is looked for at e. */
  lemma {:induction false} CompleteFrom(t: Text, e: nat)
    requires t != "" && t[0] == '%' && forall k: nat :: LongestFields(t[1..], k) <==> k + 1 == e
    ensures 0 < e ==> (Complete(t) <==> e < |t| && Complete(t[e + 1..]))
  {
    if 0 < e < |t| && Complete(t[e + 1..]) {
      var k := e - 1;
      assert LongestFields(t[1..], k) && t[k + 2..] == t[e + 1..];
    }
  }

  lemma {:induction false} DirectiveIff(fmt: Text, i: nat)
    requires i < |fmt| && fmt[i] == '%'
    ensures var e := Conversion(fmt, i + 1);
            i < e <= |fmt| && (Complete(fmt[i..]) <==> e < |fmt| && Complete(fmt[e + 1..]))
  {
    var t, e := fmt[i..], Conversion(fmt, i + 1);
    SkipsFields(fmt, i + 1);
    assert t[1..] == fmt[i + 1..];
    forall k: nat
      ensures LongestFields(t[1..], k) <==> k + 1 == e - i
    {
      LongestIs(fmt, i + 1, k);
    }
    CompleteFrom(t, e - i);
    if e < |fmt| { assert t[e - i + 1..] == fmt[e + 1..]; }
  }

  /** The index stays inside exactly if every directive has its conversion. */
  lemma {:induction false} InsideIff(fmt: Text, i: nat)
    requires i <= |fmt|
    ensures StaysInside(fmt, i) <==> Complete(fmt[i..])
    decreases |fmt| - i
  {
    if i < |fmt| {
      var next := Turn(fmt, i);
      if fmt[i] == '%' {
        DirectiveIff(fmt, i);
      } else {
        assert fmt[i..][1..] == fmt[i + 1..];
      }
      if next <= |fmt| { InsideIff(fmt, next); }
    }
  }

  /** The index stays inside, and no conversion it finds is a floating-point one. */
  predicate NoFloat(fmt: Text, i: nat)
    requires i <= |fmt|
    decreases |fmt| - i
  {
    i == |fmt| ||
    (i < Turn(fmt, i) <= |fmt| && (fmt[i] == '%' ==> !IsFloat(fmt[Turn(fmt, i) - 1])) && NoFloat(fmt, Turn(fmt, i)))
  }

  lemma FloatHasNone(c: char, s: Spot)
    requires IsFloat(c)
    ensures Convert(c, s) == None
  {
    assert c == 'f' || c == 'F' || c == 'e' || c == 'E' || c == 'g' || c == 'G';
    assert !IsInteger(c);
  }

  lemma {:induction false} DirectiveParts(fmt: Text, i: nat, args: seq<Arg>)
    requires PrintfModel.Directive(fmt, i, args).Some?
    ensures var s := Parsed(fmt, i, args);
            && s.Some? && s.value.i < |fmt| && Convert(fmt[s.value.i], s.value).Some?
            && PrintfModel.Directive(fmt, i, args).value.1 == s.value.i + 1
  {}

  lemma {:induction false} DirectiveTo(fmt: Text, i: nat, args: seq<Arg>)
    requires PrintfModel.Directive(fmt, i, args).Some?
    ensures var e := Conversion(fmt, i);
            e < |fmt| && PrintfModel.Directive(fmt, i, args).value.1 == e + 1 && !IsFloat(fmt[e])
  {
    DirectiveParts(fmt, i, args);
    var s := Parsed(fmt, i, args).value;
    if IsFloat(fmt[s.i]) { FloatHasNone(fmt[s.i], s); }
    ParsedTo(fmt, i, args);
  }

  lemma RenderUnfolds(fmt: Text, i: nat, args: seq<Arg>)
    requires i < |fmt| && fmt[i] == '%' && Render(fmt, i, args).Some?
    ensures var d := PrintfModel.Directive(fmt, i + 1, args);
            d.Some? && Render(fmt, d.value.1, d.value.2).Some?
  {}

  lemma DirectiveInside(fmt: Text, i: nat, e: nat)
    requires i < e < |fmt| && fmt[i] == '%' && e == Conversion(fmt, i + 1) && !IsFloat(fmt[e])
    requires NoFloat(fmt, e + 1)
    ensures NoFloat(fmt, i)
  {}

  lemma PlainInside(fmt: Text, i: nat)
    requires i < |fmt| && fmt[i] != '%' && NoFloat(fmt, i + 1)
    ensures NoFloat(fmt, i)
  {}

  lemma {:induction false} NoFloatInside(fmt: Text, i: nat)
    requires i <= |fmt| && NoFloat(fmt, i)
    ensures StaysInside(fmt, i)
    decreases |fmt| - i
  {
    if i < |fmt| { NoFloatInside(fmt, Turn(fmt, i)); }
  }

  /** What the model gives an output for stays inside and asks for no float. */
  lemma {:induction false} RenderedInside(fmt: Text, i: nat, args: seq<Arg>)
    requires i <= |fmt| && Render(fmt, i, args).Some?
    ensures NoFloat(fmt, i)
    decreases |fmt| - i
  {
    if i < |fmt| {
      if fmt[i] == '%' {
        var d := PrintfModel.Directive(fmt, i + 1, args);
        RenderUnfolds(fmt, i, args);
        DirectiveTo(fmt, i + 1, args);
        RenderedInside(fmt, d.value.1, d.value.2);
        DirectiveInside(fmt, i, d.value.1 - 1);
      } else {
        RenderedInside(fmt, i + 1, args);
        PlainInside(fmt, i);
      }
    }
  }

  // ------------------------------------------------------ arguments for a format

  /** The argument of a star that may stand at i. */
  function StarAt(fmt: Text, i: nat): seq<Arg> {
    if At(fmt, i) == '*' then [Word(0)] else []
  }

  lemma {:induction false} WidthSupplied(fmt: Text, s: Spot, more: seq<Arg>)
    requires s.args == StarAt(fmt, s.i) + more && s.width == 0
    ensures ParseWidth(fmt, s) == Some(s.(width := if IsDigit(At(fmt, s.i)) then Atoi(fmt, s.i, 0).0 else 0,
                                          i := PastWidth(fmt, s.i), args := more))
  {
    if At(fmt, s.i) == '*' {
      assert s.args[0] == Word(0) && s.args[1..] == more;
    } else {
      assert s.args == more;
    }
  }

  /** What comes of a precision and its argument. */
  function Precised(fmt: Text, s: Spot, more: seq<Arg>): Spot {
    if At(fmt, s.i) != '.' then s.(args := more)
    else
      s.(f := s.f.(precision := true), prec := if IsDigit(At(fmt, s.i + 1)) then Atoi(fmt, s.i + 1, 0).0 else s.prec,
         i := PastPrecision(fmt, s.i), args := more)
  }

  lemma {:induction false} PrecisionSupplied(fmt: Text, s: Spot, more: seq<Arg>)
    requires s.args == (if At(fmt, s.i) == '.' then StarAt(fmt, s.i + 1) else []) + more && s.prec == 0
    ensures ParsePrecision(fmt, s) == Some(Precised(fmt, s, more))
  {
    if At(fmt, s.i) == '.' && At(fmt, s.i + 1) == '*' {
      assert s.args[0] == Word(0) && s.args[1..] == more;
    } else {
      assert s.args == more;
    }
  }

  /** Where the parser stands behind the fields, and the arguments of their stars. */
  function FieldSpot(fmt: Text, i: nat, more: seq<Arg>): Spot {
    var (f, a) := ParseFlags(fmt, i, NO_FLAGS);
    var s := Spot(f, if IsDigit(At(fmt, a)) then Atoi(fmt, a, 0).0 else 0, 0, PastWidth(fmt, a), more);
    ParseLength(fmt, Precised(fmt, s, more))
  }

  function Stars(fmt: Text, i: nat): seq<Arg> {
    var a := ParseFlags(fmt, i, NO_FLAGS).1;
    var b := PastWidth(fmt, a);
    StarAt(fmt, a) + if At(fmt, b) == '.' then StarAt(fmt, b + 1) else []
  }

  lemma ParsedBy(fmt: Text, i: nat, args: seq<Arg>, s1: Spot, s2: Spot)
    requires var (f, a) := ParseFlags(fmt, i, NO_FLAGS); ParseWidth(fmt, Spot(f, 0, 0, a, args)) == Some(s1)
    requires ParsePrecision(fmt, s1) == Some(s2)
    ensures Parsed(fmt, i, args) == Some(ParseLength(fmt, s2))
  {}

  /** The arguments left pass through. */
  lemma ArgsPass(fmt: Text, s: Spot, t: Spot, more: seq<Arg>)
    requires s == t.(args := s.args)
    ensures Precised(fmt, s, more) == Precised(fmt, t, more)
    ensures Precised(fmt, s, more) == Precised(fmt, s, []).(args := more)
    ensures ParseLength(fmt, s) == ParseLength(fmt, t).(args := s.args)
  {}

  lemma {:induction false} FieldsSupplied(fmt: Text, i: nat, more: seq<Arg>)
    ensures Parsed(fmt, i, Stars(fmt, i) + more) == Some(FieldSpot(fmt, i, more))
  {
    var (f, a) := ParseFlags(fmt, i, NO_FLAGS);
    var b, w := PastWidth(fmt, a), if IsDigit(At(fmt, a)) then Atoi(fmt, a, 0).0 else 0;
    var prec := if At(fmt, b) == '.' then StarAt(fmt, b + 1) else [];
    var s1 := Spot(f, w, 0, b, prec + more);
    assert Stars(fmt, i) + more == StarAt(fmt, a) + (prec + more);
    WidthSupplied(fmt, Spot(f, 0, 0, a, Stars(fmt, i) + more), prec + more);
    PrecisionSupplied(fmt, s1, more);
    ParsedBy(fmt, i, Stars(fmt, i) + more, s1, Precised(fmt, s1, more));
    ArgsPass(fmt, s1, Spot(f, w, 0, b, more), more);
  }

  lemma {:induction false} FieldsKeepArgs(fmt: Text, i: nat, more: seq<Arg>)
    ensures FieldSpot(fmt, i, more) == FieldSpot(fmt, i, []).(args := more)
  {
    var (f, a) := ParseFlags(fmt, i, NO_FLAGS);
    var s := Spot(f, if IsDigit(At(fmt, a)) then Atoi(fmt, a, 0).0 else 0, 0, PastWidth(fmt, a), []);
    ArgsPass(fmt, s.(args := more), s, more);
    ArgsPass(fmt, s.(args := more), s, []);
    ArgsPass(fmt, Precised(fmt, s, more), Precised(fmt, s, []), []);
  }

  /** An argument for a conversion. */
  function ArgFor(c: char, f: Flags): seq<Arg> {
    if IsInteger(c) then [if f.longLong then Wide(0) else Word(0)]
    else if c == 's' then [Str("")]
    else if c == 'c' || c == 'p' then [Word(0)]
    else []
  }

  lemma {:induction false} ConversionSupplied(c: char, s: Spot, more: seq<Arg>)
    requires !IsFloat(c) && s.args == ArgFor(c, s.f) + more
    ensures Convert(c, s).Some? && Convert(c, s).value.1 == more
  {
    if ArgFor(c, s.f) != [] {
      assert s.args[0] == ArgFor(c, s.f)[0] && s.args[1..] == more;
    } else {
      assert s.args == more;
    }
  }

  lemma {:induction false} DirectiveSupplied(fmt: Text, i: nat, more: seq<Arg>) returns (own: seq<Arg>)
    requires Conversion(fmt, i) < |fmt| && !IsFloat(fmt[Conversion(fmt, i)])
    ensures var d := PrintfModel.Directive(fmt, i, own + more);
            d.Some? && d.value.1 == Conversion(fmt, i) + 1 && d.value.2 == more
  {
    var c := fmt[Conversion(fmt, i)];
    var arg := ArgFor(c, FieldSpot(fmt, i, []).f);
    own := Stars(fmt, i) + arg;
    assert own + more == Stars(fmt, i) + (arg + more);
    FieldsSupplied(fmt, i, arg + more);
    FieldsKeepArgs(fmt, i, arg + more);
    ParsedTo(fmt, i, own + more);
    ConversionSupplied(c, FieldSpot(fmt, i, arg + more), more);
  }

  /** Any such format is rendered with suitable arguments. */
  lemma {:induction false} Supplied(fmt: Text, i: nat) returns (args: seq<Arg>)
    requires i <= |fmt| && NoFloat(fmt, i)
    ensures Render(fmt, i, args).Some?
    decreases |fmt| - i
  {
    if i == |fmt| {
      args := [];
    } else {
      var more := Supplied(fmt, Turn(fmt, i));
      if fmt[i] == '%' {
        var own := DirectiveSupplied(fmt, i + 1, more);
        args := own + more;
      } else {
        args := more;
      }
    }
  }

  /** A format for which no arguments at all give an output is one that is read
      past its terminator or asks for a floating-point conversion. */
  lemma {:induction false} OutputIff(fmt: Text)
    ensures (exists args :: Render(fmt, 0, args).Some?) <==> NoFloat(fmt, 0)
    ensures NoFloat(fmt, 0) ==> StaysInside(fmt, 0)
  {
    if NoFloat(fmt, 0) {
      var args := Supplied(fmt, 0);
      NoFloatInside(fmt, 0);
    }
    forall args | Render(fmt, 0, args).Some? ensures NoFloat(fmt, 0) {
      RenderedInside(fmt, 0, args);
    }
  }

  /** 100% is read past its terminator. */
  lemma {:induction false} PercentAtTheEnd()
    ensures !StaysInside("100%", 0) && !Complete("100%") && Turn("100%", 3) == |"100%"| + 1
  {
    var fmt := "100%";
    assert fmt[0..] == fmt;
    assert !StaysInside(fmt, 3);
    assert Turn(fmt, 0) == 1 && Turn(fmt, 1) == 2 && Turn(fmt, 2) == 3;
    assert !StaysInside(fmt, 2);
    assert !StaysInside(fmt, 1);
    InsideIff(fmt, 0);
  }
}
