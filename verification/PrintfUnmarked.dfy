/** _ntoa_format without the # flag: when its 32-character buffer cuts nothing. */
module PrintfUnmarked {
  import opened Numbers
  import opened PrintfModel
  import opened PrintfFacts
  import opened Sequences

  /** The sign an integer conversion shows. */
  function Sign(negative: bool, f: Flags): Text {
    if negative then "-" else if f.plus then "+" else if f.space then " " else ""
  }

  /** How many zeros go between sign and digits: up to the precision, or, with
      the 0 flag and neither - nor precision, up to the width. */
  function Zeros(digits: nat, sign: nat, prec: nat, width: nat, f: Flags): nat {
    if f.precision then (if digits < prec then prec - digits else 0)
    else if f.zeropad && !f.left && sign + digits < width then width - sign - digits
    else 0
  }

  function UnmarkedBody(rev: Text, negative: bool, prec: nat, width: nat, f: Flags): Text {
    var sign := Sign(negative, f);
    sign + Repeat('0', Zeros(|rev|, |sign|, prec, width, f)) + Reverse(rev)
  }

  /** The layout of an integer conversion without marker, with nothing cut. */
  function UnmarkedText(rev: Text, negative: bool, prec: nat, width: nat, f: Flags): Text {
    var body := UnmarkedBody(rev, negative, prec, width, f);
    if f.left then body + Spaces(width, |body|) else Spaces(width, |body|) + body
  }

  predicate IsSign(c: char) { c == '-' || c == '+' || c == ' ' }

  /** What _ntoa_format is given: flags as _vsnprintf leaves them, no # flag, and
      no leading zero ahead of a precision. */
  predicate Conversion(rev: Text, prec: nat, f: Flags) {
    && |rev| <= NTOA_BUFFER_SIZE && !f.hash && (forall i :: 0 <= i < |rev| ==> !IsSign(rev[i]))
    && (if f.precision then !f.zeropad && (rev != "" ==> rev[|rev| - 1] != '0') else prec == 0)
  }

  /** When the code agrees: it never extends with zeros to the left of left
      justified output, and sign, zeros and digits must fit its buffer, unless
      all that is lost is a blank that padding happens to replace. */
  predicate UnmarkedAgrees(rev: Text, negative: bool, prec: nat, width: nat, f: Flags) {
    var n := |UnmarkedBody(rev, negative, prec, width, f)|;
    && !(f.left && |rev| < prec)
    && (n <= NTOA_BUFFER_SIZE
        || (n == NTOA_BUFFER_SIZE + 1 <= width && Sign(negative, f) == " " && !f.left && !f.zeropad))
  }

  lemma {:induction false} ReverseAppend(t: Text, c: char)
    ensures Reverse(t + [c]) == [c] + Reverse(t)
  {}

  lemma {:induction false} ReverseZeros(t: Text, n: nat)
    ensures Reverse(t + Repeat('0', n)) == Repeat('0', n) + Reverse(t)
  {}

  /** The zeros the code adds are the standard's, up to the end of its buffer. */
  lemma {:induction false} ZerosAgree(rev: Text, negative: bool, prec: nat, width: nat, f: Flags)
    requires Conversion(rev, prec, f) && !(f.left && |rev| < prec)
    ensures var k := Zeros(|rev|, |Sign(negative, f)|, prec, width, f);
            Zeroed(rev, negative, prec, width, f) == rev + Repeat('0', Min(k, NTOA_BUFFER_SIZE - |rev|))
  {
    assert rev + Repeat('0', 0) == rev;
    assert Signed(f, negative) <==> |Sign(negative, f)| == 1;
  }

  /** The body the code builds: the standard's, if that fits. */
  lemma {:induction false} BodyFits(rev: Text, negative: bool, prec: nat, width: nat, f: Flags, base: nat)
    requires Conversion(rev, prec, f) && !(f.left && |rev| < prec)
    requires |UnmarkedBody(rev, negative, prec, width, f)| <= NTOA_BUFFER_SIZE
    ensures Reverse(Body(rev, negative, base, prec, width, f)) == UnmarkedBody(rev, negative, prec, width, f)
  {
    var sign := Sign(negative, f);
    var k := Zeros(|rev|, |sign|, prec, width, f);
    var z := rev + Repeat('0', k);
    ZerosAgree(rev, negative, prec, width, f);
    BodyIs(rev, negative, base, prec, width, f, z);
    SignAgrees(z, negative, f);
    ReverseZeros(rev, k);
    Regroup(sign, Repeat('0', k), Reverse(rev));
  }

  lemma BodyIs(rev: Text, negative: bool, base: nat, prec: nat, width: nat, f: Flags, z: Text)
    requires !f.hash && Zeroed(rev, negative, prec, width, f) == z
    ensures Body(rev, negative, base, prec, width, f) == SignMark(z, negative, f)
  {}

  lemma {:induction false} SignAgrees(z: Text, negative: bool, f: Flags)
    requires |z| + |Sign(negative, f)| <= NTOA_BUFFER_SIZE
    ensures Reverse(SignMark(z, negative, f)) == Sign(negative, f) + Reverse(z)
  {
    var sign := Sign(negative, f);
    if sign == "" {
      assert sign + Reverse(z) == Reverse(z);
    } else {
      assert sign == [sign[0]];
      ReverseAppend(z, sign[0]);
    }
  }

  lemma SameWidth(negative: bool, width: nat, f: Flags)
    requires f.left || !f.zeropad
    ensures NarrowedWidth(negative, width, f) == width
  {}

  lemma {:induction false} AgreesIfFits(rev: Text, negative: bool, prec: nat, width: nat, f: Flags, base: nat)
    requires Conversion(rev, prec, f) && !(f.left && |rev| < prec)
    requires |UnmarkedBody(rev, negative, prec, width, f)| <= NTOA_BUFFER_SIZE
    ensures Formatted(rev, negative, base, prec, width, f) == UnmarkedText(rev, negative, prec, width, f)
  {
    BodyFits(rev, negative, prec, width, f, base);
    var b, t := Body(rev, negative, base, prec, width, f), UnmarkedBody(rev, negative, prec, width, f);
    assert |b| == |t|;
    Emptys(t);
    Emptys(Spaces(width, |t|) + t);
    if f.left || !f.zeropad {
      SameWidth(negative, width, f);
    } else {
      assert Spaces(width, |t|) == "";
    }
  }

  /** Where sign, zeros and digits do not fit, the code keeps the first 32 digits
      and zeros from the right and drops the sign. */
  lemma {:induction false} BodyFull(rev: Text, negative: bool, prec: nat, width: nat, f: Flags, base: nat)
    requires Conversion(rev, prec, f) && !(f.left && |rev| < prec)
    requires |UnmarkedBody(rev, negative, prec, width, f)| > NTOA_BUFFER_SIZE
    requires f.left || !f.zeropad
    ensures Body(rev, negative, base, prec, width, f) == rev + Repeat('0', NTOA_BUFFER_SIZE - |rev|)
  {
    ZerosAgree(rev, negative, prec, width, f);
    BodyIs(rev, negative, base, prec, width, f, rev + Repeat('0', NTOA_BUFFER_SIZE - |rev|));
  }

  lemma {:induction false} AgreesIfBlankLost(rev: Text, negative: bool, prec: nat, width: nat, f: Flags, base: nat)
    requires Conversion(rev, prec, f) && !f.left && !f.zeropad && Sign(negative, f) == " "
    requires |UnmarkedBody(rev, negative, prec, width, f)| == NTOA_BUFFER_SIZE + 1 <= width
    ensures Formatted(rev, negative, base, prec, width, f) == UnmarkedText(rev, negative, prec, width, f)
  {
    BodyFull(rev, negative, prec, width, f, base);
    SameWidth(negative, width, f);
    var k := NTOA_BUFFER_SIZE - |rev|;
    ReverseZeros(rev, k);
    var zeros, digits := Repeat('0', k), Reverse(rev);
    var pad := Spaces(width, NTOA_BUFFER_SIZE + 1);
    assert Spaces(width, NTOA_BUFFER_SIZE) == pad + " ";
    Regroup(pad, " ", zeros + digits);
    Regroup(" ", zeros, digits);
    assert pad + " " + (zeros + digits) + "" == pad + " " + (zeros + digits);
  }

  /** - with a precision that asks for zeros: the code leaves them out. */
  lemma {:induction false} DiffersIfLeftZeros(rev: Text, negative: bool, prec: nat, width: nat, f: Flags, base: nat)
    requires Conversion(rev, prec, f) && f.left && |rev| < prec
    ensures Formatted(rev, negative, base, prec, width, f) != UnmarkedText(rev, negative, prec, width, f)
  {
    var sign := Sign(negative, f);
    var code, std := Formatted(rev, negative, base, prec, width, f), UnmarkedText(rev, negative, prec, width, f);
    SameWidth(negative, width, f);
    BodyIs(rev, negative, base, prec, width, f, rev);
    assert std[|sign|] == '0';
    if |rev| + |sign| <= NTOA_BUFFER_SIZE {
      SignAgrees(rev, negative, f);
      assert code == (sign + Reverse(rev)) + Spaces(width, |sign| + |rev|);
      assert rev != "" ==> code[|sign|] == rev[|rev| - 1];
      assert rev == "" && |sign| < |code| ==> code[|sign|] == ' ';
    } else {
      assert code == Reverse(rev) + Spaces(width, |rev|);
      assert code[0] == rev[|rev| - 1];
      assert std[0] == sign[0];
    }
  }

  lemma {:induction false} DiffersIfSignLost(rev: Text, negative: bool, prec: nat, width: nat, f: Flags, base: nat)
    requires Conversion(rev, prec, f) && f.left && !(|rev| < prec)
    requires |UnmarkedBody(rev, negative, prec, width, f)| > NTOA_BUFFER_SIZE
    ensures Formatted(rev, negative, base, prec, width, f) != UnmarkedText(rev, negative, prec, width, f)
  {
    var sign := Sign(negative, f);
    var code, std := Formatted(rev, negative, base, prec, width, f), UnmarkedText(rev, negative, prec, width, f);
    SameWidth(negative, width, f);
    BodyFull(rev, negative, prec, width, f, base);
    assert rev + Repeat('0', 0) == rev;
    assert code == Reverse(rev) + Spaces(width, |rev|);
    assert code[0] == rev[|rev| - 1] && std[0] == sign[0];
  }

  lemma {:induction false} DiffersIfTooWide(rev: Text, negative: bool, prec: nat, width: nat, f: Flags, base: nat)
    requires Conversion(rev, prec, f) && !f.left && !f.zeropad
    requires var n := |UnmarkedBody(rev, negative, prec, width, f)|;
             n > NTOA_BUFFER_SIZE && !(n == NTOA_BUFFER_SIZE + 1 <= width && Sign(negative, f) == " ")
    ensures Formatted(rev, negative, base, prec, width, f) != UnmarkedText(rev, negative, prec, width, f)
  {
    var sign, body := Sign(negative, f), UnmarkedBody(rev, negative, prec, width, f);
    var n := |body|;
    var code, std := Formatted(rev, negative, base, prec, width, f), UnmarkedText(rev, negative, prec, width, f);
    SameWidth(negative, width, f);
    BodyFull(rev, negative, prec, width, f, base);
    var full := rev + Repeat('0', NTOA_BUFFER_SIZE - |rev|);
    assert code == Spaces(width, NTOA_BUFFER_SIZE) + Reverse(full) + "";
    assert std == Spaces(width, n) + body;
    if width >= n {
      // the first character of the body that is not a blank falls on padding
      var at := if sign == " " then 1 else 0;
      assert body[at] != ' ';
      assert std[width - n + at] == body[at];
      assert code[width - n + at] == ' ';
    } else {
      assert |code| < n == |std|;
    }
  }

  lemma {:induction false} DiffersIfZerosCut(rev: Text, negative: bool, prec: nat, width: nat, f: Flags, base: nat)
    requires Conversion(rev, prec, f) && !f.left && f.zeropad
    requires |UnmarkedBody(rev, negative, prec, width, f)| > NTOA_BUFFER_SIZE
    ensures Formatted(rev, negative, base, prec, width, f) != UnmarkedText(rev, negative, prec, width, f)
  {
    ZerosAgree(rev, negative, prec, width, f);
    BodyIs(rev, negative, base, prec, width, f, Zeroed(rev, negative, prec, width, f));
    assert |Body(rev, negative, base, prec, width, f)| <= NTOA_BUFFER_SIZE;
  }

  /** Exactly when _ntoa_format without marker produces that layout. */
  lemma {:induction false} UnmarkedIff(rev: Text, negative: bool, prec: nat, width: nat, f: Flags, base: nat)
    requires Conversion(rev, prec, f)
    ensures Formatted(rev, negative, base, prec, width, f) == UnmarkedText(rev, negative, prec, width, f)
            <==> UnmarkedAgrees(rev, negative, prec, width, f)
  {
    if f.left && |rev| < prec {
      DiffersIfLeftZeros(rev, negative, prec, width, f, base);
    } else if |UnmarkedBody(rev, negative, prec, width, f)| <= NTOA_BUFFER_SIZE {
      AgreesIfFits(rev, negative, prec, width, f, base);
    } else if f.left {
      DiffersIfSignLost(rev, negative, prec, width, f, base);
    } else if f.zeropad {
      DiffersIfZerosCut(rev, negative, prec, width, f, base);
    } else if UnmarkedAgrees(rev, negative, prec, width, f) {
      AgreesIfBlankLost(rev, negative, prec, width, f, base);
    } else {
      DiffersIfTooWide(rev, negative, prec, width, f, base);
    }
  }

  lemma {:induction false} DigitsAreNoSigns(value: nat, base: nat, upper: bool, room: nat)
    requires 2 <= base <= 16
    ensures forall i :: 0 <= i < |RevDigits(value, base, upper, room)| ==>
              !IsSign(RevDigits(value, base, upper, room)[i])
    decreases room
  {
    if room > 0 {
      DivMod(value, base);
      if Quotient(value, base) != 0 { DigitsAreNoSigns(Quotient(value, base), base, upper, room - 1); }
    }
  }
}
