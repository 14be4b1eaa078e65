/** _vsnprintf: the format loop over the routines of Printf. */
module PrintfDriver {
  import opened Options
  import opened Numbers
  import opened PrintfModel
  import opened Printf
  import opened Sequences

  predicate AllValid(args: seq<Arg>) {
    forall i :: 0 <= i < |args| ==> ValidArg(args[i])
  }

  /** The flags loop. */
  method EvaluateFlags(fmt: Text, start: nat) returns (f: Flags, i: nat)
    ensures (f, i) == ParseFlags(fmt, start, NO_FLAGS)
  {
    f, i := NO_FLAGS, start;
    while IsFlag(At(fmt, i))
      invariant ParseFlags(fmt, start, NO_FLAGS) == ParseFlags(fmt, i, f)
      decreases if i < |fmt| then |fmt| - i else 0
    {
      f, i := WithFlag(f, fmt[i]), i + 1;
    }
  }

  /** _atoi */
  method ReadNumber(fmt: Text, start: nat) returns (value: nat, i: nat)
    ensures (value, i) == Atoi(fmt, start, 0)
  {
    value, i := 0, start;
    while IsDigit(At(fmt, i))
      invariant Atoi(fmt, start, 0) == Atoi(fmt, i, value)
      decreases if i < |fmt| then |fmt| - i else 0
    {
      value, i := (value * 10 + (fmt[i] - '0') as nat) % WORD, i + 1;
    }
  }

  method EvaluateWidth(fmt: Text, s: Spot) returns (r: Option<Spot>)
    requires AllValid(s.args)
    ensures r == ParseWidth(fmt, s)
    ensures r.Some? ==> AllValid(r.value.args)
  {
    if IsDigit(At(fmt, s.i)) {
      var width, i := ReadNumber(fmt, s.i);
      r := Some(s.(width := width, i := i));
    } else if At(fmt, s.i) == '*' {
      if s.args == [] || !s.args[0].Word? {
        return None;
      }
      var w := AsInt(s.args[0].w, WORD);
      if w == -0x8000_0000 {
        return None;
      }
      var f := s.f;
      if w < 0 {
        f, w := f.(left := true), -w;
      }
      r := Some(s.(f := f, width := w, i := s.i + 1, args := s.args[1..]));
    } else {
      r := Some(s);
    }
  }

  method EvaluatePrecision(fmt: Text, s: Spot) returns (r: Option<Spot>)
    requires AllValid(s.args)
    ensures r == ParsePrecision(fmt, s)
    ensures r.Some? ==> AllValid(r.value.args)
  {
    if At(fmt, s.i) != '.' {
      return Some(s);
    }
    var t := s.(f := s.f.(precision := true), i := s.i + 1);
    if IsDigit(At(fmt, t.i)) {
      var prec, i := ReadNumber(fmt, t.i);
      t := t.(prec := prec, i := i);
    } else if At(fmt, t.i) == '*' {
      if t.args == [] || !t.args[0].Word? {
        return None;
      }
      var prec := AsInt(t.args[0].w, WORD);
      t := t.(prec := if prec > 0 then prec else 0, i := t.i + 1, args := t.args[1..]);
    }
    r := Some(t);
  }

  /** The %c conversion. */
  method OutChar(w: nat, width: nat, f: Flags, buffer: array<char>, idx: nat, maxlen: nat,
                 ghost was: Text, ghost out: Text)
    returns (next: nat)
    requires Wrote(buffer[..], was, out, maxlen) && idx == |out|
    modifies buffer
    ensures var t := CharText(w, width, f);
            Wrote(buffer[..], was, out + t, maxlen) && next == idx + |t|
  {
    next := OutPadded([(w % 0x100) as char], width, f, buffer, idx, maxlen, was, out);
  }

  /** Pads text to the width on one side: the shape shared by %c and %s. */
  method OutPadded(text: Text, width: nat, f: Flags, buffer: array<char>, idx: nat, maxlen: nat,
                   ghost was: Text, ghost out: Text)
    returns (next: nat)
    requires Wrote(buffer[..], was, out, maxlen) && idx == |out|
    modifies buffer
    ensures var t := Padded(text, |text|, width, f);
            Wrote(buffer[..], was, out + t, maxlen) && next == idx + |t|
  {
    next := idx;
    ghost var pad := Spaces(width, |text|);
    ghost var pre := if f.left then "" else pad;
    ghost var post := if f.left then pad else "";
    assert out + "" == out;
    if !f.left && |text| < width {
      next := OutSpaces(width - |text|, buffer, next, maxlen, was, out);
    }
    var p := 0;
    assert out + pre + text[..0] == out + pre;
    while p < |text|
      invariant p <= |text|
      invariant Wrote(buffer[..], was, out + pre + text[..p], maxlen) && next == |out + pre| + p
    {
      next := Out(text[p], buffer, next, maxlen, was, out + pre + text[..p]);
      assert out + pre + text[..p] + [text[p]] == out + pre + text[..p + 1];
      p := p + 1;
    }
    assert text[..p] == text;
    ghost var shown := out + pre + text;
    assert shown + "" == shown;
    if f.left && |text| < width {
      next := OutSpaces(width - |text|, buffer, next, maxlen, was, shown);
    }
    assert shown + post == out + (pre + text + post);
  }

  /** The %s conversion: _strnlen_s, then as many characters as the precision
      allows. */
  method OutString(s: Text, width: nat, prec: nat, f: Flags, buffer: array<char>, idx: nat, maxlen: nat,
                   ghost was: Text, ghost out: Text)
    returns (next: nat)
    requires Wrote(buffer[..], was, out, maxlen) && idx == |out| && |s| < WORD
    modifies buffer
    ensures var t := StringText(s, width, prec, f);
            Wrote(buffer[..], was, out + t, maxlen) && next == idx + |t|
  {
    var l := 0;
    var maxsize := if prec > 0 then prec else WORD - 1;
    while l < |s| && l < maxsize
      invariant l <= |s| && l <= maxsize
    {
      l := l + 1;
    }
    if f.precision {
      l := if l < prec then l else prec;
    }
    assert f.precision ==> l == Min(|s|, prec);
    next := OutPadded(if f.precision then s[..l] else s, width, f, buffer, idx, maxlen, was, out);
  }

  /** Evaluates the specifier c of a directive. */
  method DoConversion(c: char, s: Spot, buffer: array<char>, idx: nat, maxlen: nat, ghost was: Text, ghost out: Text)
    returns (ok: bool, rest: seq<Arg>, next: nat)
    requires Wrote(buffer[..], was, out, maxlen) && idx == |out|
    requires AllValid(s.args)
    modifies buffer
    ensures ok <==> Convert(c, s).Some?
    ensures ok ==> var (t, r) := Convert(c, s).value;
                   Wrote(buffer[..], was, out + t, maxlen) && next == idx + |t| && rest == r
    ensures AllValid(rest)
  {
    ok, rest, next := true, s.args, idx;
    if IsInteger(c) || c == 'c' || c == 's' || c == 'p' {
      if s.args == [] {
        return false, rest, next;
      }
      var a := s.args[0];
      rest := s.args[1..];
      if IsInteger(c) {
        match IntegerValue(c, s.f, a)
        case None =>
          ok := false;
        case Some(v) =>
          next := Ntoa(buffer, idx, maxlen, Abs(v), v < 0, Base(c), s.prec, s.width, IntegerFlags(c, s.f), was, out);
      } else if c == 's' {
        if a.Str? {
          next := OutString(a.s, s.width, s.prec, s.f, buffer, idx, maxlen, was, out);
        } else {
          ok := false;
        }
      } else if !a.Word? {
        ok := false;
      } else if c == 'c' {
        next := OutChar(a.w, s.width, s.f, buffer, idx, maxlen, was, out);
      } else {
        next := Ntoa(buffer, idx, maxlen, a.w, false, 16, s.prec, 8, s.f.(zeropad := true, upper := true), was, out);
      }
    } else if IsFloat(c) {
      ok := false;
    } else {
      next := Out(c, buffer, idx, maxlen, was, out);
    }
  }

  /** Everything after a % up to the end of its directive. */
  method DoDirective(fmt: Text, start: nat, args: seq<Arg>, buffer: array<char>, idx: nat, maxlen: nat,
                     ghost was: Text, ghost out: Text)
    returns (ok: bool, i: nat, rest: seq<Arg>, next: nat)
    requires Wrote(buffer[..], was, out, maxlen) && idx == |out|
    requires AllValid(args)
    modifies buffer
    ensures ok <==> Directive(fmt, start, args).Some?
    ensures ok ==> var d := Directive(fmt, start, args).value;
                   Wrote(buffer[..], was, out + d.0, maxlen) && next == idx + |d.0| && i == d.1 && rest == d.2
    ensures AllValid(rest)
  {
    ok, i, rest, next := false, start, args, idx;
    var f, j := EvaluateFlags(fmt, start);
    var s1 := EvaluateWidth(fmt, Spot(f, 0, 0, j, args));
    if s1.None? {
      return;
    }
    var s2 := EvaluatePrecision(fmt, s1.value);
    if s2.None? {
      return;
    }
    var s := ParseLength(fmt, s2.value);
    if s.i >= |fmt| {
      return;
    }
    ok, rest, next := DoConversion(fmt[s.i], s, buffer, idx, maxlen, was, out);
    i := s.i + 1;
  }

  /** Prints what has been put out so far followed by the rest. */
  lemma ConsCons(out: Text, t: Text, rest: Option<Text>)
    ensures Cons(out, Cons(t, rest)) == Cons(out + t, rest)
  {
    if rest.Some? { Regroup(out, t, rest.value); }
  }

  /** The buffer holds as much of the text as fits with a NUL, and is untouched
      past the NUL; one of size zero is untouched altogether. */
  predicate HoldsPrefix(now: Text, was: Text, text: Text, maxlen: nat) {
    && |now| == |was| && maxlen <= |now|
    && if maxlen == 0 then now == was
       else
         var k := Min(|text|, maxlen - 1);
         now[..k] == text[..k] && now[k] == '\0' && now[k + 1..] == was[k + 1..]
  }

  /** The terminator. */
  method Terminate(buffer: array<char>, idx: nat, maxlen: nat, ghost was: Text, ghost out: Text)
    requires Wrote(buffer[..], was, out, maxlen) && idx == |out|
    modifies buffer
    ensures HoldsPrefix(buffer[..], was, out, maxlen)
  {
    if maxlen > 0 {
      buffer[if idx < maxlen then idx else maxlen - 1] := '\0';
    }
  }

  /** _vsnprintf with _out_buffer.  Whatever the size of the buffer, n is the
      length of the whole output, and the buffer holds its beginning.  A null
      buffer is one of size zero. */
  method Vsnprintf(buffer: array<char>, maxlen: nat, fmt: Text, args: seq<Arg>) returns (ok: bool, n: nat)
    requires maxlen <= buffer.Length && NoNul(fmt) && AllValid(args)
    modifies buffer
    ensures ok <==> Render(fmt, 0, args).Some?
    ensures ok ==> n == |Render(fmt, 0, args).value|
    ensures ok ==> HoldsPrefix(buffer[..], old(buffer[..]), Render(fmt, 0, args).value, maxlen)
  {
    ghost var was, out := buffer[..], "";
    var format, left, idx := 0, args, 0;
    ConsNothing(Render(fmt, 0, args));
    while format < |fmt|
      invariant format <= |fmt| && idx == |out|
      invariant Wrote(buffer[..], was, out, maxlen)
      invariant AllValid(left)
      invariant Render(fmt, 0, args) == Cons(out, Render(fmt, format, left))
      decreases |fmt| - format
    {
      if fmt[format] != '%' {
        ConsCons(out, [fmt[format]], Render(fmt, format + 1, left));
        idx := Out(fmt[format], buffer, idx, maxlen, was, out);
        out := out + [fmt[format]];
        format := format + 1;
      } else {
        var good, i, rest, next := DoDirective(fmt, format + 1, left, buffer, idx, maxlen, was, out);
        if !good {
          return false, idx;
        }
        ghost var d := Directive(fmt, format + 1, left).value;
        ConsCons(out, d.0, Render(fmt, i, rest));
        out := out + d.0;
        format, left, idx := i, rest, next;
      }
    }
    assert out + "" == out;
    ok, n := true, idx;
    Terminate(buffer, idx, maxlen, was, out);
  }

  lemma ConsNothing(r: Option<Text>)
    ensures Cons("", r) == r
  {
    if r.Some? { assert "" + r.value == r.value; }
  }
}
