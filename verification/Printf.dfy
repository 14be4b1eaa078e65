/** printf.c on its output buffer: each routine writes what PrintfModel says, cut
    off at the size of the buffer, and counts all of it. */
module Printf {
  import opened PrintfModel
  import opened Sequences

  /** The buffer was `was` before the output `out` began; of out only what lies
      below maxlen is stored. */
  predicate Wrote(now: Text, was: Text, out: Text, maxlen: nat) {
    && |now| == |was| && maxlen <= |was|
    && forall j :: 0 <= j < |now| ==> now[j] == if j < |out| && j < maxlen then out[j] else was[j]
  }

  /** _out_buffer, called with the index of the next character. */
  method Out(character: char, buffer: array<char>, idx: nat, maxlen: nat, ghost was: Text, ghost out: Text)
    returns (next: nat)
    requires Wrote(buffer[..], was, out, maxlen) && idx == |out|
    modifies buffer
    ensures Wrote(buffer[..], was, out + [character], maxlen) && next == idx + 1
  {
    if idx < maxlen {
      buffer[idx] := character;
    }
    next := idx + 1;
  }

  lemma RepeatMore(out: Text, c: char, k: nat)
    ensures out + Repeat(c, k) + [c] == out + Repeat(c, k + 1)
  {}

  /** n blanks. */
  method OutSpaces(n: nat, buffer: array<char>, idx: nat, maxlen: nat, ghost was: Text, ghost out: Text)
    returns (next: nat)
    requires Wrote(buffer[..], was, out, maxlen) && idx == |out|
    modifies buffer
    ensures Wrote(buffer[..], was, out + Repeat(' ', n), maxlen) && next == idx + n
  {
    next := idx;
    assert out + Repeat(' ', 0) == out;
    for i := 0 to n
      invariant Wrote(buffer[..], was, out + Repeat(' ', i), maxlen) && next == idx + i
    {
      next := Out(' ', buffer, next, maxlen, was, out + Repeat(' ', i));
      RepeatMore(out, ' ', i);
    }
  }

  /** The loop of _out_rev over the string. */
  method OutReversed(buffer: array<char>, idx: nat, maxlen: nat, buf: array<char>, length: nat,
                     ghost was: Text, ghost out: Text)
    returns (next: nat)
    requires Wrote(buffer[..], was, out, maxlen) && idx == |out|
    requires buf != buffer && length <= buf.Length
    modifies buffer
    ensures Wrote(buffer[..], was, out + Reverse(buf[..length]), maxlen) && next == idx + length
  {
    next := idx;
    ghost var shown := Reverse(buf[..length]);
    var len := length;
    assert out + shown[..0] == out;
    while len > 0
      invariant 0 <= len <= length
      invariant Wrote(buffer[..], was, out + shown[..length - len], maxlen) && next == idx + (length - len)
    {
      len := len - 1;
      ghost var k := length - len - 1;
      assert buf[..length][len] == buf[len] == shown[k];
      next := Out(buf[len], buffer, next, maxlen, was, out + shown[..k]);
      assert out + shown[..k] + [shown[k]] == out + shown[..k + 1];
    }
    assert shown[..length] == shown;
  }

  /** _out_rev */
  method OutRev(buffer: array<char>, idx: nat, maxlen: nat, buf: array<char>, length: nat, width: nat, f: Flags,
                ghost was: Text, ghost out: Text)
    returns (next: nat)
    requires Wrote(buffer[..], was, out, maxlen) && idx == |out|
    requires buf != buffer && length <= buf.Length
    modifies buffer
    ensures Wrote(buffer[..], was, out + Field(buf[..length], width, f), maxlen)
    ensures next == idx + |Field(buf[..length], width, f)|
  {
    next := idx;
    ghost var shown := Reverse(buf[..length]);
    ghost var pre := if !f.left && !f.zeropad then Spaces(width, length) else "";
    ghost var post := if f.left then Spaces(width, length) else "";
    Emptys(out);
    if !f.left && !f.zeropad && length < width {
      next := OutSpaces(width - length, buffer, next, maxlen, was, out);
    }
    next := OutReversed(buffer, next, maxlen, buf, length, was, out + pre);
    Emptys(out + pre + shown);
    if f.left && next - idx < width {
      next := OutSpaces(width - (next - idx), buffer, next, maxlen, was, out + pre + shown);
    }
    Regroup(out, pre, shown);
    Regroup(out, pre + shown, post);
  }

  // ------------------------------------------------------------ number formatting

  /** while( len < n && len < PRINTF_NTOA_BUFFER_SIZE ) buf[len++] = '0' */
  method FillZeros(buf: array<char>, length: nat, n: nat) returns (len: nat)
    requires length <= buf.Length == NTOA_BUFFER_SIZE
    modifies buf
    ensures len <= NTOA_BUFFER_SIZE && buf[..len] == ZeroFill(old(buf[..length]), n)
  {
    len := length;
    ghost var start := buf[..length];
    assert start + Repeat('0', 0) == start;
    while len < n && len < NTOA_BUFFER_SIZE
      invariant length <= len <= NTOA_BUFFER_SIZE
      invariant length < len ==> len <= n
      invariant buf[..len] == start + Repeat('0', len - length)
      decreases NTOA_BUFFER_SIZE - len
    {
      RepeatMore(start, '0', len - length);
      buf[len] := '0';
      len := len + 1;
      assert buf[..len] == buf[..len - 1] + ['0'];
    }
  }

  /** if( len < PRINTF_NTOA_BUFFER_SIZE ) buf[len++] = c */
  method Put(buf: array<char>, length: nat, c: char) returns (len: nat)
    requires length <= buf.Length == NTOA_BUFFER_SIZE
    modifies buf
    ensures len <= NTOA_BUFFER_SIZE && buf[..len] == Append(old(buf[..length]), c)
  {
    len := length;
    if len < NTOA_BUFFER_SIZE {
      buf[len] := c;
      len := len + 1;
      assert buf[..len] == buf[..len - 1] + [c];
    }
  }

  /** The # flag in _ntoa_format. */
  method PutHash(buf: array<char>, length: nat, base: nat, prec: nat, width: nat, f: Flags) returns (len: nat)
    requires length <= buf.Length == NTOA_BUFFER_SIZE
    modifies buf
    ensures len <= NTOA_BUFFER_SIZE && buf[..len] == Hashed(old(buf[..length]), base, prec, width, f)
  {
    len := length;
    if f.hash {
      ghost var rev := buf[..length];
      if !f.precision && len > 0 && (len == prec || len == width) {
        len := len - 1;
        if len > 0 && base == 16 {
          len := len - 1;
        }
      }
      assert buf[..len] == HashRoom(rev, base, prec, width, f);
      if base == 16 && !f.upper {
        len := Put(buf, len, 'x');
      } else if base == 16 && f.upper {
        len := Put(buf, len, 'X');
      } else if base == 2 {
        len := Put(buf, len, 'b');
      }
      len := Put(buf, len, '0');
    }
  }

  /** The sign in _ntoa_format. */
  method PutSign(buf: array<char>, length: nat, negative: bool, f: Flags) returns (len: nat)
    requires length <= buf.Length == NTOA_BUFFER_SIZE
    modifies buf
    ensures len <= NTOA_BUFFER_SIZE && buf[..len] == SignMark(old(buf[..length]), negative, f)
  {
    len := length;
    if negative {
      len := Put(buf, len, '-');
    } else if f.plus {
      len := Put(buf, len, '+');
    } else if f.space {
      len := Put(buf, len, ' ');
    }
  }

  /** _ntoa_format */
  method NtoaFormat(buffer: array<char>, idx: nat, maxlen: nat, buf: array<char>, length: nat, negative: bool,
                    base: nat, prec: nat, fieldWidth: nat, f: Flags, ghost was: Text, ghost out: Text)
    returns (next: nat)
    requires Wrote(buffer[..], was, out, maxlen) && idx == |out|
    requires buf != buffer && length <= buf.Length == NTOA_BUFFER_SIZE
    modifies buffer, buf
    ensures var t := Formatted(old(buf[..length]), negative, base, prec, fieldWidth, f);
            Wrote(buffer[..], was, out + t, maxlen) && next == idx + |t|
  {
    var len, width := length, fieldWidth;
    ghost var rev := buf[..length];
    if !f.left {
      if width > 0 && f.zeropad && (negative || f.plus || f.space) {
        width := width - 1;
      }
      len := FillZeros(buf, len, prec);
      if f.zeropad {
        len := FillZeros(buf, len, width);
      }
    }
    assert buf[..len] == Zeroed(rev, negative, prec, fieldWidth, f);
    len := PutHash(buf, len, base, prec, width, f);
    len := PutSign(buf, len, negative, f);
    assert buf[..len] == Body(rev, negative, base, prec, fieldWidth, f);
    next := OutRev(buffer, idx, maxlen, buf, len, width, f, was, out);
  }

  /** The digit loop of _ntoa_long. */
  method StoreDigits(buf: array<char>, number: nat, base: nat, upper: bool) returns (len: nat)
    requires buf.Length == NTOA_BUFFER_SIZE && 2 <= base <= 16
    modifies buf
    ensures len <= NTOA_BUFFER_SIZE && buf[..len] == RevDigits(number, base, upper, NTOA_BUFFER_SIZE)
  {
    len := 0;
    var value, more := number, true;
    assert buf[..0] + Rest(number, base, upper, NTOA_BUFFER_SIZE, true)
        == RevDigits(number, base, upper, NTOA_BUFFER_SIZE);
    while more
      invariant len <= NTOA_BUFFER_SIZE && (more ==> len < NTOA_BUFFER_SIZE)
      invariant buf[..len] + Rest(value, base, upper, NTOA_BUFFER_SIZE - len, more)
             == RevDigits(number, base, upper, NTOA_BUFFER_SIZE)
      decreases NTOA_BUFFER_SIZE - len
    {
      var digit := Remainder(value, base);
      ghost var stored := buf[..len];
      DigitStep(stored, value, base, upper, NTOA_BUFFER_SIZE - len);
      buf[len] := DigitChar(digit, upper);
      len := len + 1;
      value := Quotient(value, base);
      more := value != 0 && len < NTOA_BUFFER_SIZE;
      assert buf[..len] == stored + [DigitChar(digit, upper)];
    }
    assert buf[..len] + "" == buf[..len];
  }

  /** _ntoa_long, and _ntoa_long_long, which differs in the type of value only. */
  method Ntoa(buffer: array<char>, idx: nat, maxlen: nat, number: nat, negative: bool,
              base: nat, prec: nat, width: nat, given: Flags, ghost was: Text, ghost out: Text)
    returns (next: nat)
    requires Wrote(buffer[..], was, out, maxlen) && idx == |out|
    requires 2 <= base <= 16
    modifies buffer
    ensures var t := Number(number, negative, base, prec, width, given);
            Wrote(buffer[..], was, out + t, maxlen) && next == idx + |t|
  {
    var buf := new char[NTOA_BUFFER_SIZE];
    var len, f := 0, given;
    if number == 0 {
      f := f.(hash := false);
    }
    if !f.precision || number != 0 {
      len := StoreDigits(buf, number, base, f.upper);
    }
    assert buf[..len] == Digits(number, base, f);
    next := NtoaFormat(buffer, idx, maxlen, buf, len, negative, base, prec, width, f, was, out);
  }

  /** The digits still to come. */
  function Rest(value: nat, base: nat, upper: bool, room: nat, more: bool): Text
    requires 2 <= base <= 16
  {
    if more then RevDigits(value, base, upper, room) else ""
  }

  lemma DigitStep(stored: Text, v: nat, base: nat, upper: bool, room: nat)
    requires 2 <= base <= 16 && room > 0
    ensures var rest := Quotient(v, base);
            stored + Rest(v, base, upper, room, true)
            == stored + [DigitChar(Remainder(v, base), upper)]
               + Rest(rest, base, upper, room - 1, rest != 0 && room > 1)
  {
    var rest := Quotient(v, base);
    if room == 1 && rest != 0 {
      assert RevDigits(rest, base, upper, 0) == "";
    }
    Regroup(stored, [DigitChar(Remainder(v, base), upper)], Rest(rest, base, upper, room - 1, rest != 0 && room > 1));
  }
}
