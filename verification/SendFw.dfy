/** The firmware transfer of deltaupgmcu.py (sendfw). */
module SendFw {
  import opened Sequences

  type Byte = b: int | 0 <= b < 256

  const INTERM_SIZE: nat := 256

  /** The commands sent over the serial line: the interim map, then chunks of the
      image; more is the digit after "WRITE", and size counts hex digits. */
  datatype Command =
    | ConfigurePartition(map_: string)
    | Write(more: bool, size: nat, digits: string)

  /** Accepted is the truthy last reply; TypeError the exception raised when the
      message about a small file is put together; the code returns -1 for
      MapRefused and 0 for the other two. */
  datatype Result = TypeError | MapRefused | WrongSize | WriteRefused | Accepted

  // ------------------------------------------------------------------------ hex

  function HexDigit(n: nat): char
    requires n < 16
  {
    if n < 10 then '0' + n as char else 'a' + (n - 10) as char
  }

  function HexValue(c: char): nat {
    if '0' <= c <= '9' then (c - '0') as nat else if 'a' <= c <= 'f' then (c - 'a') as nat + 10 else 0
  }

  /** binascii.hexlify */
  function Hexlify(data: seq<Byte>): string {
    if data == [] then "" else [HexDigit(data[0] / 16), HexDigit(data[0] % 16)] + Hexlify(data[1..])
  }

  function Unhexlify(s: string): seq<nat> {
    if |s| < 2 then [] else [16 * HexValue(s[0]) + HexValue(s[1])] + Unhexlify(s[2..])
  }

  lemma {:induction false} HexRoundTrip(data: seq<Byte>)
    ensures |Hexlify(data)| == 2 * |data| && Unhexlify(Hexlify(data)) == data
  {
    if data != [] {
      HexRoundTrip(data[1..]);
      var s := Hexlify(data);
      assert s[2..] == Hexlify(data[1..]);
      assert s[0] == HexDigit(data[0] / 16) && s[1] == HexDigit(data[0] % 16);
      assert HexValue(s[0]) == data[0] / 16 && HexValue(s[1]) == data[0] % 16;
    }
  }

  // --------------------------------------------------------------------- chunks

  function Chunks(data: seq<Byte>, size: nat): seq<seq<Byte>>
    requires 0 < size
    decreases |data|
  {
    if |data| <= size then [data] else [data[..size]] + Chunks(data[size..], size)
  }

  function WriteOf(chunk: seq<Byte>, more: bool): Command {
    Write(more, 2 * |chunk|, Hexlify(chunk))
  }

  /** The commands for a transfer in chunks: all but the last announce more. */
  function Writes(chunks: seq<seq<Byte>>): seq<Command> {
    if chunks == [] then [] else [WriteOf(chunks[0], |chunks| > 1)] + Writes(chunks[1..])
  }

  /** What a receiver of the commands puts together. */
  function Received(commands: seq<Command>): seq<nat> {
    if commands == [] then []
    else (if commands[0].Write? then Unhexlify(commands[0].digits) else []) + Received(commands[1..])
  }

  function Concat(chunks: seq<seq<Byte>>): seq<Byte> {
    if chunks == [] then [] else chunks[0] + Concat(chunks[1..])
  }

  lemma {:induction false} ChunksConcat(data: seq<Byte>, size: nat)
    requires 0 < size
    ensures Concat(Chunks(data, size)) == data
    decreases |data|
  {
    if |data| <= size {
      assert Concat([data]) == data + Concat([data][1..]);
    } else {
      ChunksConcat(data[size..], size);
      assert Chunks(data, size)[1..] == Chunks(data[size..], size);
    }
  }

  /** Every chunk but the last is full; the last is not empty. */
  lemma {:induction false} ChunkSizes(data: seq<Byte>, size: nat, i: nat)
    requires 0 < size && data != [] && i < |Chunks(data, size)|
    ensures var cs := Chunks(data, size);
            if i < |cs| - 1 then |cs[i]| == size else 0 < |cs[i]| <= size
    decreases |data|
  {
    if |data| > size && i > 0 {
      ChunkSizes(data[size..], size, i - 1);
    }
  }

  lemma {:induction false} WritesCarry(chunks: seq<seq<Byte>>)
    ensures |Writes(chunks)| == |chunks| && Received(Writes(chunks)) == Concat(chunks)
    ensures forall i :: 0 <= i < |chunks| ==> Writes(chunks)[i] == WriteOf(chunks[i], i < |chunks| - 1)
  {
    if chunks != [] {
      WritesCarry(chunks[1..]);
      HexRoundTrip(chunks[0]);
      var w, rest := WriteOf(chunks[0], |chunks| > 1), Writes(chunks[1..]);
      assert ([w] + rest)[1..] == rest;
      forall i | 0 <= i < |chunks|
        ensures Writes(chunks)[i] == WriteOf(chunks[i], i < |chunks| - 1)
      {
        if i > 0 { assert Writes(chunks)[i] == rest[i - 1]; }
      }
    }
  }

  /** The commands the code would send for the image after the interim map. */
  function Plan(file: seq<Byte>, size: nat): seq<Command>
    requires 0 < size && INTERM_SIZE < |file|
  {
    Writes(Chunks(file[INTERM_SIZE..], size))
  }

  /** A complete transfer delivers the image, byte for byte; exactly its last
      command says that nothing follows, and each says how many digits it has. */
  lemma {:induction false} PlanDelivers(file: seq<Byte>, size: nat)
    requires 0 < size && INTERM_SIZE < |file|
    ensures Received(Plan(file, size)) == file[INTERM_SIZE..]
    ensures |Plan(file, size)| > 0
    ensures forall i :: 0 <= i < |Plan(file, size)| ==>
              Plan(file, size)[i].Write? && (Plan(file, size)[i].more <==> i < |Plan(file, size)| - 1)
    ensures forall i :: 0 <= i < |Plan(file, size)| ==>
              0 < Plan(file, size)[i].size == |Plan(file, size)[i].digits| <= 2 * size
  {
    var chunks := Chunks(file[INTERM_SIZE..], size);
    ChunksConcat(file[INTERM_SIZE..], size);
    WritesCarry(chunks);
    forall i | 0 <= i < |Plan(file, size)|
      ensures 0 < Plan(file, size)[i].size == |Plan(file, size)[i].digits| <= 2 * size
    {
      ChunkSizes(file[INTERM_SIZE..], size, i);
      HexRoundTrip(chunks[i]);
    }
  }

  // --------------------------------------------------------------------- sendfw

  /** What is left to send from an offset on. */
  function Left(file: seq<Byte>, offset: nat, size: nat): seq<Command>
    requires 0 < size && offset <= |file|
  {
    if offset < |file| then Writes(Chunks(file[offset..], size)) else []
  }

  /** The loop of sendfw: stops at the first command that is not acknowledged. */
  method SendChunks(file: seq<Byte>, size: nat, replies: nat -> bool) returns (ok: bool, log: seq<Command>)
    requires 0 < size && INTERM_SIZE < |file|
    ensures var plan := Plan(file, size);
            && 0 < |log| <= |plan| && log == plan[..|log|]
            && (forall i :: 0 < i < |log| ==> replies(i))
            && (replies(|log|) <==> ok) && (ok ==> log == plan)
  {
    ok, log := true, [];
    var filesize, offset := |file|, INTERM_SIZE;
    var nextpos, sendSize := offset, size;
    ghost var plan, left := Plan(file, size), Left(file, offset, size);
    assert [] + left == plan;
    while offset < filesize
      invariant INTERM_SIZE <= offset <= filesize && ok
      invariant offset < filesize ==> nextpos == offset && sendSize == size
      invariant log == [] <==> offset == INTERM_SIZE
      invariant left == Left(file, offset, size) && log + left == plan
      invariant forall i :: 0 < i <= |log| ==> replies(i)
      decreases filesize - offset
    {
      nextpos := nextpos + sendSize;
      if nextpos > filesize {
        sendSize := filesize - offset;
      }
      var buf := file[offset..offset + sendSize];
      var command := Write(nextpos < filesize, sendSize * 2, Hexlify(buf));
      ghost var after := Left(file, offset + sendSize, size);
      NextWrite(file, offset, size, sendSize, log, command);
      offset, left := offset + sendSize, after;
      log := log + [command];
      if !replies(|log|) {
        assert log == plan[..|log|];
        return false, log;
      }
    }
    assert log + [] == log;
  }

  /** Sends the interim map, then the rest of the file in chunks of half of
      chunksize bytes.  replies(k) says whether the k-th command is acknowledged
      within its retries. */
  method Send(chunksize: nat, file: seq<Byte>, replies: nat -> bool) returns (result: Result, log: seq<Command>)
    requires 2 <= chunksize
    ensures result == TypeError <==> |file| <= INTERM_SIZE
    ensures result == TypeError ==> log == []
    ensures result != TypeError ==> log != [] && log[0] == ConfigurePartition(Hexlify(file[..INTERM_SIZE]))
    ensures result == MapRefused <==> |file| > INTERM_SIZE && !replies(0)
    ensures result == WrongSize <==> |file| == INTERM_SIZE + 1 && replies(0)
    ensures result == MapRefused || result == WrongSize ==> |log| == 1
    ensures result == WriteRefused || result == Accepted ==>
              && 2 <= |log| <= 1 + |Plan(file, chunksize / 2)|
              && log[1..] == Plan(file, chunksize / 2)[..|log| - 1]
              && (forall i :: 0 <= i < |log| - 1 ==> replies(i))
              && (replies(|log| - 1) <==> result == Accepted)
    ensures result == Accepted ==>
              log[1..] == Plan(file, chunksize / 2) && Received(log[1..]) == file[INTERM_SIZE..]
  {
    if |file| <= INTERM_SIZE {
      return TypeError, [];
    }
    log := [ConfigurePartition(Hexlify(file[..INTERM_SIZE]))];
    if !replies(0) {
      return MapRefused, log;
    }
    if |file| - INTERM_SIZE < 2 {
      return WrongSize, log;
    }
    var ok, writes := SendChunks(file, chunksize / 2, replies);
    PlanDelivers(file, chunksize / 2);
    log := log + writes;
    assert log[1..] == writes;
    result := if ok then Accepted else WriteRefused;
  }

  /** The next command for what is left of the file. */
  lemma {:induction false} NextWrite(file: seq<Byte>, offset: nat, size: nat, n: nat, log: seq<Command>, c: Command)
    requires 0 < size && offset < |file|
    requires n == if offset + size > |file| then |file| - offset else size
    requires c == WriteOf(file[offset..offset + n], offset + size < |file|)
    ensures log + Left(file, offset, size) == (log + [c]) + Left(file, offset + n, size)
  {
    var data := file[offset..];
    if |data| <= size {
      assert data == file[offset..offset + n];
      assert Writes([data]) == [WriteOf(data, false)] + Writes([data][1..]);
    } else {
      assert data[..size] == file[offset..offset + n] && data[size..] == file[offset + n..];
      var rest := Chunks(data[size..], size);
      assert rest != [];
      assert ([data[..size]] + rest)[1..] == rest;
    }
    assert Left(file, offset, size) == [c] + Left(file, offset + n, size);
    Regroup(log, [c], Left(file, offset + n, size));
  }
}
