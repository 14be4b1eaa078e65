/** The byte ring of stream_buffer.c: index arithmetic, the bytes it holds, and
    the framing of messages. */
module StreamModel {
  type Byte = b: int | 0 <= b < 256

  const SIZE_RANGE: nat := 0x1_0000_0000   // size_t
  const HEADER: nat := 4                   // sbBYTES_TO_STORE_MESSAGE_LENGTH

  /** Moves an index on by no more than the length of the ring. */
  function Wrap(i: nat, length: nat): (j: nat)
    ensures 0 < length ==> j < length
  {
    if i < length then i else if i < 2 * length then i - length else 0
  }

  /** prvBytesInBuffer */
  function Bytes(head: nat, tail: nat, length: nat): (n: nat)
    requires head < length && tail < length
    ensures n < length && head == Wrap(tail + n, length)
  {
    var count := length + head - tail;
    if count >= length then count - length else count
  }

  /** xStreamBufferSpacesAvailable; one slot always stays free. */
  function Space(head: nat, tail: nat, length: nat): (n: nat)
    requires head < length && tail < length
    ensures Bytes(head, tail, length) + n == length - 1
  {
    var space := length + tail - head - 1;
    if space >= length then space - length else space
  }

  /** The n bytes from the tail on. */
  function View(s: seq<Byte>, tail: nat, n: nat): (bytes: seq<Byte>)
    requires tail < |s| && n <= |s|
    ensures |bytes| == n
    ensures forall i :: 0 <= i < n ==> bytes[i] == s[Wrap(tail + i, |s|)]
  {
    seq(n, i requires 0 <= i < n => s[Wrap(tail + i, |s|)])
  }

  function Slot(start: nat, i: nat, length: nat): (j: nat)
    ensures 0 < length ==> j < length
  {
    Wrap(start + i, length)
  }

  lemma {:induction false} ViewDrops(s: seq<Byte>, tail: nat, n: nat, k: nat)
    requires tail < |s| && k <= n <= |s|
    ensures View(s, Slot(tail, k, |s|), n - k) == View(s, tail, n)[k..]
  {
    var all, rest := View(s, tail, n), View(s, Slot(tail, k, |s|), n - k);
    forall i | 0 <= i < n - k
      ensures rest[i] == all[k + i]
    {
      assert rest[i] == s[Wrap(Slot(tail, k, |s|) + i, |s|)];
    }
  }

  /** The slots from start on hold these bytes. */
  predicate Contains(s: seq<Byte>, start: nat, bytes: seq<Byte>)
    requires s != []
  {
    forall i :: 0 <= i < |bytes| ==> s[Slot(start, i, |s|)] == bytes[i]
  }

  /** A ring with its unread bytes from the tail on, then bytes copied in past
      the head but not published, and room for reserve bytes in all there. */
  predicate Holds(s: seq<Byte>, head: nat, tail: nat, unread: seq<Byte>, copied: seq<Byte>, reserve: nat) {
    && tail < |s| && |copied| <= reserve && |unread| + reserve < |s|
    && head == Wrap(tail + |unread|, |s|)
    && Contains(s, tail, unread) && Contains(s, head, copied)
  }

  lemma {:induction false} CopyIn(s: seq<Byte>, head: nat, tail: nat, unread: seq<Byte>, copied: seq<Byte>,
                                  reserve: nat, b: Byte)
    requires Holds(s, head, tail, unread, copied, reserve) && |copied| < reserve
    ensures Holds(s[Slot(head, |copied|, |s|) := b], head, tail, unread, copied + [b], reserve)
  {
    var after := s[Slot(head, |copied|, |s|) := b];
    forall i | 0 <= i < |unread| ensures after[Slot(tail, i, |s|)] == unread[i] {
      SlotsDiffer(tail, i, |unread| + |copied|, |s|);
    }
    forall i | 0 <= i < |copied| ensures after[Slot(head, i, |s|)] == copied[i] {
      SlotsDiffer(head, i, |copied|, |s|);
    }
  }

  lemma {:induction false} MoveHead(s: seq<Byte>, head: nat, tail: nat, unread: seq<Byte>, copied: seq<Byte>,
                                    reserve: nat)
    requires Holds(s, head, tail, unread, copied, reserve)
    ensures Holds(s, Slot(head, |copied|, |s|), tail, unread + copied, [], reserve - |copied|)
  {
    var all := unread + copied;
    forall i | 0 <= i < |all| ensures s[Slot(tail, i, |s|)] == all[i] {
      if |unread| <= i {
        assert Slot(tail, i, |s|) == Slot(head, i - |unread|, |s|);
      }
    }
  }

  lemma {:induction false} MoveTail(s: seq<Byte>, head: nat, tail: nat, unread: seq<Byte>, copied: seq<Byte>,
                                    reserve: nat, k: nat)
    requires Holds(s, head, tail, unread, copied, reserve) && k <= |unread|
    ensures Holds(s, head, Slot(tail, k, |s|), unread[k..], copied, reserve)
  {
    var rest := unread[k..];
    forall i | 0 <= i < |rest| ensures s[Slot(Slot(tail, k, |s|), i, |s|)] == rest[i] {
      assert Slot(Slot(tail, k, |s|), i, |s|) == Slot(tail, k + i, |s|);
    }
  }

  /** The counts of the code are exact. */
  lemma {:induction false} Counts(s: seq<Byte>, head: nat, tail: nat, unread: seq<Byte>, copied: seq<Byte>,
                                  reserve: nat)
    requires Holds(s, head, tail, unread, copied, reserve)
    ensures head < |s| && Bytes(head, tail, |s|) == |unread|
    ensures View(s, tail, |unread|) == unread
  {
    var view := View(s, tail, |unread|);
    forall i | 0 <= i < |view| ensures view[i] == unread[i] {
      assert view[i] == s[Slot(tail, i, |s|)];
    }
  }

  /** Different offsets from the same index within one turn are different slots. */
  lemma SlotsDiffer(start: nat, i: nat, j: nat, length: nat)
    requires start < length && i < j < length
    ensures Slot(start, i, length) != Slot(start, j, length)
  {}

  // -------------------------------------------------------------------- framing

  function LowByte(n: nat): Byte { n % 256 }

  /** A length as the four bytes of a little-endian size_t. */
  function Header(n: nat): (h: seq<Byte>)
    ensures |h| == HEADER
  {
    [LowByte(n), LowByte(n / 256), LowByte(n / 65536), LowByte(n / 16777216)]
  }

  function Length(h: seq<Byte>): nat
    requires |h| == HEADER
  {
    h[0] as int + 256 * (h[1] as int) + 65536 * (h[2] as int) + 16777216 * (h[3] as int)
  }

  /** A length below the range of size_t survives. */
  lemma {:induction false} HeaderRoundTrip(n: nat)
    requires n < SIZE_RANGE
    ensures Length(Header(n)) == n
  {
    var a := n / 256;
    var b := a / 256;
    var c := b / 256;
    assert n / 65536 == b && n / 16777216 == c;
    assert c < 256;
  }

  function Frame(m: seq<Byte>): seq<Byte> {
    Header(|m|) + m
  }

  function Frames(ms: seq<seq<Byte>>): seq<Byte> {
    if ms == [] then [] else Frame(ms[0]) + Frames(ms[1..])
  }

  lemma {:induction false} FramesAppend(ms: seq<seq<Byte>>, m: seq<Byte>)
    ensures Frames(ms + [m]) == Frames(ms) + Frame(m)
  {
    if ms == [] {
      assert ms + [m] == [m];
    } else {
      assert (ms + [m])[1..] == ms[1..] + [m];
      FramesAppend(ms[1..], m);
    }
  }
}
