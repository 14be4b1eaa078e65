/** The stream or message buffer object of stream_buffer.c. */
module StreamBuffers {
  import opened Numbers
  import opened Sequences
  import opened StreamModel

  /** What writing data at the head does to the bytes from the tail on. */
  lemma {:induction false} WrittenView(before: seq<Byte>, after: seq<Byte>, head: nat, tail: nat, data: seq<Byte>)
    requires |after| == |before| && head < |before| && tail < |before|
    requires |data| <= Space(head, tail, |before|)
    requires Contains(after, head, data)
    requires forall k :: 0 <= k < |before| && Bytes(k, head, |before|) >= |data| ==> after[k] == before[k]
    ensures View(after, tail, Bytes(head, tail, |before|) + |data|)
         == View(before, tail, Bytes(head, tail, |before|)) + data
  {
    var L, n := |before|, Bytes(head, tail, |before|);
    var old_, new_ := View(before, tail, n), View(after, tail, n + |data|);
    forall i | 0 <= i < n ensures new_[i] == old_[i] {
      assert Bytes(Slot(tail, i, L), head, L) >= |data|;
    }
    forall i | 0 <= i < |data| ensures new_[n + i] == data[i] {
      assert Slot(tail, n + i, L) == Slot(head, i, L);
      assert after[Slot(head, i, L)] == data[i];
    }
  }

  class StreamBuffer {
    const xLength: nat
    const pucBuffer: array<Byte>
    const isMessageBuffer: bool
    var xTail: nat
    var xHead: nat
    var xTriggerLevelBytes: nat
    var taskWaitingToReceive: bool      // xTaskWaitingToReceive != NULL
    var taskWaitingToSend: bool         // xTaskWaitingToSend != NULL

    ghost predicate Valid()
      reads this`xTail, this`xHead
    {
      && pucBuffer.Length == xLength && 2 * xLength <= SIZE_RANGE
      && xTail < xLength && xHead < xLength
    }

    ghost function Contents(): seq<Byte>
      requires Valid()
      reads this`xTail, this`xHead, pucBuffer
    {
      View(pucBuffer[..], xTail, Bytes(xHead, xTail, xLength))
    }

    /** xStreamBufferGenericCreate; one byte more is allocated than asked for. */
    constructor (xBufferSizeBytes: nat, xTriggerLevel: nat, xIsMessageBuffer: bool)
      requires HEADER < xBufferSizeBytes && xTriggerLevel <= xBufferSizeBytes
      requires 2 * (xBufferSizeBytes + 1) <= SIZE_RANGE
      ensures Valid() && Contents() == [] && fresh(pucBuffer)
      ensures xLength == xBufferSizeBytes + 1 && isMessageBuffer == xIsMessageBuffer
      ensures 1 <= xTriggerLevelBytes < xLength && !taskWaitingToReceive && !taskWaitingToSend
      ensures 0 < xTriggerLevel ==> xTriggerLevelBytes == xTriggerLevel
      ensures xTriggerLevel == 0 ==> xTriggerLevelBytes == 1
    {
      xLength := xBufferSizeBytes + 1;
      pucBuffer := new Byte[xBufferSizeBytes + 1](_ => 0);
      isMessageBuffer := xIsMessageBuffer;
      xTail, xHead := 0, 0;
      xTriggerLevelBytes := if xTriggerLevel == 0 then 1 else xTriggerLevel;
      taskWaitingToReceive, taskWaitingToSend := false, false;
    }

    /** prvBytesInBuffer; no step leaves the range of size_t. */
    method BytesInBuffer() returns (xCount: nat)
      requires Valid()
      ensures xCount == |Contents()|
    {
      xCount := xLength + xHead;
      assert xCount < SIZE_RANGE;
      xCount := xCount - xTail;
      if xCount >= xLength {
        xCount := xCount - xLength;
      }
    }

    /** xStreamBufferSpacesAvailable */
    method SpacesAvailable() returns (xSpace: nat)
      requires Valid()
      ensures |Contents()| + xSpace == xLength - 1
    {
      xSpace := xLength + xTail;
      assert xSpace < SIZE_RANGE;
      xSpace := xSpace - xHead;
      xSpace := xSpace - 1;
      if xSpace >= xLength {
        xSpace := xSpace - xLength;
      }
    }

    /** memcpy into the storage. */
    method Store(at: nat, data: seq<Byte>)
      requires at + |data| <= pucBuffer.Length
      modifies pucBuffer
      ensures forall k :: 0 <= k < pucBuffer.Length ==>
                pucBuffer[k] == if at <= k < at + |data| then data[k - at] else old(pucBuffer[k])
    {
      forall i | 0 <= i < |data| {
        pucBuffer[at + i] := data[i];
      }
    }

    /** prvWriteBytesToBuffer: one copy up to the end of the storage, one from its
        start. */
    method WriteBytes(pucData: seq<Byte>)
      requires Valid() && 0 < |pucData| <= Space(xHead, xTail, xLength)
      modifies this`xHead, pucBuffer
      ensures Valid() && Contents() == old(Contents()) + pucData
    {
      var xCount := |pucData|;
      var xNextHead := xHead;
      ghost var before := pucBuffer[..];
      var xFirstLength := Min(xLength - xNextHead, xCount);
      Store(xNextHead, pucData[..xFirstLength]);
      if xCount > xFirstLength {
        Store(0, pucData[xFirstLength..]);
      }
      WrittenView(before, pucBuffer[..], xHead, xTail, pucData);
      xNextHead := xNextHead + xCount;
      if xNextHead >= xLength {
        xNextHead := xNextHead - xLength;
      }
      xHead := xNextHead;
    }

    /** prvReadBytesFromBuffer: likewise in two parts. */
    method ReadBytes(xMaxCount: nat, xBytesAvailable: nat) returns (pucData: seq<Byte>)
      requires Valid() && xBytesAvailable <= |Contents()|
      modifies this`xTail
      ensures Valid()
      ensures var n := Min(xBytesAvailable, xMaxCount);
              pucData == old(Contents())[..n] && Contents() == old(Contents())[n..]
              && xTail == Slot(old(xTail), n, xLength)
    {
      var xCount := Min(xBytesAvailable, xMaxCount);
      pucData := [];
      if xCount > 0 {
        var xNextTail := xTail;
        var xFirstLength := Min(xLength - xNextTail, xCount);
        pucData := pucBuffer[xNextTail..xNextTail + xFirstLength];
        if xCount > xFirstLength {
          pucData := pucData + pucBuffer[..xCount - xFirstLength];
        }
        assert forall i :: 0 <= i < xCount ==> pucData[i] == pucBuffer[Slot(xTail, i, xLength)];
        ViewDrops(pucBuffer[..], xTail, |Contents()|, xCount);
        xNextTail := xNextTail + xCount;
        if xNextTail >= xLength {
          xNextTail := xNextTail - xLength;
        }
        xTail := xNextTail;
      }
    }

    /** prvWriteMessageToBuffer; xSpace is what the caller found free, or less. */
    method WriteMessage(data: seq<Byte>, xSpace: nat) returns (written: nat)
      requires Valid() && data != [] && xSpace <= Space(xHead, xTail, xLength)
      modifies this`xHead, pucBuffer
      ensures Valid()
      ensures isMessageBuffer ==>
                written == (if |data| + HEADER <= xSpace then |data| else 0)
                && Contents() == old(Contents()) + if written != 0 then Frame(data) else []
      ensures !isMessageBuffer ==>
                written == Min(|data|, xSpace) && Contents() == old(Contents()) + data[..written]
    {
      written := 0;
      if xSpace == 0 {
      } else if !isMessageBuffer {
        written := Min(|data|, xSpace);
        WriteBytes(data[..written]);
      } else if xSpace >= |data| + HEADER {
        WriteBytes(Header(|data|));
        WriteBytes(data);
        Regroup(old(Contents()), Header(|data|), data);
        written := |data|;
      }
    }

    /** prvReadMessageFromBuffer in a message buffer that holds the messages ms:
        one that does not fit the receiver's buffer stays where it is. */
    method ReadNext(room: nat, xBytesAvailable: nat, ghost ms: seq<seq<Byte>>) returns (out: seq<Byte>)
      requires Valid() && xBytesAvailable <= |Contents()|
      requires ms != [] && Contents() == Frames(ms)
      requires |ms[0]| < SIZE_RANGE && HEADER + |ms[0]| <= xBytesAvailable
      modifies this`xTail
      ensures Valid()
      ensures if |ms[0]| <= room then out == ms[0] && Contents() == Frames(ms[1..])
              else out == [] && Contents() == Frames(ms) && xTail == old(xTail)
    {
      var xOriginalTail := xTail;
      ghost var h, m, rest := Header(|ms[0]|), ms[0], Frames(ms[1..]);
      assert Contents() == h + (m + rest);
      var header := ReadBytes(HEADER, xBytesAvailable);
      assert header == h && Contents() == m + rest;
      HeaderRoundTrip(|m|);
      var xNextMessageLength := Length(header);
      if xNextMessageLength > room {
        xTail := xOriginalTail;
        xNextMessageLength := 0;
      }
      out := ReadBytes(xNextMessageLength, xBytesAvailable - HEADER);
    }

    /** prvReadMessageFromBuffer. */
    method ReadMessage(room: nat, xBytesAvailable: nat, ghost ms: seq<seq<Byte>>) returns (out: seq<Byte>)
      requires Valid() && xBytesAvailable <= |Contents()|
      requires isMessageBuffer ==>
                 && ms != [] && Contents() == Frames(ms)
                 && |ms[0]| < SIZE_RANGE && HEADER + |ms[0]| <= xBytesAvailable
      modifies this`xTail
      ensures Valid()
      ensures isMessageBuffer ==>
                if |ms[0]| <= room then out == ms[0] && Contents() == Frames(ms[1..])
                else out == [] && Contents() == Frames(ms) && xTail == old(xTail)
      ensures !isMessageBuffer ==>
                out == old(Contents())[..Min(room, xBytesAvailable)] && old(Contents()) == out + Contents()
    {
      if isMessageBuffer {
        out := ReadNext(room, xBytesAvailable, ms);
      } else {
        out := ReadBytes(room, xBytesAvailable);
      }
    }

    /** xStreamBufferSendFromISR, and xStreamBufferSend once it does not wait. */
    method Send(data: seq<Byte>) returns (sent: nat, notified: bool)
      requires Valid() && data != [] && |data| + HEADER < SIZE_RANGE
      modifies this`xHead, this`taskWaitingToReceive, pucBuffer
      ensures Valid()
      ensures isMessageBuffer ==>
                sent == (if |old(Contents())| + |data| + HEADER < xLength then |data| else 0)
                && Contents() == old(Contents()) + if sent != 0 then Frame(data) else []
      ensures !isMessageBuffer ==>
                sent == Min(|data|, xLength - 1 - |old(Contents())|) && Contents() == old(Contents()) + data[..sent]
      ensures notified <==> sent > 0 && |Contents()| >= xTriggerLevelBytes && old(taskWaitingToReceive)
      ensures taskWaitingToReceive == (old(taskWaitingToReceive) && !notified)
    {
      var xSpace := SpacesAvailable();
      sent := WriteMessage(data, xSpace);
      notified := false;
      if sent > 0 {
        var xCount := BytesInBuffer();
        if xCount >= xTriggerLevelBytes && taskWaitingToReceive {
          notified := true;
          taskWaitingToReceive := false;
        }
      }
    }

    /** xStreamBufferReceiveFromISR, and xStreamBufferReceive once it does not wait. */
    method Receive(room: nat, ghost ms: seq<seq<Byte>>) returns (out: seq<Byte>, notified: bool)
      requires Valid()
      requires isMessageBuffer ==> Contents() == Frames(ms) && forall m :: m in ms ==> 0 < |m| < SIZE_RANGE
      modifies this`xTail, this`taskWaitingToSend
      ensures Valid()
      ensures isMessageBuffer ==>
                if ms != [] && |ms[0]| <= room then out == ms[0] && Contents() == Frames(ms[1..])
                else out == [] && Contents() == old(Contents()) && xTail == old(xTail)
      ensures !isMessageBuffer ==>
                |out| == Min(room, |old(Contents())|) && old(Contents()) == out + Contents()
      ensures notified <==> out != [] && old(taskWaitingToSend)
      ensures taskWaitingToSend == (old(taskWaitingToSend) && !notified)
    {
      var toStore := if isMessageBuffer then HEADER else 0;
      var xBytesAvailable := BytesInBuffer();
      out, notified := [], false;
      if isMessageBuffer && ms != [] {
        assert ms[0] in ms;
      }
      if xBytesAvailable > toStore {
        out := ReadMessage(room, xBytesAvailable, ms);
        if |out| != 0 && taskWaitingToSend {
          notified := true;
          taskWaitingToSend := false;
        }
      }
    }

    /** xStreamBufferSetTriggerLevel */
    method SetTriggerLevel(level: nat) returns (ok: bool)
      requires Valid()
      modifies this`xTriggerLevelBytes
      ensures ok <==> level <= xLength
      ensures xTriggerLevelBytes == if !ok then old(xTriggerLevelBytes) else if level == 0 then 1 else level
    {
      var xTriggerLevel := if level == 0 then 1 else level;
      ok := xTriggerLevel <= xLength;
      if ok {
        xTriggerLevelBytes := xTriggerLevel;
      }
    }
  }
}
