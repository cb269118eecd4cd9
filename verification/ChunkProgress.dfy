/** The receive loop on what the connection hands on. */
module ChunkProgress {
  import opened Sequences
  import opened UaBytes
  import Framing = ChunkFraming
  import opened ChunkReceiving

  /** The buffer from offset on consists of whole frames with headers that the connection
      accepts. */
  ghost predicate WholeFrames(mem: Bytes, len: nat, offset: nat, recvBufferSize: nat)
    requires len <= |mem|
    decreases len - offset
  {
    || offset == len
    || (offset + 16 <= len
        && Framing.GoodHeader(mem, offset, recvBufferSize)
        && offset + Rd32(mem, offset + 4) <= len
        && WholeFrames(mem, len, offset + Rd32(mem, offset + 4), recvBufferSize))
  }

  /** No error message in the frames from offset on is shorter than its frame, or longer
      and still in the buffer. */
  predicate ErrorsFit(mem: Bytes, len: nat, offset: nat)
    requires len + 2 < |mem|
    decreases len - offset
  {
    offset + 16 <= len && 16 <= Rd32(mem, offset + 4) <= len - offset ==>
      ErrorFits(mem, len, offset) && ErrorsFit(mem, len, offset + Rd32(mem, offset + 4))
  }

  lemma {:induction false} UntilIsWhole(b: Bytes, mem: Bytes, i: nat, until: nat, recvBufferSize: nat)
    requires i <= until <= |b| && until <= |mem| && b[..until] == mem[..until]
    requires Framing.CompleteUntil(b, i, recvBufferSize).0 == until
    ensures WholeFrames(mem, until, i, recvBufferSize)
    decreases |b| - i
  {
    hide Framing.GoodHeader, Rd32;
    if i < until {
      SameHeader(b, mem, i, until, recvBufferSize);
      var size := Rd32(b, i + 4);
      UntilGrows(b, i + size, recvBufferSize);
      UntilIsWhole(b, mem, i + size, until, recvBufferSize);
    }
  }

  lemma UntilGrows(b: Bytes, i: nat, recvBufferSize: nat)
    requires i <= |b|
    ensures Framing.CompleteUntil(b, i, recvBufferSize).0 >= i
  {
  }

  lemma SameHeader(b: Bytes, mem: Bytes, i: nat, until: nat, recvBufferSize: nat)
    requires i < until <= |b| && until <= |mem| && b[..until] == mem[..until]
    requires Framing.CompleteUntil(b, i, recvBufferSize).0 == until
    ensures i + 16 <= until && Framing.GoodHeader(b, i, recvBufferSize) && i + Rd32(b, i + 4) <= until
    ensures Framing.GoodHeader(mem, i, recvBufferSize) && Rd32(mem, i + 4) == Rd32(b, i + 4)
  {
    var size := Rd32(b, i + 4);
    UntilGrows(b, i + size, recvBufferSize);
    forall k | 0 <= k < until ensures mem[k] == b[k] { assert b[..until][k] == mem[..until][k]; }
    assert mem[i..i + 3] == b[i..i + 3];
  }

  /** What the connection hands on are whole frames, whatever it has received. */
  lemma HandedOnIsWhole(incomplete: Bytes, received: Bytes, recvBufferSize: nat, behind: Bytes)
    requires Framing.Complete(incomplete, received, recvBufferSize).status == Framing.Good
    ensures var m := Framing.Complete(incomplete, received, recvBufferSize).message;
            WholeFrames(m + behind, |m|, 0, recvBufferSize)
  {
    hide Framing.CompleteUntil;
    var all := incomplete + received;
    var until := Framing.CompleteUntil(all, 0, recvBufferSize).0;
    var m := Framing.Complete(incomplete, received, recvBufferSize).message;
    assert m == all[..until];
    assert (m + behind)[..until] == m;
    UntilIsWhole(all, m + behind, 0, until, recvBufferSize);
  }

  lemma {:induction false} FittingIsFramed(mem: Bytes, len: nat, offset: nat, recvBufferSize: nat)
    requires len + 2 < |mem| && WholeFrames(mem, len, offset, recvBufferSize)
    ensures ErrorsFit(mem, len, offset) <==> Framed(mem, len, offset)
    decreases len - offset
  {
    hide Rd32, Framing.GoodHeader, ErrorFits;
    if offset < len {
      FrameSize(mem, len, offset, recvBufferSize);
      FittingIsFramed(mem, len, offset + Rd32(mem, offset + 4), recvBufferSize);
    }
  }

  lemma FrameSize(mem: Bytes, len: nat, offset: nat, recvBufferSize: nat)
    requires len <= |mem| && WholeFrames(mem, len, offset, recvBufferSize) && offset < len
    ensures offset + 16 <= len && 16 <= Rd32(mem, offset + 4) <= len - offset
  {
  }

  /** On whatever the connection hands on, the receive loop ends if the error messages in it
      fit their frames; in particular if there are none. */
  lemma ReceiveEnds(incomplete: Bytes, received: Bytes, recvBufferSize: nat, behind: Bytes, c: Channel)
    requires |behind| > 2
    requires var r := Framing.Complete(incomplete, received, recvBufferSize);
             && r.status == Framing.Good && 0 < |r.message| < SIZE_MOD - TWO32
             && ErrorsFit(r.message + behind, |r.message|, 0)
    ensures var m := Framing.Complete(incomplete, received, recvBufferSize).message;
            Process(c, m + behind, |m|, 0).Done?
  {
    hide Framing.Complete, Process, Iterate, Framed;
    var m := Framing.Complete(incomplete, received, recvBufferSize).message;
    HandedOnIsWhole(incomplete, received, recvBufferSize, behind);
    FittingIsFramed(m + behind, |m|, 0, recvBufferSize);
    FramedEnds(c, m + behind, |m|, 0);
  }

  // ------------------------------------------------------------ one error frame

  /** A frame of size s that holds an error message with a reason of length n; rest is the
      reason and whatever else is in the frame. */
  function ErrFrame(kind: Byte, s: UInt32, error: UInt32, n: UInt32, rest: Bytes): (b: Bytes)
    ensures |b| == 16 + |rest|
  {
    [0x45, 0x52, 0x52, kind] + Le32(s) + Le32(error) + Le32(n) + rest
  }

  /** How many bytes the message takes; a negative length is that of no string. */
  function MessageLength(n: UInt32): nat { 16 + if n >= 0x8000_0000 then 0 else n }

  lemma ErrFrameFields(kind: Byte, s: UInt32, error: UInt32, n: UInt32, rest: Bytes, behind: Bytes)
    ensures var mem := ErrFrame(kind, s, error, n, rest) + behind;
            && mem[0] == 0x45 && mem[1] == 0x52 && mem[2] == 0x52
            && Rd32(mem, 4) == s && Rd32(mem, 12) == n && mem[16..] == rest + behind
  {
    hide Rd32, Le32;
    var mem := ErrFrame(kind, s, error, n, rest) + behind;
    assert At(mem, 4, Le32(s)) && At(mem, 12, Le32(n));
    Rd32Le32(mem, 4, s);
    Rd32Le32(mem, 12, n);
  }

  /** The connection hands the frame on as it came. */
  lemma ErrFrameHandedOn(kind: Byte, s: UInt32, error: UInt32, n: UInt32, rest: Bytes, recvBufferSize: nat)
    requires 16 <= s <= recvBufferSize && |rest| == s - 16
    ensures var b := ErrFrame(kind, s, error, n, rest);
            Framing.Complete([], b, recvBufferSize) == Framing.Completed(Framing.Good, b, [])
  {
    hide Rd32, Le32;
    var b := ErrFrame(kind, s, error, n, rest);
    ErrFrameFields(kind, s, error, n, rest, []);
    assert b + [] == b && [] + b == b;
    assert b[0..3] == [0x45, 0x52, 0x52];
    assert Framing.CompleteUntil(b, 0, recvBufferSize) == Framing.CompleteUntil(b, s, recvBufferSize);
  }

  /** Where the message ends, for every channel. */
  lemma ErrFrameAdvances(c: Channel, kind: Byte, s: UInt32, error: UInt32, n: UInt32, rest: Bytes, behind: Bytes)
    requires 16 <= s && |rest| == s - 16 && |behind| > 2
    ensures var r := Iterate(c, ErrFrame(kind, s, error, n, rest) + behind, s, 0);
            if MessageLength(n) <= s then
              r.Advance? && r.offset == MessageLength(n) && r.c.token == c.token && r.c.chunks == c.chunks
            else r.Leave?
  {
    hide Rd32, ErrFrame;
    ErrFrameFields(kind, s, error, n, rest, behind);
  }

  /** The application gets the error code and the reason. */
  lemma ErrorReceived(c: Channel, kind: Byte, error: UInt32, reason: Bytes, behind: Bytes)
    requires |reason| < 0x8000_0000 && |behind| > 2
    ensures var s := 16 + |reason|;
            Iterate(c, ErrFrame(kind, s, error, |reason|, reason) + behind, s, 0)
            == Advance(c.(events := c.events + [ErrorMessage(error, reason)]), s)
  {
    hide Rd32, Le32;
    var s := 16 + |reason|;
    var mem := ErrFrame(kind, s, error, |reason|, reason) + behind;
    ErrFrameFields(kind, s, error, |reason|, reason, behind);
    assert At(mem, 8, Le32(error));
    Rd32Le32(mem, 8, error);
    assert mem[16..16 + |reason|] == reason;
  }

  /** The chunk of an OpenSecureChannel message: everything behind the channel's id goes to the
      application, under request 0 and with what is stored there before it. */
  lemma OpenReceived(c: Channel, content: Bytes, behind: Bytes)
    requires 0 < |content| < TWO32 - 12 && |behind| > 2
    ensures var mem := [0x4F, 0x50, 0x4E, 0x46] + Le32(12 + |content|) + Le32(c.token.channelId) + content + behind;
            Iterate(c, mem, 12 + |content|, 0)
            == Advance(c.(chunks := RemoveChunk(c.chunks, 0), events := c.events + [Message(0x4E504F, 0, Stored(c.chunks, 0) + content)]),
                       12 + |content|)
  {
    hide Rd32, Le32, RemoveChunk;
    var head: Bytes := [0x4F, 0x50, 0x4E, 0x46];
    var mem := head + Le32(12 + |content|) + Le32(c.token.channelId) + content + behind;
    OpenType();
    assert At(mem, 0, Le32(OPN_FINAL)) && At(mem, 4, Le32(12 + |content|)) && At(mem, 8, Le32(c.token.channelId));
    Rd32Le32(mem, 0, OPN_FINAL);
    Rd32Le32(mem, 4, 12 + |content|);
    Rd32Le32(mem, 8, c.token.channelId);
    assert SizeSub(12 + |content|, 12) == |content|;
    assert mem[12..12 + |content|] == content;
    assert Finalized(c.chunks, 0, content) == Stored(c.chunks, 0) + content;
  }

  lemma OpenType()
    ensures Le32(OPN_FINAL) == [0x4F, 0x50, 0x4E, 0x46] && OPN_FINAL == 0x464E504F
  {
  }

  lemma ShortRestEnds(c: Channel, mem: Bytes, len: nat, offset: nat)
    requires offset < len < offset + 12 && len + 2 < |mem|
    ensures Process(c, mem, len, offset).Done?
  {
    hide Rd32;
  }

  /** Fewer than twelve bytes are left of the frame, or the message is not decoded. */
  predicate LeavesLittle(s: UInt32, n: UInt32) { MessageLength(n) > s || s - MessageLength(n) < 12 }

  lemma LittleLeftEnds(c: Channel, kind: Byte, s: UInt32, error: UInt32, n: UInt32, rest: Bytes, behind: Bytes)
    requires 16 <= s && |rest| == s - 16 && |behind| > 2 && LeavesLittle(s, n)
    ensures Process(c, ErrFrame(kind, s, error, n, rest) + behind, s, 0).Done?
  {
    hide Rd32, ErrFrame, Iterate;
    var mem := ErrFrame(kind, s, error, n, rest) + behind;
    ErrFrameAdvances(c, kind, s, error, n, rest, behind);
    var r := Iterate(c, mem, s, 0);
    if r.Advance? && r.offset < s { ShortRestEnds(r.c, mem, s, r.offset); }
  }

  const OPN_FINAL: UInt32 := OPN + FINAL * 0x1000000

  /** An OPN chunk of size 0 does not move the loop, whatever the state of the channel. */
  lemma EmptyOpenStays(c: Channel, mem: Bytes, len: nat, offset: nat)
    requires offset + 12 <= len && len + 2 < |mem| && len < SIZE_MOD
    requires At(mem, offset, Le32(OPN_FINAL)) && At(mem, offset + 4, Le32(0)) && At(mem, offset + 8, Le32(c.token.channelId))
    ensures var r := Iterate(c, mem, len, offset); r.Advance? && r.offset == offset && r.c.token == c.token
  {
    hide Rd32, Le32, CheckSymmetric, Finalized, RemoveChunk;
    Rd32Le32(mem, offset, OPN_FINAL);
    Rd32Le32(mem, offset + 4, 0);
    Rd32Le32(mem, offset + 8, c.token.channelId);
    assert mem[offset] == mem[offset..offset + 4][0] == Le32(OPN_FINAL)[0];
    FirstByte();
    assert SizeSub(0, 12) == SIZE_MOD - 12;
    NextFrame(offset, 12, 0);
  }

  lemma FirstByte()
    ensures Le32(OPN_FINAL)[0] == 0x4F
  {
  }

  /** Contents on which the loop does not end: what is left of the frame reads as an OPN
      chunk of size 0. */
  function BadRest(s: UInt32, n: UInt32, channelId: UInt32): (rest: Bytes)
    requires !LeavesLittle(s, n)
    ensures |rest| == s - 16
  {
    var m := MessageLength(n);
    seq(m - 16, _ => 0) + (Le32(OPN_FINAL) + Le32(0) + Le32(channelId) + seq(s - m - 12, _ => 0))
  }

  lemma BadRestFields(s: UInt32, n: UInt32, channelId: UInt32, mem: Bytes, behind: Bytes)
    requires !LeavesLittle(s, n) && |mem| >= 16 && mem[16..] == BadRest(s, n, channelId) + behind
    ensures var m := MessageLength(n);
            At(mem, m, Le32(OPN_FINAL)) && At(mem, m + 4, Le32(0)) && At(mem, m + 8, Le32(channelId))
  {
    hide Le32;
    var m, tail := MessageLength(n), mem[16..];
    assert mem[m..m + 4] == tail[m - 16..m - 12] == Le32(OPN_FINAL);
    assert mem[m + 4..m + 8] == tail[m - 12..m - 8] == Le32(0);
    assert mem[m + 8..m + 12] == tail[m - 8..m - 4] == Le32(channelId);
  }

  lemma ErrorFrameTooLong(c: Channel, kind: Byte, s: UInt32, error: UInt32, n: UInt32, behind: Bytes)
    requires 16 <= s && |behind| > 2 && !LeavesLittle(s, n)
    ensures Process(c, ErrFrame(kind, s, error, n, BadRest(s, n, c.token.channelId)) + behind, s, 0).Stuck?
  {
    hide Rd32, ErrFrame, Iterate, BadRest;
    var rest := BadRest(s, n, c.token.channelId);
    var mem := ErrFrame(kind, s, error, n, rest) + behind;
    ErrFrameFields(kind, s, error, n, rest, behind);
    ErrFrameAdvances(c, kind, s, error, n, rest, behind);
    BadRestFields(s, n, c.token.channelId, mem, behind);
    var r := Iterate(c, mem, s, 0);
    EmptyOpenStays(r.c, mem, s, r.offset);
    EmptyOpenStays(Iterate(r.c, mem, s, r.offset).c, mem, s, r.offset);
  }

  /** One error frame that the connection hands on: the receive loop ends whatever is in the
      frame, if and only if the message leaves fewer than twelve bytes of the frame, or is
      not decoded. */
  lemma ErrorFrameEnds(c: Channel, kind: Byte, s: UInt32, error: UInt32, n: UInt32, behind: Bytes, recvBufferSize: nat)
    requires 16 <= s <= recvBufferSize && |behind| > 2
    ensures forall rest: Bytes | |rest| == s - 16 ::
              var b := ErrFrame(kind, s, error, n, rest);
              Framing.Complete([], b, recvBufferSize) == Framing.Completed(Framing.Good, b, [])
    ensures (forall rest: Bytes | |rest| == s - 16 :: Process(c, ErrFrame(kind, s, error, n, rest) + behind, s, 0).Done?)
            <==> LeavesLittle(s, n)
  {
    hide Process, ErrFrame, BadRest, Framing.Complete;
    forall rest: Bytes | |rest| == s - 16
      ensures var b := ErrFrame(kind, s, error, n, rest);
              Framing.Complete([], b, recvBufferSize) == Framing.Completed(Framing.Good, b, [])
    {
      ErrFrameHandedOn(kind, s, error, n, rest, recvBufferSize);
    }
    if LeavesLittle(s, n) {
      forall rest: Bytes | |rest| == s - 16 ensures Process(c, ErrFrame(kind, s, error, n, rest) + behind, s, 0).Done? {
        LittleLeftEnds(c, kind, s, error, n, rest, behind);
      }
    } else {
      ErrorFrameTooLong(c, kind, s, error, n, behind);
      assert |BadRest(s, n, c.token.channelId)| == s - 16;
    }
  }
}
