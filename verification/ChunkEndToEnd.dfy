/** Several messages under way at once: whatever the interleaving of their chunks and the
    segmentation of the stream, the receiver's callback gets each message once and whole. */
module ChunkEndToEnd {
  import opened Sequences
  import opened UaBytes
  import Framing = ChunkFraming
  import opened ChunkReceiving
  import opened ChunkSending
  import opened SecureChannelClass
  import opened ChunkTransport

  /** A message on its way: what was encoded, and the chunks still to be emitted. */
  datatype Active = Active(content: Bytes, rest: seq<Chunk>)

  /** The sender: messages under way by request, the chunks emitted so far, and the
      messages whose final chunk has been emitted, in the order of those chunks. */
  datatype Sender = Sender(active: map<UInt32, Active>, wire: seq<Sent>, completed: seq<Event>)

  /** A thread starts a message, or emits the next chunk of one. */
  datatype Action = Start(requestId: UInt32, frags: seq<Bytes>, error: UInt32) | Emit(requestId: UInt32)

  /** The buffers of a message: at least one, none larger than the room behind the header,
      and the first one starts with the type of the content. */
  predicate Buffers(frags: seq<Bytes>, sendBufferSize: nat) {
    && frags != [] && |frags[0]| > 0
    && forall i | 0 <= i < |frags| :: HEADER_LENGTH + |frags[i]| <= sendBufferSize
  }

  /** One action; a request that is under way cannot be started again. */
  function Act(s: Sender, a: Action, sendBufferSize: nat, l: Limits): Sender {
    match a
    case Start(r, frags, error) =>
      if r in s.active || !Buffers(frags, sendBufferSize) then s
      else s.(active := s.active[r := Active(Concat(frags), Chunks(frags, error, FRESH, l))])
    case Emit(r) =>
      if r !in s.active || s.active[r].rest == [] then s
      else
        var m := s.active[r];
        var c := m.rest[0];
        var wire := s.wire + [Sent(r, c)];
        if |m.rest| > 1 then Sender(s.active[r := m.(rest := m.rest[1..])], wire, s.completed)
        else
          Sender(s.active - {r}, wire,
                 if c.kind == FINAL then s.completed + [Message(MSG, r, m.content)] else s.completed)
  }

  function Acts(acts: seq<Action>, sendBufferSize: nat, l: Limits): Sender
    decreases |acts|
  {
    if acts == [] then Sender(map[], [], [])
    else Act(Acts(acts[..|acts| - 1], sendBufferSize, l), acts[|acts| - 1], sendBufferSize, l)
  }

  // ------------------------------------------------------------ what every action keeps

  /** A message under way: what the receiver has of it and what is still to come make up
      what was encoded, unless it will be aborted. */
  ghost predicate OnItsWay(m: Active, received: Bytes) {
    && Shaped(m.rest) && |m.content| > 0
    && (!Aborted(m.rest) ==> received + Bodies(m.rest) == m.content)
  }

  ghost predicate BodiesFit(cs: seq<Chunk>, sendBufferSize: nat) {
    forall i | 0 <= i < |cs| :: HEADER_LENGTH + |cs[i].body| <= sendBufferSize
  }

  ghost predicate Inv(s: Sender, sendBufferSize: nat) {
    var ideal := IdealRun(NOTHING, s.wire);
    && AllSendable(s.wire, sendBufferSize)
    && ideal.events == s.completed
    && (forall r | r in s.active :: OnItsWay(s.active[r], Get(ideal.pending, r)))
    && (forall r | r in s.active :: BodiesFit(s.active[r].rest, sendBufferSize))
    && (forall r: UInt32 | r !in s.active :: Get(ideal.pending, r) == [])
  }

  lemma {:induction false} ChunksFit(frags: seq<Bytes>, error: UInt32, p: Progress, l: Limits, sendBufferSize: nat)
    requires frags != [] && sendBufferSize >= 32
    requires forall i | 0 <= i < |frags| :: HEADER_LENGTH + |frags[i]| <= sendBufferSize
    ensures BodiesFit(Chunks(frags, error, p, l), sendBufferSize)
    decreases |frags|
  {
    hide TooLarge, AbortBody;
    if |frags| > 1 {
      var c := ChunkFor(p, frags[0], false, 0, l);
      ChunksFit(frags[1..], error, After(p, c), l, sendBufferSize);
    }
  }

  lemma StartKeeps(s: Sender, r: UInt32, frags: seq<Bytes>, error: UInt32, sendBufferSize: nat, l: Limits)
    requires Inv(s, sendBufferSize) && 32 <= sendBufferSize
    ensures Inv(Act(s, Start(r, frags, error), sendBufferSize, l), sendBufferSize)
  {
    hide IdealRun, Chunks, Bodies, Shaped, BodiesFit, AllSendable;
    if r !in s.active && Buffers(frags, sendBufferSize) {
      var cs := Chunks(frags, error, FRESH, l);
      ChunksShaped(frags, error, FRESH, l);
      ChunksFit(frags, error, FRESH, l, sendBufferSize);
      if !Aborted(cs) { ChunksCarryAll(frags, error, FRESH, l); }
      assert [] + Bodies(cs) == Bodies(cs);
      assert Concat(frags) == frags[0] + Concat(frags[1..]);
    }
  }

  /** Emitting a chunk of a message moves its body to the receiver's side. */
  lemma EmitMoves(m: Active, received: Bytes)
    requires OnItsWay(m, received)
    ensures var c := m.rest[0];
            && WellKinded(c)
            && (|m.rest| > 1 ==> c.kind == INTERMEDIATE && OnItsWay(m.(rest := m.rest[1..]), received + c.body))
            && (|m.rest| == 1 ==> c.kind != INTERMEDIATE && (c.kind == FINAL ==> received + c.body == m.content))
  {
    var c := m.rest[0];
    var tail := m.rest[1..];
    assert Bodies(m.rest) == c.body + Bodies(tail);
    assert received + (c.body + Bodies(tail)) == received + c.body + Bodies(tail);
    if |m.rest| > 1 {
      assert Aborted(tail) == Aborted(m.rest);
    } else {
      assert Bodies(tail) == [] && c.body + [] == c.body;
    }
  }

  lemma IdealNext(wire: seq<Sent>, w: Sent)
    ensures IdealRun(NOTHING, wire + [w]) == IdealStep(IdealRun(NOTHING, wire), w)
  {
    hide IdealStep;
    assert (wire + [w])[..|wire|] == wire;
  }

  lemma EmitKeeps(s: Sender, r: UInt32, sendBufferSize: nat, l: Limits)
    requires Inv(s, sendBufferSize)
    ensures Inv(Act(s, Emit(r), sendBufferSize, l), sendBufferSize)
  {
    hide IdealRun, Bodies, Aborted, Shaped;
    if r in s.active && s.active[r].rest != [] {
      var m := s.active[r];
      var w := Sent(r, m.rest[0]);
      var ideal := IdealRun(NOTHING, s.wire);
      EmitMoves(m, Get(ideal.pending, r));
      IdealNext(s.wire, w);
    }
  }

  lemma {:induction false} ActsKeep(acts: seq<Action>, sendBufferSize: nat, l: Limits)
    requires 32 <= sendBufferSize < TWO32
    ensures Inv(Acts(acts, sendBufferSize, l), sendBufferSize)
    decreases |acts|
  {
    hide Inv, Act;
    if acts == [] {
      NothingSent(sendBufferSize, l);
    } else {
      ActsKeep(acts[..|acts| - 1], sendBufferSize, l);
      var s := Acts(acts[..|acts| - 1], sendBufferSize, l);
      match acts[|acts| - 1]
      case Start(r, frags, error) => StartKeeps(s, r, frags, error, sendBufferSize, l);
      case Emit(r) => EmitKeeps(s, r, sendBufferSize, l);
    }
  }

  lemma NothingSent(sendBufferSize: nat, l: Limits)
    requires sendBufferSize < TWO32
    ensures Inv(Sender(map[], [], []), sendBufferSize)
  {
  }

  // ------------------------------------------------------------ end to end

  lemma MoreRoom(ws: seq<Sent>, small: nat, large: nat)
    requires AllSendable(ws, small) && small <= large < TWO32
    ensures AllSendable(ws, large)
  {
  }

  /** Everything has arrived. */
  lemma {:induction false} AllWhole(cs: seq<Bytes>)
    ensures Framing.WholeCount(cs, |Concat(cs)|) == |cs|
    decreases |cs|
  {
    if cs != [] { AllWhole(cs[1..]); }
  }

  /** A channel that has received nothing since number, with the sender's token. */
  ghost predicate Idle(c: Channel) { c.chunks == [] && c.events == [] }

  /** End to end: after any actions of the sender, if the receiver has got the bytes of all
      emitted chunks in whatever segments, no call has failed and its callback has been
      called with exactly the completed messages, in the order of their final chunks. */
  lemma EndToEnd(acts: seq<Action>, sendBufferSize: nat, recvBufferSize: nat, l: Limits,
                 c0: Channel, segs: seq<Bytes>, behind: Bytes)
    requires 32 <= sendBufferSize <= recvBufferSize < TWO32 && Idle(c0) && |behind| >= 3
    requires Concat(segs) == Concat(Wire(c0.token, c0.recvSeq, Acts(acts, sendBufferSize, l).wire))
    requires |Concat(segs)| < SIZE_MOD - TWO32
    ensures var r := OnSegments(Receiver(true, c0, []), segs, recvBufferSize, behind);
            && r.ok && r.incomplete == []
            && r.channel.events == Acts(acts, sendBufferSize, l).completed
  {
    hide Inv, Acts, AllSendable, Wire, IdealRun, OnSegments;
    ActsKeep(acts, sendBufferSize, l);
    var s := Acts(acts, sendBufferSize, l);
    InvMeans(s, sendBufferSize);
    MoreRoom(s.wire, sendBufferSize, recvBufferSize);
    IdleRepresents(c0);
    Segmented(c0, NOTHING, s.wire, recvBufferSize, segs, behind);
    AllWhole(Wire(c0.token, c0.recvSeq, s.wire));
    assert s.wire[..|s.wire|] == s.wire;
    var cs := Wire(c0.token, c0.recvSeq, s.wire);
    assert cs[..|cs|] == cs;
  }

  lemma InvMeans(s: Sender, sendBufferSize: nat)
    requires Inv(s, sendBufferSize)
    ensures AllSendable(s.wire, sendBufferSize) && IdealRun(NOTHING, s.wire).events == s.completed
  {
  }

  lemma IdleRepresents(c0: Channel)
    requires Idle(c0)
    ensures Represents(c0, NOTHING)
  {
  }

  // ------------------------------------------------------------ the C functions in this picture

  /** The chunks of one message as they go onto the wire. */
  function OnWire(requestId: UInt32, cs: seq<Chunk>): seq<Sent> {
    seq(|cs|, i requires 0 <= i < |cs| => Sent(requestId, cs[i]))
  }

  /** What UA_SecureChannel_sendBinaryMessage sends is the wire image of its chunks. */
  lemma {:induction false} SentIsWire(token: Token, number: UInt32, requestId: UInt32, cs: seq<Chunk>)
    ensures EncodeAll(token, MSG, number, requestId, cs) == Wire(token, number, OnWire(requestId, cs))
    decreases |cs|
  {
    hide Encode;
    if cs != [] {
      var ws := OnWire(requestId, cs);
      WireTail(token, number, ws);
      assert ws[1..] == OnWire(requestId, cs[1..]);
      SentIsWire(token, Next(number), requestId, cs[1..]);
    }
  }

  lemma NoSegments(r: Receiver, segs: seq<Bytes>, recvBufferSize: nat, behind: Bytes)
    requires |behind| >= 3
    ensures OnSegments(r, segs[..0], recvBufferSize, behind) == r
  {
  }

  lemma NextOne(r: Receiver, segs: seq<Bytes>, i: nat, recvBufferSize: nat, behind: Bytes)
    requires |behind| >= 3 && i < |segs|
    ensures OnSegments(r, segs[..i + 1], recvBufferSize, behind)
            == OnSegment(OnSegments(r, segs[..i], recvBufferSize, behind), segs[i], recvBufferSize, behind)
  {
    hide OnSegment;
    assert segs[..i + 1][..i] == segs[..i];
  }

  /** The loop over the chunks ends on what this segment completes. */
  predicate LoopEnds(r: Receiver, seg: Bytes, recvBufferSize: nat, behind: Bytes)
    requires |behind| >= 3
  {
    var f := Framing.Complete(r.incomplete, seg, recvBufferSize);
    f.status == Framing.Good && |f.message| > 0 ==> Process(r.channel, f.message + behind, |f.message|, 0).Done?
  }

  /** The receiving side on the C state: each segment goes through the connection, and
      what comes out whole through the channel, whatever the calls before have returned. */
  method Deliver(connection: Framing.Connection, channel: SecureChannel, segs: seq<Bytes>, behind: Bytes) returns (ok: bool)
    requires |behind| >= 3 && connection as object != channel
    requires forall n | 0 <= n < |segs| ::
               LoopEnds(OnSegments(Receiver(true, channel.Snapshot(), connection.incompleteMessage), segs[..n],
                                   connection.recvBufferSize, behind), segs[n], connection.recvBufferSize, behind)
    modifies connection, channel
    ensures Receiver(ok, channel.Snapshot(), connection.incompleteMessage)
            == OnSegments(old(Receiver(true, channel.Snapshot(), connection.incompleteMessage)), segs,
                          connection.recvBufferSize, behind)
    ensures channel.sent == old(channel.sent) && channel.sendSequenceNumber == old(channel.sendSequenceNumber)
  {
    hide Framing.Complete, Process, OnSegments;
    ghost var r0 := Receiver(true, channel.Snapshot(), connection.incompleteMessage);
    NoSegments(r0, segs, connection.recvBufferSize, behind);
    ok := true;
    var i := 0;
    while i < |segs|
      invariant i <= |segs|
      invariant Receiver(ok, channel.Snapshot(), connection.incompleteMessage)
                == OnSegments(r0, segs[..i], connection.recvBufferSize, behind)
      invariant channel.sent == old(channel.sent) && channel.sendSequenceNumber == old(channel.sendSequenceNumber)
    {
      NextOne(r0, segs, i, connection.recvBufferSize, behind);
      assert LoopEnds(OnSegments(r0, segs[..i], connection.recvBufferSize, behind), segs[i], connection.recvBufferSize, behind);
      var status, message := connection.CompleteMessages(segs[i]);
      if status != Framing.Good {
        ok := false;
      } else if |message| > 0 {
        var st := channel.ProcessChunks(message + behind, |message|);
        ok := ok && st == Good;
      }
      i := i + 1;
    }
    assert segs[..|segs|] == segs;
  }
}
