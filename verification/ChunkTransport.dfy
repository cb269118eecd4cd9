/** Messages from a sender to the callback of a receiver: chunked, their chunks interleaved,
    delivered in any TCP segmentation, and put together again. */
module ChunkTransport {
  import opened Sequences
  import opened UaBytes
  import Framing = ChunkFraming
  import opened ChunkReceiving
  import opened ChunkSending
  import opened SecureChannelClass

  // ------------------------------------------------------------ what a receiver should do

  /** A MSG chunk of a request, in the order of emission. */
  datatype Sent = Sent(requestId: UInt32, chunk: Chunk)

  /** For every request what has been received of its message, and the messages delivered. */
  datatype Ideal = Ideal(pending: map<UInt32, Bytes>, events: seq<Event>)

  const NOTHING := Ideal(map[], [])

  function Get(m: map<UInt32, Bytes>, r: UInt32): Bytes { if r in m then m[r] else [] }

  function IdealStep(s: Ideal, w: Sent): Ideal {
    var r := w.requestId;
    var all := Get(s.pending, r) + w.chunk.body;
    if w.chunk.kind == INTERMEDIATE then s.(pending := s.pending[r := all])
    else if w.chunk.kind == FINAL && |all| > 0 then Ideal(s.pending - {r}, s.events + [Message(MSG, r, all)])
    else s.(pending := s.pending - {r})
  }

  function IdealRun(s: Ideal, ws: seq<Sent>): Ideal
    decreases |ws|
  {
    if ws == [] then s else IdealStep(IdealRun(s, ws[..|ws| - 1]), ws[|ws| - 1])
  }

  /** The channel represents the ideal receiver. */
  ghost predicate Represents(c: Channel, s: Ideal) {
    && Distinct(c.chunks) && c.events == s.events
    && forall r: UInt32 :: Stored(c.chunks, r) == Get(s.pending, r)
  }

  // ------------------------------------------------------------ one chunk

  predicate WellKinded(c: Chunk) { c.kind == INTERMEDIATE || c.kind == FINAL || c.kind == ABORT }

  predicate Sendable(w: Sent, recvBufferSize: nat) {
    WellKinded(w.chunk) && HEADER_LENGTH + |w.chunk.body| <= recvBufferSize < TWO32
  }

  function Next(number: UInt32): UInt32 { (number + 1) % TWO32 }

  function Frame(token: Token, number: UInt32, w: Sent): (b: Bytes)
    ensures |b| == HEADER_LENGTH + |w.chunk.body|
  {
    Encode(token, MSG, number, w.requestId, w.chunk)
  }

  /** The fields of an encoded chunk, where the decoder looks for them. */
  lemma FrameFields(mem: Bytes, i: nat, token: Token, number: UInt32, w: Sent)
    requires WellKinded(w.chunk) && HEADER_LENGTH + |w.chunk.body| < TWO32
    requires At(mem, i, Frame(token, number, w))
    ensures Rd32(mem, i) == MSG + w.chunk.kind * 0x1000000
    ensures Rd32(mem, i + 4) == HEADER_LENGTH + |w.chunk.body|
    ensures Rd32(mem, i + 8) == token.channelId && Rd32(mem, i + 12) == token.tokenId
    ensures Rd32(mem, i + 16) == number && Rd32(mem, i + 20) == w.requestId
    ensures At(mem, i + 24, w.chunk.body)
  {
    hide Le32, Rd32, At;
    var a, b := Le32(MSG + w.chunk.kind * 0x1000000), Le32(HEADER_LENGTH + |w.chunk.body|);
    var c, d, e, f := Le32(token.channelId), Le32(token.tokenId), Le32(number), Le32(w.requestId);
    AtSplit(mem, i, a + b + c + d + e + f, w.chunk.body);
    AtSplit(mem, i, a + b + c + d + e, f);
    AtSplit(mem, i, a + b + c + d, e);
    AtSplit(mem, i, a + b + c, d);
    AtSplit(mem, i, a + b, c);
    AtSplit(mem, i, a, b);
    Rd32Le32(mem, i, MSG + w.chunk.kind * 0x1000000);
    Rd32Le32(mem, i + 4, HEADER_LENGTH + |w.chunk.body|);
    Rd32Le32(mem, i + 8, token.channelId);
    Rd32Le32(mem, i + 12, token.tokenId);
    Rd32Le32(mem, i + 16, number);
    Rd32Le32(mem, i + 20, w.requestId);
  }

  /** The first three bytes of a chunk are M, S, G. */
  lemma TypeBytes(mem: Bytes, i: nat, kind: nat)
    requires i + 4 <= |mem| && kind < 128 && Rd32(mem, i) == MSG + kind * 0x1000000
    ensures mem[i] == 0x4D && mem[i + 1] == 0x53 && mem[i + 2] == 0x47
  {
    var low := (mem[i] as int) + 256 * (mem[i + 1] as int) + 65536 * (mem[i + 2] as int);
    var high := mem[i + 3] as int;
    assert Rd32(mem, i) == low + 16777216 * high;
    assert low < 16777216;
    assert (low + 16777216 * high) % 16777216 == low;
    assert (MSG + kind * 0x1000000) % 16777216 == MSG;
  }

  /** The receiver's loop on one chunk does what the ideal receiver does. */
  lemma OneChunk(c: Channel, s: Ideal, mem: Bytes, len: nat, i: nat, w: Sent)
    requires Represents(c, s) && WellKinded(w.chunk) && HEADER_LENGTH + |w.chunk.body| < TWO32
    requires len + 2 < |mem| && len + TWO32 < SIZE_MOD
    requires At(mem, i, Frame(c.token, Next(c.recvSeq), w)) && i + 24 + |w.chunk.body| <= len
    ensures var r := Iterate(c, mem, len, i);
            && r.Advance? && r.offset == i + 24 + |w.chunk.body|
            && Represents(r.c, IdealStep(s, w))
            && r.c.token == c.token && r.c.recvSeq == Next(c.recvSeq)
  {
    hide Represents, At, Rd32, Frame, ProcessChunk;
    FrameFields(mem, i, c.token, Next(c.recvSeq), w);
    TypeBytes(mem, i, w.chunk.kind);
    var typ := MSG + w.chunk.kind * 0x1000000;
    assert typ % 0x1000000 == MSG;
    var c1 := c.(recvSeq := Next(c.recvSeq));
    assert CheckSymmetric(c, c.token.tokenId, Next(c.recvSeq)) == Accepted(c1);
    assert SizeSub(24 + |w.chunk.body|, 24) == |w.chunk.body|;
    SameChunks(c, s, c1.recvSeq);
    BodyOfChunk(c1, s, mem, len, i + 24, w);
  }

  lemma SameChunks(c: Channel, s: Ideal, number: UInt32)
    requires Represents(c, s)
    ensures Represents(c.(recvSeq := number), s)
  {
  }

  lemma BodyOfChunk(c: Channel, s: Ideal, mem: Bytes, len: nat, i: nat, w: Sent)
    requires Represents(c, s)
    requires WellKinded(w.chunk) && len <= |mem| && len < SIZE_MOD
    requires At(mem, i, w.chunk.body) && i + |w.chunk.body| <= len
    ensures var r := ProcessChunk(c, mem, len, i, MSG + w.chunk.kind * 0x1000000, w.requestId, |w.chunk.body|);
            && r.Advance? && r.offset == i + |w.chunk.body|
            && Represents(r.c, IdealStep(s, w))
            && r.c.token == c.token && r.c.recvSeq == c.recvSeq
  {
    hide AppendChunk, RemoveChunk, Finalized, Stored, Distinct;
    var q, body := w.requestId, w.chunk.body;
    forall r: UInt32
      ensures && Distinct(AppendChunk(c.chunks, q, body))
              && Stored(AppendChunk(c.chunks, q, body), r) == (if r == q then Stored(c.chunks, r) + body else Stored(c.chunks, r))
    {
      AppendRefines(c.chunks, q, body, r);
    }
    forall r: UInt32
      ensures && Distinct(RemoveChunk(c.chunks, q))
              && Stored(RemoveChunk(c.chunks, q), r) == (if r == q then [] else Stored(c.chunks, r))
    {
      RemoveRefines(c.chunks, q, r);
    }
    assert Stored(c.chunks, q) == Get(s.pending, q);
    FinalizedIs(c.chunks, q, body);
  }

  // ------------------------------------------------------------ a buffer of chunks

  predicate AllSendable(ws: seq<Sent>, recvBufferSize: nat) {
    recvBufferSize < TWO32 && forall i | 0 <= i < |ws| :: Sendable(ws[i], recvBufferSize)
  }

  function Add(number: UInt32, n: nat): UInt32 { (number + n) % TWO32 }

  /** The chunks on the wire, numbered from number + 1 on. */
  function Wire(token: Token, number: UInt32, ws: seq<Sent>): (r: seq<Bytes>)
    ensures |r| == |ws|
    ensures forall i | 0 <= i < |r| :: r[i] == Frame(token, Add(number, i + 1), ws[i])
  {
    seq(|ws|, i requires 0 <= i < |ws| => Frame(token, Add(number, i + 1), ws[i]))
  }

  lemma FrameIsChunk(token: Token, number: UInt32, w: Sent, recvBufferSize: nat)
    requires Sendable(w, recvBufferSize)
    ensures Framing.IsChunk(Frame(token, number, w), recvBufferSize)
  {
    hide Frame, Rd32;
    var b := Frame(token, number, w);
    assert b[0..|b|] == b;
    FrameFields(b, 0, token, number, w);
    TypeBytes(b, 0, w.chunk.kind);
    assert b[0..3] == [0x4D, 0x53, 0x47];
  }

  lemma WireIsChunks(token: Token, number: UInt32, ws: seq<Sent>, recvBufferSize: nat)
    requires AllSendable(ws, recvBufferSize)
    ensures Framing.AllChunks(Wire(token, number, ws), recvBufferSize)
  {
    hide Frame;
    forall i | 0 <= i < |ws|
      ensures Framing.IsChunk(Wire(token, number, ws)[i], recvBufferSize)
    {
      FrameIsChunk(token, Add(number, i + 1), ws[i], recvBufferSize);
    }
  }

  lemma SendableTail(ws: seq<Sent>, recvBufferSize: nat)
    requires AllSendable(ws, recvBufferSize) && ws != []
    ensures AllSendable(ws[1..], recvBufferSize)
  {
  }

  lemma WireTail(token: Token, number: UInt32, ws: seq<Sent>)
    requires ws != []
    ensures Wire(token, number, ws)
            == [Frame(token, Next(number), ws[0])] + Wire(token, Next(number), ws[1..])
  {
    hide Frame;
    var all, tail := Wire(token, number, ws), Wire(token, Next(number), ws[1..]);
    forall i | 0 <= i < |tail| ensures tail[i] == all[i + 1] {
      AddStep(number, i + 1);
    }
    assert all == [all[0]] + tail;
  }

  lemma AddStep(number: UInt32, n: nat)
    ensures Add(Next(number), n) == Add(number, n + 1) && Next(number) == Add(number, 1) && Add(number, 0) == number
  {
  }

  lemma {:induction false} IdealTail(s: Ideal, ws: seq<Sent>)
    requires ws != []
    ensures IdealRun(s, ws) == IdealRun(IdealStep(s, ws[0]), ws[1..])
    decreases |ws|
  {
    hide IdealStep;
    if |ws| > 1 {
      var init := ws[..|ws| - 1];
      IdealTail(s, init);
      assert init[1..] == ws[1..][..|ws| - 2] && init[0] == ws[0];
    } else {
      assert ws[..0] == [] && ws[1..] == [];
      assert IdealRun(s, []) == s;
    }
  }

  /** The loop on a buffer of whole chunks processes all of them. */
  lemma {:induction false} WholeBuffer(c: Channel, s: Ideal, mem: Bytes, len: nat, i: nat, ws: seq<Sent>, recvBufferSize: nat)
    requires Represents(c, s) && AllSendable(ws, recvBufferSize) && ws != []
    requires len + 2 < |mem| && len + TWO32 < SIZE_MOD
    requires i <= len && mem[i..len] == Concat(Wire(c.token, c.recvSeq, ws))
    ensures var r := Process(c, mem, len, i);
            && r.Done? && r.status == Good && Represents(r.c, IdealRun(s, ws))
            && r.c.token == c.token && r.c.recvSeq == Add(c.recvSeq, |ws|)
    decreases |ws|
  {
    hide Represents, Iterate, Frame, IdealStep, IdealRun, Rd32;
    WireTail(c.token, c.recvSeq, ws);
    SendableTail(ws, recvBufferSize);
    IdealTail(s, ws);
    var w, rest := ws[0], Wire(c.token, Next(c.recvSeq), ws[1..]);
    var b := Frame(c.token, Next(c.recvSeq), w);
    ConcatFirst(b, rest);
    SplitAt(mem, i, len, b, Concat(rest));
    OneChunk(c, s, mem, len, i, w);
    var r := Iterate(c, mem, len, i);
    AddStep(c.recvSeq, |ws| - 1);
    if |ws| > 1 {
      NotEmpty(r.c.token, r.c.recvSeq, ws[1..]);
      WholeBuffer(r.c, IdealStep(s, w), mem, len, r.offset, ws[1..], recvBufferSize);
    } else {
      assert rest == [];
      NoMore(IdealStep(s, w), ws[1..]);
    }
  }

  lemma NoMore(s: Ideal, ws: seq<Sent>)
    requires |ws| == 0
    ensures IdealRun(s, ws) == s
  {
  }

  lemma NotEmpty(token: Token, number: UInt32, ws: seq<Sent>)
    requires ws != []
    ensures |Concat(Wire(token, number, ws))| > 0
  {
    hide Frame;
    WireTail(token, number, ws);
    ConcatFirst(Frame(token, Next(number), ws[0]), Wire(token, Next(number), ws[1..]));
  }

  lemma ConcatFirst(b: Bytes, rest: seq<Bytes>)
    ensures Concat([b] + rest) == b + Concat(rest)
  {
    assert ([b] + rest)[1..] == rest;
  }

  lemma SplitAt(mem: Bytes, i: nat, len: nat, a: Bytes, b: Bytes)
    requires i <= len <= |mem| && mem[i..len] == a + b
    ensures i + |a| <= len && At(mem, i, a) && mem[i + |a|..len] == b
  {
    assert mem[i..i + |a|] == mem[i..len][..|a|];
    assert mem[i + |a|..len] == mem[i..len][|a|..];
  }

  // ------------------------------------------------------------ a stream in segments

  /** The receiving side: its channel, the incomplete chunk of its connection, and whether
      every call has returned GOOD. */
  datatype Receiver = Receiver(ok: bool, channel: Channel, incomplete: Bytes)

  /** One segment from the network.  behind is memory after the buffer. */
  function OnSegment(r: Receiver, seg: Bytes, recvBufferSize: nat, behind: Bytes): Receiver
    requires |behind| >= 3
  {
    var f := Framing.Complete(r.incomplete, seg, recvBufferSize);
    if f.status != Framing.Good then Receiver(false, r.channel, f.incomplete)
    else if |f.message| == 0 then r.(incomplete := f.incomplete)
    else
      var p := Process(r.channel, f.message + behind, |f.message|, 0);
      Receiver(r.ok && p.Done? && p.status == Good, p.c, f.incomplete)
  }

  function OnSegments(r: Receiver, segs: seq<Bytes>, recvBufferSize: nat, behind: Bytes): Receiver
    requires |behind| >= 3
    decreases |segs|
  {
    if segs == [] then r
    else OnSegment(OnSegments(r, segs[..|segs| - 1], recvBufferSize, behind), segs[|segs| - 1], recvBufferSize, behind)
  }

  lemma {:induction false} IdealRunAppend(s: Ideal, a: seq<Sent>, b: seq<Sent>)
    ensures IdealRun(s, a + b) == IdealRun(IdealRun(s, a), b)
    decreases |b|
  {
    hide IdealStep;
    if b == [] {
      assert a + b == a;
    } else {
      var init := b[..|b| - 1];
      assert (a + b)[..|a + b| - 1] == a + init;
      IdealRunAppend(s, a, init);
    }
  }

  /** The receiver after n bytes of the stream of the chunks ws. */
  ghost predicate UpTo(r: Receiver, c0: Channel, s0: Ideal, ws: seq<Sent>, recvBufferSize: nat, n: nat)
    requires AllSendable(ws, recvBufferSize)
  {
    var cs := Wire(c0.token, c0.recvSeq, ws);
    var k := Framing.WholeCount(cs, n);
    && r.ok && n <= |Concat(cs)|
    && Framing.Done(cs, n) <= n && r.incomplete == Concat(cs)[Framing.Done(cs, n)..n]
    && Represents(r.channel, IdealRun(s0, ws[..k]))
    && r.channel.token == c0.token && r.channel.recvSeq == Add(c0.recvSeq, k)
  }

  lemma WireSlice(token: Token, number: UInt32, ws: seq<Sent>, recvBufferSize: nat, lo: nat, hi: nat)
    requires AllSendable(ws, recvBufferSize) && lo <= hi <= |ws|
    ensures AllSendable(ws[lo..hi], recvBufferSize)
    ensures Wire(token, number, ws)[lo..hi] == Wire(token, Add(number, lo), ws[lo..hi])
  {
    hide Frame;
    var all, part := Wire(token, number, ws), Wire(token, Add(number, lo), ws[lo..hi]);
    forall i | 0 <= i < |part| ensures part[i] == all[lo..hi][i] {
      AddTwice(number, lo, i + 1);
    }
  }

  lemma AddTwice(number: UInt32, a: nat, b: nat)
    ensures Add(Add(number, a), b) == Add(number, a + b)
  {
  }

  /** A nonempty message processed from the start of its buffer. */
  lemma ProcessMessage(c: Channel, s: Ideal, message: Bytes, behind: Bytes, ws: seq<Sent>, recvBufferSize: nat)
    requires Represents(c, s) && AllSendable(ws, recvBufferSize) && |behind| >= 3
    requires message == Concat(Wire(c.token, c.recvSeq, ws)) && |message| > 0
    requires |message| + TWO32 < SIZE_MOD
    ensures var p := Process(c, message + behind, |message|, 0);
            && p.Done? && p.status == Good && Represents(p.c, IdealRun(s, ws))
            && p.c.token == c.token && p.c.recvSeq == Add(c.recvSeq, |ws|)
  {
    hide Represents, Process, IdealRun, AllSendable;
    assert (message + behind)[0..|message|] == message;
    WholeBuffer(c, s, message + behind, |message|, 0, ws, recvBufferSize);
  }

  lemma NoBytesNoChunks(token: Token, number: UInt32, ws: seq<Sent>, recvBufferSize: nat)
    requires AllSendable(ws, recvBufferSize) && |Concat(Wire(token, number, ws))| == 0
    ensures ws == []
  {
    if ws != [] { NotEmpty(token, number, ws); }
  }

  /** The message that is put together from the next segment holds whole chunks. */
  lemma SegmentMessage(c0: Channel, ws: seq<Sent>, recvBufferSize: nat, n: nat, seg: Bytes)
    requires AllSendable(ws, recvBufferSize)
    requires var stream := Concat(Wire(c0.token, c0.recvSeq, ws));
             n + |seg| <= |stream| && seg == stream[n..n + |seg|]
    ensures var cs := Wire(c0.token, c0.recvSeq, ws);
            var m, k, k' := n + |seg|, Framing.WholeCount(cs, n), Framing.WholeCount(cs, n + |seg|);
            && k <= k' && Framing.Done(cs, n) <= n && Framing.Done(cs, m) <= m && AllSendable(ws[k..k'], recvBufferSize)
            && Framing.Complete(Concat(cs)[Framing.Done(cs, n)..n], seg, recvBufferSize)
               == Framing.Completed(Framing.Good,
                                    Concat(Wire(c0.token, Add(c0.recvSeq, k), ws[k..k'])),
                                    Concat(cs)[Framing.Done(cs, m)..m])
  {
    hide AllSendable, Wire, Concat, Framing.Complete, Framing.WholeCount, Framing.Done, Framing.AllChunks;
    var cs, m := Wire(c0.token, c0.recvSeq, ws), n + |seg|;
    WireIsChunks(c0.token, c0.recvSeq, ws, recvBufferSize);
    Framing.NextSegment(cs, n, seg, recvBufferSize);
    Framing.DoneGrows(cs, n, m);
    WireSlice(c0.token, c0.recvSeq, ws, recvBufferSize, Framing.WholeCount(cs, n), Framing.WholeCount(cs, m));
  }

  lemma OneSegment(r: Receiver, c0: Channel, s0: Ideal, ws: seq<Sent>, recvBufferSize: nat, n: nat, seg: Bytes, behind: Bytes)
    requires AllSendable(ws, recvBufferSize) && |behind| >= 3 && UpTo(r, c0, s0, ws, recvBufferSize, n)
    requires var stream := Concat(Wire(c0.token, c0.recvSeq, ws));
             n + |seg| <= |stream| < SIZE_MOD - TWO32 && seg == stream[n..n + |seg|]
    ensures UpTo(OnSegment(r, seg, recvBufferSize, behind), c0, s0, ws, recvBufferSize, n + |seg|)
  {
    hide Represents, Process, IdealRun, AllSendable, Wire, Concat, Framing.Complete, Framing.WholeCount, Framing.Done;
    SegmentMessage(c0, ws, recvBufferSize, n, seg);
    var cs := Wire(c0.token, c0.recvSeq, ws);
    var k, k' := Framing.WholeCount(cs, n), Framing.WholeCount(cs, n + |seg|);
    assert ws[..k] + ws[k..k'] == ws[..k'];
    IdealRunAppend(s0, ws[..k], ws[k..k']);
    AddTwice(c0.recvSeq, k, k' - k);
    var message := Concat(Wire(c0.token, Add(c0.recvSeq, k), ws[k..k']));
    if |message| == 0 {
      NoBytesNoChunks(c0.token, Add(c0.recvSeq, k), ws[k..k'], recvBufferSize);
      assert k == k';
    } else {
      MessageSize(cs, ws, c0, recvBufferSize, k, k');
      ProcessMessage(r.channel, IdealRun(s0, ws[..k]), message, behind, ws[k..k'], recvBufferSize);
    }
  }

  lemma MessageSize(cs: seq<Bytes>, ws: seq<Sent>, c0: Channel, recvBufferSize: nat, k: nat, k': nat)
    requires AllSendable(ws, recvBufferSize) && cs == Wire(c0.token, c0.recvSeq, ws)
    requires k <= k' <= |ws| && AllSendable(ws[k..k'], recvBufferSize)
    ensures |Concat(Wire(c0.token, Add(c0.recvSeq, k), ws[k..k']))| <= |Concat(cs)|
  {
    hide Wire, Concat, AllSendable;
    WireSlice(c0.token, c0.recvSeq, ws, recvBufferSize, k, k');
    Framing.ConcatSlice(cs, k, k');
  }

  /** Delivered in any segments, the whole chunks received so far have been processed
      exactly as the ideal receiver processes them. */
  lemma {:induction false} Segmented(c0: Channel, s0: Ideal, ws: seq<Sent>, recvBufferSize: nat, segs: seq<Bytes>, behind: Bytes)
    requires Represents(c0, s0) && AllSendable(ws, recvBufferSize) && |behind| >= 3
    requires var stream := Concat(Wire(c0.token, c0.recvSeq, ws));
             |Concat(segs)| <= |stream| < SIZE_MOD - TWO32 && Concat(segs) == stream[..|Concat(segs)|]
    ensures UpTo(OnSegments(Receiver(true, c0, []), segs, recvBufferSize, behind), c0, s0, ws, recvBufferSize, |Concat(segs)|)
    decreases |segs|
  {
    hide Represents, OnSegment, AllSendable, Wire;
    var cs := Wire(c0.token, c0.recvSeq, ws);
    if segs == [] {
      Framing.WholeCountIsLongest(cs, 0);
      WireIsChunks(c0.token, c0.recvSeq, ws, recvBufferSize);
      NothingWhole(cs, recvBufferSize);
      NoMore(s0, ws[..0]);
      AddStep(c0.recvSeq, 0);
    } else {
      var init, seg := segs[..|segs| - 1], segs[|segs| - 1];
      assert segs == init + [seg];
      ConcatAppend(init, [seg]);
      ConcatOne(seg);
      var n, m := |Concat(init)|, |Concat(segs)|;
      assert Concat(init) == Concat(segs)[..n] == Concat(cs)[..n];
      assert seg == Concat(segs)[n..] == Concat(cs)[n..m];
      Segmented(c0, s0, ws, recvBufferSize, init, behind);
      OneSegment(OnSegments(Receiver(true, c0, []), init, recvBufferSize, behind), c0, s0, ws, recvBufferSize, n, seg, behind);
    }
  }

  lemma NothingWhole(cs: seq<Bytes>, recvBufferSize: nat)
    requires Framing.AllChunks(cs, recvBufferSize)
    ensures Framing.WholeCount(cs, 0) == 0
  {
    if cs != [] { Framing.ChunkSize(cs[0], recvBufferSize); }
  }
}
