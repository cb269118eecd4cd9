/** The bytes of a message on the wire, one by one: sections 6.7.2 and 7.1.2.2 of OPC UA Part 6,
    without the names that the sender uses for them. */
module ChunkWire {
  import opened UaBytes
  import opened ChunkReceiving
  import opened ChunkSending
  import opened SecureChannelClass

  /** The number in four bytes, the lowest first. */
  function Number(b: Bytes, i: nat): nat
    requires i + 4 <= |b|
  {
    (b[i] as int) + 0x100 * (b[i + 1] as int) + 0x10000 * (b[i + 2] as int) + 0x1000000 * (b[i + 3] as int)
  }

  lemma NumberOf(v: UInt32)
    ensures Number(Le32(v), 0) == v
  {
    Le32Digits(v);
  }

  /** "OPN" for the two messages of OpenSecureChannel, "CLO" for the two of
      CloseSecureChannel, "MSG" for all others. */
  function TypeText(typeId: nat): Bytes {
    if typeId == 446 || typeId == 449 then [0x4F, 0x50, 0x4E]
    else if typeId == 452 || typeId == 455 then [0x43, 0x4C, 0x4F]
    else [0x4D, 0x53, 0x47]
  }

  /** The message keeps the limits of the peer. */
  predicate Kept(frags: seq<Bytes>, p: Progress, l: Limits) {
    && (l.maxMessageSize == 0 || p.messageSizeSoFar + TotalSize(frags) <= l.maxMessageSize)
    && CountFits(p.chunksSoFar + |frags|, l)
  }

  /** The fourth byte of a chunk: 'F' if it is the last one of a whole message, 'A' if it
      is the last one of any other, 'C' if it is not the last. */
  function KindByte(last: bool, whole: bool): Byte {
    if !last then 0x43 else if whole then 0x46 else 0x41
  }

  /** What stands behind the header: what was encoded, or an error code and a null string. */
  function BodyBytes(frag: Bytes, last: bool, whole: bool, kept: bool, error: UInt32): Bytes {
    if !last || whole then frag
    else (if kept then [error % 0x100, error / 0x100 % 0x100, error / 0x10000 % 0x100, error / 0x1000000]
          else [0x00, 0x00, 0xB9, 0x80])
         + [0xFF, 0xFF, 0xFF, 0xFF]
  }

  // ------------------------------------------------------------ the chunks

  lemma TooLargeIsLate(frags: seq<Bytes>, p: Progress, l: Limits)
    requires frags != []
    requires l.maxChunkCount == 0 || l.maxChunkCount >= 65535 || p.chunksSoFar <= l.maxChunkCount
    ensures Kept(frags, p, l) ==> !TooLarge(p, |frags[0]|, l)
    ensures |frags| == 1 ==> (Kept(frags, p, l) <==> !TooLarge(p, |frags[0]|, l))
    ensures |frags| > 1 && !TooLarge(p, |frags[0]|, l) ==>
              var q := Progress(CountOne(p), p.messageSizeSoFar + HEADER_LENGTH + |frags[0]|);
              && (Kept(frags, p, l) <==> Kept(frags[1..], q, l))
              && (l.maxChunkCount == 0 || l.maxChunkCount >= 65535 || q.chunksSoFar <= l.maxChunkCount)
  {
    assert TotalSize(frags) == HEADER_LENGTH + |frags[0]| + TotalSize(frags[1..]);
    CountGrows(p, l);
    if l.maxChunkCount == 0 || CountOne(p) <= l.maxChunkCount { CountAgrees(p, |frags| - 1, l); }
  }

  lemma AbortIs(error: UInt32)
    ensures AbortBody(error) == [error % 0x100, error / 0x100 % 0x100, error / 0x10000 % 0x100, error / 0x1000000]
                                + [0xFF, 0xFF, 0xFF, 0xFF]
    ensures AbortBody(BADRESPONSETOOLARGE) == [0x00, 0x00, 0xB9, 0x80] + [0xFF, 0xFF, 0xFF, 0xFF]
  {
  }

  /** Every chunk of a message: its kind and its body. */
  lemma {:induction false} ChunkIs(frags: seq<Bytes>, error: UInt32, p: Progress, l: Limits, i: nat)
    requires frags != [] && i < |Chunks(frags, error, p, l)|
    requires l.maxChunkCount == 0 || l.maxChunkCount >= 65535 || p.chunksSoFar <= l.maxChunkCount
    ensures var cs := Chunks(frags, error, p, l);
            var (last, kept) := (i == |cs| - 1, Kept(frags, p, l));
            && |cs| <= |frags| && (kept ==> |cs| == |frags|)
            && cs[i] == Chunk(KindByte(last, kept && error == 0), BodyBytes(frags[i], last, kept && error == 0, kept, error))
    decreases |frags|
  {
    hide AbortBody, Kept, TooLarge;
    TooLargeIsLate(frags, p, l);
    AbortIs(error);
    var cs := Chunks(frags, error, p, l);
    if |frags| > 1 {
      var c := ChunkFor(p, frags[0], false, 0, l);
      if c.kind != ABORT {
        var rest := Chunks(frags[1..], error, After(p, c), l);
        assert cs == [c] + rest;
        ChunkIs(frags[1..], error, After(p, c), l, if i == 0 then 0 else i - 1);
      }
    }
  }

  // ------------------------------------------------------------ the frames

  lemma {:induction false} FrameIs(token: Token, typ: nat, number: UInt32, requestId: UInt32, cs: seq<Chunk>, i: nat)
    requires i < |cs|
    ensures EncodeAll(token, typ, number, requestId, cs)[i] == Encode(token, typ, (number + 1 + i) % TWO32, requestId, cs[i])
    decreases |cs|
  {
    hide Encode;
    if i > 0 {
      FrameIs(token, typ, (number + 1) % TWO32, requestId, cs[1..], i - 1);
      Later(number, i);
      assert (number + 1) % TWO32 + 1 + (i - 1) == (number + 1) % TWO32 + i;
    }
  }

  lemma Later(number: UInt32, i: nat)
    ensures ((number + 1) % TWO32 + i) % TWO32 == (number + 1 + i) % TWO32
  {
  }

  lemma TypeIs(typeId: nat, kind: nat)
    requires kind < 256
    ensures Le32((MessageType(typeId) + kind * 0x1000000) % TWO32) == TypeText(typeId) + [kind]
  {
    var t := MessageType(typeId);
    assert t % 256 + 256 * (t / 256 % 256) + 65536 * (t / 65536) == t;
    TopByte(t, kind);
  }

  lemma TopByte(t: nat, kind: nat)
    requires t < 0x1000000 && kind < 256
    ensures t + kind * 0x1000000 < TWO32
    ensures Le32(t + kind * 0x1000000) == [t % 256, t / 256 % 256, t / 65536, kind]
  {
    var v: UInt32 := t + kind * 0x1000000;
    SameLow(t, kind * 65536, 256);
    SameLow(t, kind * 256, 65536);
    SameLow(t, kind, 16777216);
    SameLow(t / 256, kind * 256, 256);
    SameLow(t / 65536, kind, 256);
  }

  lemma SameLow(t: nat, k: nat, m: nat)
    requires m > 0
    ensures (t + k * m) % m == t % m && (t + k * m) / m == t / m + k
  {
    assert t == t / m * m + t % m;
    assert t + k * m == (t / m + k) * m + t % m;
    Quotient(t + k * m, t / m + k, t % m, m);
  }

  lemma Quotient(n: nat, q: nat, r: nat, m: nat)
    requires m > 0 && n == q * m + r && r < m
    ensures n / m == q && n % m == r
  {
    assert n == n / m * m + n % m;
    if n / m > q {
      Multiples(q + 1, n / m, m);
      assert false;
    }
    if n / m < q {
      Multiples(n / m + 1, q, m);
      assert false;
    }
  }

  lemma Multiples(a: nat, b: nat, m: nat)
    requires a <= b
    ensures a * m <= b * m
  {
  }

  /** The fields of a frame, as bytes and numbers. */
  lemma HeaderIs(token: Token, typeId: nat, number: UInt32, requestId: UInt32, c: Chunk)
    requires c.kind < 256 && 24 + |c.body| < TWO32
    ensures var b := Encode(token, MessageType(typeId), number, requestId, c);
            && |b| == 24 + |c.body| && b[..4] == TypeText(typeId) + [c.kind] && b[24..] == c.body
            && Number(b, 4) == |b| && Number(b, 8) == token.channelId && Number(b, 12) == token.tokenId
            && Number(b, 16) == number && Number(b, 20) == requestId
  {
    hide Le32, MessageType, TypeText;
    TypeIs(typeId, c.kind);
    NumberOf(24 + |c.body|);
    NumberOf(token.channelId);
    NumberOf(token.tokenId);
    NumberOf(number);
    NumberOf(requestId);
  }

  /** Every frame of every message that UA_SecureChannel_sendBinaryMessage sends. */
  lemma WireBytes(token: Token, typeId: nat, number: UInt32, requestId: UInt32, frags: seq<Bytes>, error: UInt32, l: Limits, i: nat)
    requires frags != [] && i < |Chunks(frags, error, FRESH, l)|
    requires forall k | 0 <= k < |frags| :: 24 + |frags[k]| < TWO32
    ensures var frames := EncodeAll(token, MessageType(typeId), number, requestId, Chunks(frags, error, FRESH, l));
            var (b, last, kept) := (frames[i], i == |frames| - 1, Kept(frags, FRESH, l));
            && |frames| <= |frags| && |b| >= 24
            && b[..4] == TypeText(typeId) + [KindByte(last, kept && error == 0)]
            && Number(b, 4) == |b| && Number(b, 8) == token.channelId && Number(b, 12) == token.tokenId
            && Number(b, 16) == (number + 1 + i) % TWO32 && Number(b, 20) == requestId
            && b[24..] == BodyBytes(frags[i], last, kept && error == 0, kept, error)
  {
    hide Chunks, Encode, Number, TypeText, KindByte, BodyBytes, MessageType, Kept;
    var cs := Chunks(frags, error, FRESH, l);
    ChunkIs(frags, error, FRESH, l, i);
    BodySize(frags[i], i == |cs| - 1, Kept(frags, FRESH, l) && error == 0, Kept(frags, FRESH, l), error);
    FrameIs(token, MessageType(typeId), number, requestId, cs, i);
    HeaderIs(token, typeId, (number + 1 + i) % TWO32, requestId, cs[i]);
  }

  lemma BodySize(frag: Bytes, last: bool, whole: bool, kept: bool, error: UInt32)
    ensures var b := BodyBytes(frag, last, whole, kept, error); |b| == |frag| || |b| == 8
    ensures KindByte(last, whole) < 256
  {
  }
}
